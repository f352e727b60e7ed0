/**
 * The charts view-model of the Android client (ChartsViewModel.kt): the selectable time
 * ranges, the state kept from the history flow and the time-window filter.
 */
module Charts {
  import opened Wrappers
  import opened Seqs
  import opened DeviceModel

  datatype TimeRange = LastHour | Last6Hours | Last24Hours | LastWeek
  {
    function Label(): string {
      match this
      case LastHour => "Last Hour"
      case Last6Hours => "Last 6 Hours"
      case Last24Hours => "Last 24 Hours"
      case LastWeek => "Last Week"
    }

    /** The width of the window in milliseconds. */
    function Milliseconds(): (ms: int)
      ensures ms > 0
      ensures this == LastHour ==> ms == 60 * 60 * 1000
      ensures this == Last6Hours ==> ms == 6 * 60 * 60 * 1000
      ensures this == Last24Hours ==> ms == 24 * 60 * 60 * 1000
      ensures this == LastWeek ==> ms == 7 * 24 * 60 * 60 * 1000
    {
      match this
      case LastHour => 3600000
      case Last6Hours => 21600000
      case Last24Hours => 86400000
      case LastWeek => 604800000
    }
  }

  /** The ranges, narrowest first, are strictly wider one after the other. */
  lemma RangesIncrease()
    ensures LastHour.Milliseconds() < Last6Hours.Milliseconds() < Last24Hours.Milliseconds() < LastWeek.Milliseconds()
  {
  }

  datatype ChartsUiState = ChartsUiState(
    readings: seq<SensorReading>,
    isLoading: bool,
    error: Option<string>,
    timeRange: TimeRange)

  /** The number of history entries the view-model asks for. */
  const HistoryLimit: nat := 500

  function InitialState(): (s: ChartsUiState)
    ensures s.readings == [] && s.isLoading && s.error.None? && s.timeRange == LastHour
  {
    ChartsUiState([], true, None, LastHour)
  }

  function AtOrAfter(cutoff: int): SensorReading -> bool {
    (x: SensorReading) => x.timestamp >= cutoff
  }

  /** The readings inside the selected window ending at `now`. */
  function WindowFilter(readings: seq<SensorReading>, range: TimeRange, now: int): seq<SensorReading> {
    if readings == [] then [] else Filter(readings, AtOrAfter(now - range.Milliseconds()))
  }

  /**
   * The window keeps exactly the readings stamped no earlier than `now` minus the range,
   * in their original order, and nothing else.
   */
  lemma {:induction false} WindowFilterExact(readings: seq<SensorReading>, range: TimeRange, now: int)
    ensures WindowFilter(readings, range, now) == Filter(readings, AtOrAfter(now - range.Milliseconds()))
    ensures forall i :: 0 <= i < |WindowFilter(readings, range, now)| ==>
      WindowFilter(readings, range, now)[i] in readings &&
      WindowFilter(readings, range, now)[i].timestamp >= now - range.Milliseconds()
    ensures forall i :: 0 <= i < |readings| && readings[i].timestamp >= now - range.Milliseconds() ==>
      readings[i] in WindowFilter(readings, range, now)
  {
    FilterMembers(readings, AtOrAfter(now - range.Milliseconds()));
  }

  /** For the same `now`, a wider range keeps everything a narrower one keeps, in the same order. */
  lemma WiderRangeKeepsMore(readings: seq<SensorReading>, narrow: TimeRange, wide: TimeRange, now: int)
    requires narrow.Milliseconds() <= wide.Milliseconds()
    ensures Filter(WindowFilter(readings, wide, now), AtOrAfter(now - narrow.Milliseconds())) == WindowFilter(readings, narrow, now)
  {
    if readings != [] {
      FilterNarrow(readings, AtOrAfter(now - wide.Milliseconds()), AtOrAfter(now - narrow.Milliseconds()));
    }
  }

  class ChartsViewModel {
    var uiState: ChartsUiState
    const deviceId: string

    constructor(deviceId0: string)
      ensures uiState == InitialState() && deviceId == deviceId0
    {
      uiState := InitialState();
      deviceId := deviceId0;
    }

    /** A batch from the history flow replaces the readings and clears loading and error. */
    method OnReadings(readings: seq<SensorReading>)
      modifies this
      ensures uiState == old(uiState).(readings := readings, isLoading := false, error := None)
    {
      uiState := uiState.(readings := readings, isLoading := false, error := None);
    }

    /** A failed history flow stops loading and shows the failure's message. */
    method OnLoadError(message: Option<string>)
      modifies this
      ensures uiState == old(uiState).(isLoading := false, error := message)
    {
      uiState := uiState.(isLoading := false, error := message);
    }

    /** `setTimeRange` changes only the selected range. */
    method SetTimeRange(range: TimeRange)
      modifies this
      ensures uiState == old(uiState).(timeRange := range)
    {
      uiState := uiState.(timeRange := range);
    }

    /** `getFilteredReadings` with the clock passed in. */
    method GetFilteredReadings(now: int) returns (r: seq<SensorReading>)
      ensures uiState.readings == [] ==> r == []
      ensures r == WindowFilter(uiState.readings, uiState.timeRange, now)
      ensures multiset(r) <= multiset(uiState.readings)
      ensures forall i :: 0 <= i < |r| ==> r[i].timestamp >= now - uiState.timeRange.Milliseconds()
    {
      if uiState.readings == [] {
        return [];
      }
      var cutoff := now - uiState.timeRange.Milliseconds();
      r := Filter(uiState.readings, AtOrAfter(cutoff));
      FilterMembers(uiState.readings, AtOrAfter(cutoff));
    }
  }
}
