/**
 * Relative-time labels and the offline rule: `getTimeAgo` and `isOffline` of the legacy
 * client (DateUtils.java) and the device list's own `getTimeAgo` (DeviceListScreen.kt).
 * The clock is a parameter; differences are JVM `long` subtractions.
 */
module TimeAgo {
  import opened Text

  const MinuteMillis: int := 60000
  const HourMillis: int := 3600000
  const DayMillis: int := 86400000
  /** A device silent for longer than this is offline (`Constants.OFFLINE_THRESHOLD`). */
  const OfflineThreshold: int := 30000

  /** `now - timestamp` as a `long`. */
  function Elapsed(timestamp: int, now: int): (diff: int)
    ensures IsLong(diff)
    ensures IsLong(now - timestamp) ==> diff == now - timestamp
  {
    Wrap64(now - timestamp)
  }

  /** The bucket `DateUtils.getTimeAgo` puts a difference in, with its count. */
  datatype Ago = JustNow | Minutes(minutes: nat) | Hours(hours: nat) | Days(days: nat)

  /**
   * Exactly one bucket applies to every difference, and the count is the whole number
   * of units that have passed (negative differences are "just now").
   */
  function AgoBucket(diff: int): (a: Ago)
    ensures a.JustNow? <==> diff < MinuteMillis
    ensures a.Minutes? <==> MinuteMillis <= diff < HourMillis
    ensures a.Hours? <==> HourMillis <= diff < DayMillis
    ensures a.Days? <==> DayMillis <= diff
    ensures a.Minutes? ==> 1 <= a.minutes <= 59 && a.minutes * MinuteMillis <= diff < (a.minutes + 1) * MinuteMillis
    ensures a.Hours? ==> 1 <= a.hours <= 23 && a.hours * HourMillis <= diff < (a.hours + 1) * HourMillis
    ensures a.Days? ==> 1 <= a.days && a.days * DayMillis <= diff < (a.days + 1) * DayMillis
  {
    if diff < MinuteMillis then JustNow
    else if diff < HourMillis then Minutes(diff / MinuteMillis)
    else if diff < DayMillis then Hours(diff / HourMillis)
    else Days(diff / DayMillis)
  }

  /** "s" after a count above one. */
  function Plural(n: nat): string {
    if n > 1 then "s" else ""
  }

  function RenderAgo(a: Ago): string {
    match a
    case JustNow => "Just now"
    case Minutes(m) => NatToString(m) + " min ago"
    case Hours(h) => NatToString(h) + " hour" + Plural(h) + " ago"
    case Days(d) => NatToString(d) + " day" + Plural(d) + " ago"
  }

  /** `DateUtils.getTimeAgo(timestamp)` read at `now`. */
  function GetTimeAgo(timestamp: int, now: int): string {
    RenderAgo(AgoBucket(Elapsed(timestamp, now)))
  }

  /** The order of buckets: older differences never get a smaller label. */
  function Rank(a: Ago): int {
    match a
    case JustNow => 0
    case Minutes(m) => m
    case Hours(h) => 60 * h
    case Days(d) => 60 * 24 * d
  }

  /** A larger difference never gets a label that reads as more recent. */
  lemma AgoMonotone(d1: int, d2: int)
    requires d1 <= d2
    ensures Rank(AgoBucket(d1)) <= Rank(AgoBucket(d2))
  {
    var a1, a2 := AgoBucket(d1), AgoBucket(d2);
    if a1.Minutes? && a2.Minutes? {
      assert a1.minutes * MinuteMillis <= d1 <= d2 < (a2.minutes + 1) * MinuteMillis;
    } else if a1.Hours? && a2.Hours? {
      assert a1.hours * HourMillis <= d1 <= d2 < (a2.hours + 1) * HourMillis;
    } else if a1.Days? && a2.Days? {
      assert a1.days * DayMillis <= d1 <= d2 < (a2.days + 1) * DayMillis;
    }
  }

  /** A timestamp in the future of a non-negative `now` reads "Just now". */
  lemma FutureIsJustNow(timestamp: int, now: int)
    requires 0 <= now <= timestamp <= MaxLong
    ensures GetTimeAgo(timestamp, now) == "Just now"
  {
    assert IsLong(now - timestamp);
  }

  /**
   * Subtraction wraps: a timestamp far enough in the past that `now - timestamp`
   * overflows reads as "Just now" too.
   */
  lemma OverflowReadsJustNow()
    ensures GetTimeAgo(MinLong, 0) == "Just now"
  {
    assert Elapsed(MinLong, 0) == MinLong;
  }

  /** `DateUtils.isOffline(lastUpdate)` read at `now`: strictly more than the threshold has passed. */
  function IsOffline(lastUpdate: int, now: int): (offline: bool)
    ensures IsLong(now - lastUpdate) ==> (offline <==> now - lastUpdate > OfflineThreshold)
  {
    Elapsed(lastUpdate, now) > OfflineThreshold
  }

  /** Exactly at the threshold a device is still online; one millisecond later it is offline. */
  lemma OfflineBoundary(lastUpdate: int)
    requires IsLong(lastUpdate) && IsLong(lastUpdate + OfflineThreshold + 1)
    ensures !IsOffline(lastUpdate, lastUpdate + OfflineThreshold)
    ensures IsOffline(lastUpdate, lastUpdate + OfflineThreshold + 1)
  {
  }

  /** The device list's label: never updated, a short relative time, or a calendar date. */
  datatype ShortAgo = Never | ShortJustNow | MinutesAgo(minutes: nat) | HoursAgo(hours: nat) | DateOf(timestamp: int)

  /** `getTimeAgo` of the device list read at `now`; a timestamp of 0 is checked before anything else. */
  function ShortBucket(timestamp: int, now: int): (a: ShortAgo)
    ensures a.Never? <==> timestamp == 0
    ensures timestamp != 0 ==>
      var diff := Elapsed(timestamp, now);
      (a.ShortJustNow? <==> diff < MinuteMillis) &&
      (a.MinutesAgo? <==> MinuteMillis <= diff < HourMillis) &&
      (a.HoursAgo? <==> HourMillis <= diff < DayMillis) &&
      (a.DateOf? <==> DayMillis <= diff) &&
      (a.MinutesAgo? ==> 1 <= a.minutes <= 59) &&
      (a.HoursAgo? ==> 1 <= a.hours <= 23) &&
      (a.DateOf? ==> a.timestamp == timestamp)
  {
    if timestamp == 0 then Never
    else
      var diff := Elapsed(timestamp, now);
      if diff < MinuteMillis then ShortJustNow
      else if diff < HourMillis then MinutesAgo(diff / MinuteMillis)
      else if diff < DayMillis then HoursAgo(diff / HourMillis)
      else DateOf(timestamp)
  }

  /** The text of a label; a calendar date is formatted by the platform and is not modelled. */
  function RenderShort(a: ShortAgo): string
    requires !a.DateOf?
  {
    match a
    case Never => "Never"
    case ShortJustNow => "Just now"
    case MinutesAgo(m) => NatToString(m) + "m ago"
    case HoursAgo(h) => NatToString(h) + "h ago"
  }

  /**
   * Below a day the two clients agree on the bucket and its count for any timestamp but 0:
   * the device list shortens only the wording.
   */
  lemma ClientsAgreeBelowADay(timestamp: int, now: int)
    requires timestamp != 0 && Elapsed(timestamp, now) < DayMillis
    ensures var s := ShortBucket(timestamp, now); var a := AgoBucket(Elapsed(timestamp, now));
      (s.ShortJustNow? <==> a.JustNow?) &&
      (s.MinutesAgo? <==> a.Minutes?) && (s.MinutesAgo? ==> s.minutes == a.minutes) &&
      (s.HoursAgo? <==> a.Hours?) && (s.HoursAgo? ==> s.hours == a.hours)
  {
  }
}
