/**
 * The offline cache of the Android client: the `cached_devices` and `cached_readings`
 * tables (CachedDevice.kt) and the queries and updates of their data-access objects
 * (DeviceDao.kt), with SQLite's meaning of REPLACE, AUTOINCREMENT, ORDER BY and LIMIT.
 * A table is a sequence of rows in insertion order; a primary key is a column no two
 * rows share.
 */
module LocalCache {
  import opened Wrappers
  import opened Seqs

  /** A row of `cached_devices`; `deviceId` is the primary key. */
  datatype CachedDevice = CachedDevice(
    deviceId: string,
    deviceName: string,
    lastTemperature: real,
    lastHumidity: real,
    dryingActive: bool,
    lastUpdate: int,
    isFavorite: bool)

  /** A row of `cached_readings`; `id` is the generated primary key, 0 meaning "not yet assigned". */
  datatype CachedReading = CachedReading(
    id: int,
    deviceId: string,
    temperature: real,
    humidity: real,
    setpointTemp: real,
    setpointHumidity: real,
    heaterOn: bool,
    fanOn: bool,
    dryingActive: bool,
    timestamp: int)

  /** The page size `getReadings` uses when the caller gives none. */
  const DefaultReadingLimit: int := 100

  function DeviceKey(d: CachedDevice): string { d.deviceId }
  function ReadingKey(r: CachedReading): int { r.id }
  function LastUpdate(d: CachedDevice): int { d.lastUpdate }
  function Timestamp(r: CachedReading): int { r.timestamp }
  /** Sorting by this key in non-increasing order sorts by timestamp in non-decreasing order. */
  function Earliness(r: CachedReading): int { 0 - r.timestamp }
  predicate IsFavorite(d: CachedDevice) { d.isFavorite }

  function OtherDevice(deviceId: string): CachedDevice -> bool {
    (d: CachedDevice) => d.deviceId != deviceId
  }

  function OtherReading(id: int): CachedReading -> bool {
    (r: CachedReading) => r.id != id
  }

  function ReadingOf(deviceId: string): CachedReading -> bool {
    (r: CachedReading) => r.deviceId == deviceId
  }

  function InRange(deviceId: string, startTime: int, endTime: int): CachedReading -> bool {
    (r: CachedReading) => r.deviceId == deviceId && startTime <= r.timestamp && r.timestamp <= endTime
  }

  function NotOlderThan(cutoff: int): CachedReading -> bool {
    (r: CachedReading) => r.timestamp >= cutoff
  }

  /** `SELECT * FROM cached_devices ORDER BY isFavorite DESC, lastUpdate DESC`. */
  function DeviceList(devices: seq<CachedDevice>): seq<CachedDevice> {
    SortDesc(Filter(devices, IsFavorite), LastUpdate) + SortDesc(Filter(devices, Not(IsFavorite)), LastUpdate)
  }

  /** Favourites before the rest, and within each group the most recently updated first. */
  predicate FavoritesFirst(s: seq<CachedDevice>) {
    forall i, j :: 0 <= i < j < |s| ==>
      && (s[i].isFavorite || !s[j].isFavorite)
      && (s[i].isFavorite == s[j].isFavorite ==> s[i].lastUpdate >= s[j].lastUpdate)
  }

  lemma ConcatFavoritesFirst(a: seq<CachedDevice>, b: seq<CachedDevice>)
    requires SortedDesc(a, LastUpdate) && SortedDesc(b, LastUpdate)
    requires forall i :: 0 <= i < |a| ==> a[i].isFavorite
    requires forall i :: 0 <= i < |b| ==> !b[i].isFavorite
    ensures FavoritesFirst(a + b)
  {
    var s := a + b;
    forall i, j | 0 <= i < j < |s|
      ensures (s[i].isFavorite || !s[j].isFavorite)
      ensures s[i].isFavorite == s[j].isFavorite ==> s[i].lastUpdate >= s[j].lastUpdate
    {
      if j < |a| {
        assert LastUpdate(a[i]) >= LastUpdate(a[j]);
      } else if i >= |a| {
        assert LastUpdate(b[i - |a|]) >= LastUpdate(b[j - |a|]);
      }
    }
  }

  /** The device list holds every row once, favourites first, and each group most recently updated first. */
  lemma DeviceListOrder(devices: seq<CachedDevice>)
    ensures multiset(DeviceList(devices)) == multiset(devices)
    ensures FavoritesFirst(DeviceList(devices))
  {
    var a := SortDesc(Filter(devices, IsFavorite), LastUpdate);
    var b := SortDesc(Filter(devices, Not(IsFavorite)), LastUpdate);
    FilterPartition(devices, IsFavorite);
    SortDescCorrect(Filter(devices, IsFavorite), LastUpdate);
    SortDescCorrect(Filter(devices, Not(IsFavorite)), LastUpdate);
    SortedFilterSatisfies(devices, IsFavorite, LastUpdate);
    SortedFilterSatisfies(devices, Not(IsFavorite), LastUpdate);
    assert forall i :: 0 <= i < |b| ==> Not(IsFavorite)(b[i]);
    ConcatFavoritesFirst(a, b);
  }

  /** `SELECT * FROM cached_devices WHERE deviceId = :deviceId`: the row with that key, if any. */
  function Lookup(devices: seq<CachedDevice>, deviceId: string): (r: Option<CachedDevice>)
    ensures r.Some? <==> exists i :: 0 <= i < |devices| && devices[i].deviceId == deviceId
    ensures r.Some? ==> r.value in devices && r.value.deviceId == deviceId
  {
    if devices == [] then None
    else if devices[0].deviceId == deviceId then Some(devices[0])
    else
      var r := Lookup(devices[1..], deviceId);
      assert forall i :: 1 <= i < |devices| ==> devices[i] == devices[1..][i - 1];
      r
  }

  /** Under a primary key, a lookup finds exactly the row stored under that key. */
  lemma {:induction false} LookupFindsRow(devices: seq<CachedDevice>, i: int)
    requires DistinctKeys(devices, DeviceKey)
    requires 0 <= i < |devices|
    ensures Lookup(devices, devices[i].deviceId) == Some(devices[i])
  {
    if i > 0 {
      assert DeviceKey(devices[0]) != DeviceKey(devices[i]);
      LookupFindsRow(devices[1..], i - 1);
    }
  }

  /** Every row of `devices` but the one whose flag `updateFavorite` sets. */
  function WithFavorite(devices: seq<CachedDevice>, deviceId: string, isFavorite: bool): (r: seq<CachedDevice>)
    ensures |r| == |devices|
    ensures forall i :: 0 <= i < |r| ==> r[i].deviceId == devices[i].deviceId
  {
    seq(|devices|, i requires 0 <= i < |devices| =>
      if devices[i].deviceId == deviceId then devices[i].(isFavorite := isFavorite) else devices[i])
  }

  /** `updateFavorite` changes the flag of the named row, keeps its data, and changes no other row. */
  lemma UpdateFavoriteEffect(devices: seq<CachedDevice>, deviceId: string, isFavorite: bool, other: string)
    requires DistinctKeys(devices, DeviceKey)
    ensures Lookup(devices, deviceId).Some? ==>
      Lookup(WithFavorite(devices, deviceId, isFavorite), deviceId)
        == Some(Lookup(devices, deviceId).value.(isFavorite := isFavorite))
    ensures Lookup(devices, deviceId).None? ==> WithFavorite(devices, deviceId, isFavorite) == devices
    ensures other != deviceId ==>
      Lookup(WithFavorite(devices, deviceId, isFavorite), other) == Lookup(devices, other)
  {
    var r := WithFavorite(devices, deviceId, isFavorite);
    assert DistinctKeys(r, DeviceKey) by {
      forall i, j | 0 <= i < j < |r| ensures DeviceKey(r[i]) != DeviceKey(r[j]) {
        assert DeviceKey(devices[i]) != DeviceKey(devices[j]);
      }
    }
    if Lookup(devices, deviceId).Some? {
      var i :| 0 <= i < |devices| && devices[i].deviceId == deviceId;
      LookupFindsRow(devices, i);
      LookupFindsRow(r, i);
    } else {
      assert forall i :: 0 <= i < |devices| ==> r[i] == devices[i];
    }
    if other != deviceId {
      if Lookup(devices, other).Some? {
        var i :| 0 <= i < |devices| && devices[i].deviceId == other;
        LookupFindsRow(devices, i);
        LookupFindsRow(r, i);
      }
    }
  }

  /** `getReadings`: the device's readings, newest first, at most `limit` of them (none when negative). */
  function ReadingsQuery(readings: seq<CachedReading>, deviceId: string, limit: int): seq<CachedReading> {
    var newestFirst := SortDesc(Filter(readings, ReadingOf(deviceId)), Timestamp);
    Take(newestFirst, if limit < 0 then |newestFirst| else limit)
  }

  /**
   * `getReadings` returns readings of the device only, newest first, and `limit` of them,
   * or all when there are fewer or the limit is negative.
   */
  lemma ReadingsQueryShape(readings: seq<CachedReading>, deviceId: string, limit: int)
    ensures var q := ReadingsQuery(readings, deviceId, limit);
      var count := |Filter(readings, ReadingOf(deviceId))|;
      && SortedDesc(q, Timestamp)
      && (forall i :: 0 <= i < |q| ==> q[i].deviceId == deviceId && q[i] in readings)
      && |q| == (if 0 <= limit < count then limit else count)
      && multiset(q) <= multiset(Filter(readings, ReadingOf(deviceId)))
  {
    var mine := Filter(readings, ReadingOf(deviceId));
    var sorted := SortDesc(mine, Timestamp);
    SortDescCorrect(mine, Timestamp);
    SortedFilterSatisfies(readings, ReadingOf(deviceId), Timestamp);
    var q := ReadingsQuery(readings, deviceId, limit);
    assert q <= sorted;
    TakeSubMultiset(sorted, if limit < 0 then |sorted| else limit);
    forall i | 0 <= i < |q| ensures q[i].deviceId == deviceId && q[i] in readings {
      assert q[i] == sorted[i];
      assert ReadingOf(deviceId)(sorted[i]);
    }
  }

  /**
   * `getReadings` keeps the newest: a reading of the device that it leaves out is no
   * newer than any reading it returns.
   */
  lemma ReadingsQueryKeepsNewest(readings: seq<CachedReading>, deviceId: string, limit: int, x: CachedReading, y: CachedReading)
    requires x in readings && x.deviceId == deviceId
    requires x !in ReadingsQuery(readings, deviceId, limit) && y in ReadingsQuery(readings, deviceId, limit)
    ensures x.timestamp <= y.timestamp
  {
    var mine := Filter(readings, ReadingOf(deviceId));
    var n: nat := if limit < 0 then |SortDesc(mine, Timestamp)| else limit;
    assert ReadingsQuery(readings, deviceId, limit) == Take(SortDesc(mine, Timestamp), n);
    FilterIn(readings, ReadingOf(deviceId));
    TopOfSortedKeepsLargest(mine, Timestamp, n, x, y);
  }

  /** `getReadingsInRange`: the device's readings with `startTime <= timestamp <= endTime`, oldest first. */
  function RangeQuery(readings: seq<CachedReading>, deviceId: string, startTime: int, endTime: int): seq<CachedReading> {
    SortDesc(Filter(readings, InRange(deviceId, startTime, endTime)), Earliness)
  }

  /** The range query returns the device's readings inside the closed interval in time order. */
  lemma RangeQueryAscending(readings: seq<CachedReading>, deviceId: string, startTime: int, endTime: int)
    ensures var q := RangeQuery(readings, deviceId, startTime, endTime);
      && multiset(q) == multiset(Filter(readings, InRange(deviceId, startTime, endTime)))
      && (forall i, j :: 0 <= i < j < |q| ==> q[i].timestamp <= q[j].timestamp)
  {
    var q := RangeQuery(readings, deviceId, startTime, endTime);
    SortDescCorrect(Filter(readings, InRange(deviceId, startTime, endTime)), Earliness);
    forall i, j | 0 <= i < j < |q| ensures q[i].timestamp <= q[j].timestamp {
      assert Earliness(q[i]) >= Earliness(q[j]);
    }
  }

  /** A reading is returned by the range query exactly when it is the device's and inside the interval. */
  lemma RangeQueryMembers(readings: seq<CachedReading>, deviceId: string, startTime: int, endTime: int, x: CachedReading)
    ensures x in RangeQuery(readings, deviceId, startTime, endTime) <==>
            x in readings && x.deviceId == deviceId && startTime <= x.timestamp <= endTime
  {
    SortDescMembers(Filter(readings, InRange(deviceId, startTime, endTime)), Earliness);
    FilterIn(readings, InRange(deviceId, startTime, endTime));
  }

  /**
   * Pruning with `deleteOldReadings(cutoff)` never changes a range query that starts at
   * or after the cutoff.
   */
  lemma PruneKeepsRecentRange(readings: seq<CachedReading>, cutoff: int, deviceId: string, startTime: int, endTime: int)
    requires cutoff <= startTime
    ensures RangeQuery(Filter(readings, NotOlderThan(cutoff)), deviceId, startTime, endTime)
         == RangeQuery(readings, deviceId, startTime, endTime)
  {
    FilterNarrow(readings, NotOlderThan(cutoff), InRange(deviceId, startTime, endTime));
  }

  /**
   * `deleteOldReadings(cutoff)` keeps every copy of a reading stamped at or after the
   * cutoff and none of one stamped before it, whichever device it belongs to and even
   * when it is that device's newest.
   */
  lemma {:induction false} PruneExact(readings: seq<CachedReading>, cutoff: int, x: CachedReading)
    ensures multiset(Filter(readings, NotOlderThan(cutoff)))[x] == if x.timestamp >= cutoff then multiset(readings)[x] else 0
    ensures x in Filter(readings, NotOlderThan(cutoff)) <==> x in readings && x.timestamp >= cutoff
  {
    FilterCount(readings, NotOlderThan(cutoff), x);
    assert x in readings <==> x in multiset(readings);
    assert x in Filter(readings, NotOlderThan(cutoff)) <==> x in multiset(Filter(readings, NotOlderThan(cutoff)));
  }

  /** `deleteReadingsForDevice` removes every reading of that device and keeps every copy of the others. */
  lemma {:induction false} DeviceReadingsRemovedExact(readings: seq<CachedReading>, deviceId: string, x: CachedReading)
    ensures multiset(Filter(readings, Not(ReadingOf(deviceId))))[x] == if x.deviceId != deviceId then multiset(readings)[x] else 0
  {
    FilterCount(readings, Not(ReadingOf(deviceId)), x);
  }

  /** The id the database assigns a reading: the next value of the sequence when unset. */
  function AssignedId(r: CachedReading, lastId: int): int {
    if r.id == 0 then lastId + 1 else r.id
  }

  function Max(a: int, b: int): int { if a >= b then a else b }

  /** Every reading id is at most `bound`. */
  predicate IdsAtMost(readings: seq<CachedReading>, bound: int) {
    forall i :: 0 <= i < |readings| ==> readings[i].id <= bound
  }

  /** The reading table after inserting `r` with REPLACE. */
  function ReadingsAfterInsert(readings: seq<CachedReading>, lastId: int, r: CachedReading): seq<CachedReading> {
    Filter(readings, OtherReading(AssignedId(r, lastId))) + [r.(id := AssignedId(r, lastId))]
  }

  /**
   * Inserting keeps the primary key and the bound of the sequence, and an unset id never
   * replaces anything: the next value of the sequence is held by no row.
   */
  lemma {:induction false} InsertReadingKeepsKeys(readings: seq<CachedReading>, lastId: int, r: CachedReading)
    requires DistinctKeys(readings, ReadingKey) && IdsAtMost(readings, lastId)
    ensures DistinctKeys(ReadingsAfterInsert(readings, lastId, r), ReadingKey)
    ensures IdsAtMost(ReadingsAfterInsert(readings, lastId, r), Max(lastId, AssignedId(r, lastId)))
    ensures r.id == 0 ==> ReadingsAfterInsert(readings, lastId, r) == readings + [r.(id := lastId + 1)]
  {
    var id := AssignedId(r, lastId);
    var kept := Filter(readings, OtherReading(id));
    FilterKeepsDistinct(readings, OtherReading(id), ReadingKey);
    FilterIn(readings, OtherReading(id));
    forall i | 0 <= i < |kept| ensures kept[i].id != id && kept[i].id <= lastId {
      assert kept[i] in kept;
      var k :| 0 <= k < |readings| && readings[k] == kept[i];
    }
    if r.id == 0 {
      FilterAllKept(readings, OtherReading(id));
    }
  }

  /** The two tables and the sequence that remembers the largest reading id ever used. */
  class DeviceCache {
    var devices: seq<CachedDevice>
    var readings: seq<CachedReading>
    var lastId: int

    /** Both primary keys hold, and no reading id exceeds the remembered largest. */
    ghost predicate Valid()
      reads this
    {
      && DistinctKeys(devices, DeviceKey)
      && DistinctKeys(readings, ReadingKey)
      && IdsAtMost(readings, lastId)
    }

    constructor()
      ensures Valid() && devices == [] && readings == [] && lastId == 0
    {
      devices := [];
      readings := [];
      lastId := 0;
    }

    /** `getAllDevices`. */
    method GetAllDevices() returns (r: seq<CachedDevice>)
      ensures r == DeviceList(devices)
    {
      r := DeviceList(devices);
    }

    /** `getDevice`. */
    method GetDevice(deviceId: string) returns (r: Option<CachedDevice>)
      ensures r == Lookup(devices, deviceId)
    {
      r := Lookup(devices, deviceId);
    }

    /** `insertDevice` with REPLACE: a row with the same key is deleted, then the new row inserted. */
    method InsertDevice(d: CachedDevice)
      requires Valid()
      modifies this
      ensures Valid()
      ensures devices == Filter(old(devices), OtherDevice(d.deviceId)) + [d]
      ensures readings == old(readings) && lastId == old(lastId)
      ensures Lookup(devices, d.deviceId) == Some(d)
    {
      var kept := Filter(devices, OtherDevice(d.deviceId));
      FilterKeepsDistinct(devices, OtherDevice(d.deviceId), DeviceKey);
      FilterMembers(devices, OtherDevice(d.deviceId));
      assert forall i :: 0 <= i < |kept| ==> OtherDevice(d.deviceId)(kept[i]);
      devices := kept + [d];
      LookupFindsRow(devices, |devices| - 1);
    }

    /** `deleteDevice`; the device's readings stay. */
    method DeleteDevice(deviceId: string)
      requires Valid()
      modifies this
      ensures Valid()
      ensures devices == Filter(old(devices), OtherDevice(deviceId))
      ensures readings == old(readings) && lastId == old(lastId)
      ensures Lookup(devices, deviceId) == None
    {
      FilterKeepsDistinct(devices, OtherDevice(deviceId), DeviceKey);
      FilterMembers(devices, OtherDevice(deviceId));
      devices := Filter(devices, OtherDevice(deviceId));
      assert forall i :: 0 <= i < |devices| ==> OtherDevice(deviceId)(devices[i]);
    }

    /** `updateFavorite`: sets the flag of the named row; no row is added when there is none. */
    method UpdateFavorite(deviceId: string, isFavorite: bool)
      requires Valid()
      modifies this
      ensures Valid()
      ensures devices == WithFavorite(old(devices), deviceId, isFavorite)
      ensures readings == old(readings) && lastId == old(lastId)
    {
      var updated := WithFavorite(devices, deviceId, isFavorite);
      assert DistinctKeys(updated, DeviceKey) by {
        forall i, j | 0 <= i < j < |updated| ensures DeviceKey(updated[i]) != DeviceKey(updated[j]) {
          assert DeviceKey(devices[i]) != DeviceKey(devices[j]);
        }
      }
      devices := updated;
    }

    /** `getReadings`. */
    method GetReadings(deviceId: string, limit: int) returns (r: seq<CachedReading>)
      ensures r == ReadingsQuery(readings, deviceId, limit)
    {
      r := ReadingsQuery(readings, deviceId, limit);
    }

    /** `getReadingsInRange`. */
    method GetReadingsInRange(deviceId: string, startTime: int, endTime: int) returns (r: seq<CachedReading>)
      ensures r == RangeQuery(readings, deviceId, startTime, endTime)
    {
      r := RangeQuery(readings, deviceId, startTime, endTime);
    }

    /**
     * `insertReading` with REPLACE on the generated key: an unset id takes the next value
     * of the sequence, which no stored row has, so the reading is simply appended; an
     * explicit id replaces the row holding it and advances the sequence past it.
     */
    method InsertReading(r: CachedReading)
      requires Valid()
      modifies this
      ensures Valid()
      ensures readings == ReadingsAfterInsert(old(readings), old(lastId), r)
      ensures r.id == 0 ==> readings == old(readings) + [r.(id := old(lastId) + 1)]
      ensures lastId == Max(old(lastId), AssignedId(r, old(lastId)))
      ensures devices == old(devices)
    {
      InsertReadingKeepsKeys(readings, lastId, r);
      readings := ReadingsAfterInsert(readings, lastId, r);
      lastId := Max(lastId, AssignedId(r, lastId));
    }

    /** `deleteReadingsForDevice`. */
    method DeleteReadingsForDevice(deviceId: string)
      requires Valid()
      modifies this
      ensures Valid()
      ensures readings == Filter(old(readings), Not(ReadingOf(deviceId)))
      ensures devices == old(devices) && lastId == old(lastId)
    {
      FilterKeepsDistinct(readings, Not(ReadingOf(deviceId)), ReadingKey);
      FilterMembers(readings, Not(ReadingOf(deviceId)));
      readings := Filter(readings, Not(ReadingOf(deviceId)));
    }

    /** `deleteOldReadings`: drops every reading strictly older than the cutoff. */
    method DeleteOldReadings(cutoff: int)
      requires Valid()
      modifies this
      ensures Valid()
      ensures readings == Filter(old(readings), NotOlderThan(cutoff))
      ensures devices == old(devices) && lastId == old(lastId)
    {
      FilterKeepsDistinct(readings, NotOlderThan(cutoff), ReadingKey);
      FilterMembers(readings, NotOlderThan(cutoff));
      readings := Filter(readings, NotOlderThan(cutoff));
    }
  }
}
