/**
 * The repository of the Android client (DeviceRepository.kt): one object holding the
 * remote tree it reads and writes and the local cache it fills. Each suspending call
 * runs to completion here; its writes are applied in the order the source awaits them.
 */
module Repository {
  import opened Wrappers
  import opened Seqs
  import opened DeviceModel
  import opened RemoteTree
  import opened Translate
  import opened Pairing
  import opened LocalCache

  /** The cache row `cacheDeviceData` writes for a delivered record; the favourite flag takes its default. */
  function Summary(data: DeviceData): CachedDevice {
    CachedDevice(data.deviceId, data.deviceInfo.deviceName, data.status.temperature,
                 data.status.humidity, data.status.dryingActive, data.status.lastUpdate, false)
  }

  /** The reading `cacheDeviceData` writes, stamped with the local clock and an unset id. */
  function Snapshot(data: DeviceData, now: int): CachedReading {
    CachedReading(0, data.deviceId, data.status.temperature, data.status.humidity,
                  data.status.setpointTemp, data.status.setpointHumidity,
                  data.status.heaterOn, data.status.fanOn, data.status.dryingActive, now)
  }

  /**
   * Re-caching a device replaces its row with a fresh summary, so a device the user had
   * marked as favourite is no longer one after the next delivery.
   */
  lemma ResyncClearsFavorite(devices: seq<CachedDevice>, data: DeviceData)
    requires DistinctKeys(devices, DeviceKey)
    requires Lookup(devices, data.deviceId).Some? && Lookup(devices, data.deviceId).value.isFavorite
    ensures var after := Filter(devices, OtherDevice(data.deviceId)) + [Summary(data)];
      Lookup(after, data.deviceId).Some? && !Lookup(after, data.deviceId).value.isFavorite
  {
    var after := Filter(devices, OtherDevice(data.deviceId)) + [Summary(data)];
    FilterIn(devices, OtherDevice(data.deviceId));
    assert forall i :: 0 <= i < |after| - 1 ==> after[i] in Filter(devices, OtherDevice(data.deviceId));
    assert DistinctKeys(after, DeviceKey) by {
      FilterKeepsDistinct(devices, OtherDevice(data.deviceId), DeviceKey);
    }
    LookupFindsRow(after, |after| - 1);
  }

  /** `getDeviceHistory`: the store hands over the last `limit` children by key, which are then parsed and ranked. */
  function HistoryDelivery(node: DeviceNode, limit: nat): (r: seq<SensorReading>)
    requires limit > 0
    ensures |r| <= limit
    ensures SortedDesc(r, Stamp)
    ensures |node.history| <= limit ==> r == ParseHistory(node.history, limit)
    ensures |node.history| > limit ==>
      multiset(r) == multiset(ParsedEntries(node.history[|node.history| - limit..]))
  {
    var h := node.history;
    var window := if |h| <= limit then h else h[|h| - limit..];
    ParseHistory(window, limit)
  }

  /** Every child of `index` is listed once in `children`, which carries the store's child order. */
  predicate ListsIndex(children: seq<(string, IndexEntry)>, index: map<string, IndexEntry>) {
    && (forall i :: 0 <= i < |children| ==> children[i].0 in index && index[children[i].0] == children[i].1)
    && (forall k :: k in index ==> exists i :: 0 <= i < |children| && children[i].0 == k)
  }

  /** `getUserDevices` lists a device exactly when the user's index holds its id as a string. */
  lemma ListedIffIndexed(children: seq<(string, IndexEntry)>, index: map<string, IndexEntry>, deviceId: string)
    requires ListsIndex(children, index)
    ensures deviceId in UserDeviceIds(children) <==> IndexHolds(index, deviceId)
  {
    if deviceId in UserDeviceIds(children) {
      var i :| 0 <= i < |UserDeviceIds(children)| && UserDeviceIds(children)[i] == deviceId;
      var j :| 0 <= j < |children| && children[j].1 == Leaf(Str(deviceId));
      assert index[children[j].0] == Leaf(Str(deviceId));
    }
    if IndexHolds(index, deviceId) {
      var k :| k in index && index[k] == Leaf(Str(deviceId));
      var i :| 0 <= i < |children| && children[i].0 == k;
    }
  }

  /** Applying one more write of a sequence extends the applied prefix by one. */
  lemma AppliedPrefix(t: Tree, ws: seq<Write>, k: nat)
    requires k < |ws|
    ensures ApplyAll(t, ws[..k + 1]) == Apply(ApplyAll(t, ws[..k]), ws[k])
  {
    assert ws[..k + 1] == ws[..k] + [ws[k]];
    ApplyAllAppend(t, ws[..k], ws[k]);
  }

  /** The user's index once the children outside `pending` have been visited and those holding the device id removed. */
  function PartlyPruned(index: map<string, IndexEntry>, pending: set<string>, deviceId: string): map<string, IndexEntry> {
    map k | k in index && (k in pending || index[k] != Leaf(Str(deviceId))) :: index[k]
  }

  class DeviceRepository {
    var remote: Tree
    var cache: DeviceCache

    ghost predicate Valid()
      reads this, cache
    {
      cache.Valid()
    }

    constructor(remote0: Tree, database: DeviceCache)
      requires database.Valid()
      ensures Valid() && remote == remote0 && cache == database
    {
      remote := remote0;
      cache := database;
    }

    /**
     * `cacheDeviceData`: the summary row first (replacing the device's row), then a
     * reading of the current status with a newly generated id.
     */
    method CacheDeviceData(data: DeviceData, now: int)
      requires Valid()
      modifies cache
      ensures Valid()
      ensures cache.devices == Filter(old(cache.devices), OtherDevice(data.deviceId)) + [Summary(data)]
      ensures cache.readings == old(cache.readings) + [Snapshot(data, now).(id := old(cache.lastId) + 1)]
      ensures cache.lastId == old(cache.lastId) + 1
      ensures Lookup(cache.devices, data.deviceId) == Some(Summary(data))
    {
      cache.InsertDevice(Summary(data));
      cache.InsertReading(Snapshot(data, now));
    }

    /**
     * One delivery of `getDeviceData`: the translated record, or `None` when the snapshot
     * cannot be converted; a translated record is also cached.
     */
    method OnDeviceSnapshot(deviceId: string, now: int) returns (emitted: Option<DeviceData>)
      requires Valid()
      modifies cache
      ensures Valid()
      ensures emitted == TranslateDevice(deviceId, Device(remote, deviceId))
      ensures emitted.None? ==> unchanged(cache)
      ensures emitted.Some? ==>
        && cache.devices == Filter(old(cache.devices), OtherDevice(deviceId)) + [Summary(emitted.value)]
        && cache.readings == old(cache.readings) + [Snapshot(emitted.value, now).(id := old(cache.lastId) + 1)]
    {
      emitted := TranslateDevice(deviceId, Device(remote, deviceId));
      if emitted.Some? {
        CacheDeviceData(emitted.value, now);
      }
    }

    /** `getCachedDevices`. */
    method GetCachedDevices() returns (r: seq<CachedDevice>)
      ensures r == DeviceList(cache.devices)
    {
      r := cache.GetAllDevices();
    }

    /** `getCachedReadings`. */
    method GetCachedReadings(deviceId: string, limit: int) returns (r: seq<CachedReading>)
      ensures r == ReadingsQuery(cache.readings, deviceId, limit)
    {
      r := cache.GetReadings(deviceId, limit);
    }

    /** `sendCommand`: the whole `commands` node is replaced by the new command. */
    method SendCommand(deviceId: string, command: string, value: real, now: int)
      modifies this
      ensures remote == Apply(old(remote), SetCommands(deviceId, CommandRecord(command, value, now)))
      ensures cache == old(cache)
      ensures Device(remote, deviceId).commands == CommandRecord(command, value, now)
    {
      remote := Apply(remote, SetCommands(deviceId, CommandRecord(command, value, now)));
    }

    /** `updateDeviceName`. */
    method UpdateDeviceName(deviceId: string, name: string)
      modifies this
      ensures remote == Apply(old(remote), SetInfoField(deviceId, "deviceName", Str(name)))
      ensures cache == old(cache)
      ensures AsString(Device(remote, deviceId).deviceInfo, "deviceName") == Some(name)
    {
      remote := Apply(remote, SetInfoField(deviceId, "deviceName", Str(name)));
    }

    /** The writes of a pairing whose checks have passed, in the order the source awaits them. */
    method CommitPairing(userId: string, deviceId: string, code: string, now: int)
      modifies this
      ensures remote == ApplyAll(old(remote), PairWrites(old(remote), userId, deviceId, code, now))
      ensures cache == old(cache)
    {
      var t0 := remote;
      var claim := ClaimWrites(userId, deviceId, code, now);
      assert claim[..0] == [];
      remote := Apply(remote, claim[0]);
      AppliedPrefix(t0, claim, 0);
      remote := Apply(remote, claim[1]);
      AppliedPrefix(t0, claim, 1);
      remote := Apply(remote, claim[2]);
      AppliedPrefix(t0, claim, 2);
      remote := Apply(remote, claim[3]);
      AppliedPrefix(t0, claim, 3);
      assert claim[..4] == claim;
      ClaimKeepsUsers(t0, userId, deviceId, code, now, 4);
      var currentDevices := UserIndex(remote, userId);
      if !IndexHolds(currentDevices, deviceId) {
        var append := SetIndexEntry(userId, AppendKey(currentDevices), Leaf(Str(deviceId)));
        ApplyAllAppend(t0, claim, append);
        remote := Apply(remote, append);
      }
    }

    /**
     * `pairDevice`: the checks against the state as read, then, only if all pass, the
     * claim writes one by one and the index append when the device is not listed yet.
     */
    method PairDevice(userId: string, deviceId: string, code: string, now: int) returns (r: Result<DeviceInfo, string>)
      modifies this
      ensures r == PairCheck(old(remote), deviceId, code, now)
      ensures r.Failure? ==> remote == old(remote)
      ensures r.Success? ==> remote == ApplyAll(old(remote), PairWrites(old(remote), userId, deviceId, code, now))
      ensures cache == old(cache)
    {
      var pairing := PairingRecord(remote, code);
      if pairing == map[] {
        return Failure(InvalidCode);
      }
      var pairingDeviceId := AsString(pairing, "deviceId");
      var used := AsBool(pairing, "used").GetOr(false);
      if pairingDeviceId != Some(deviceId) {
        return Failure(CodeMismatch);
      }
      if used {
        return Failure(CodeUsed);
      }
      var expiresAt := AsLong(pairing, "expiresAt").GetOr(0);
      if expiresAt > 0 && now > expiresAt {
        return Failure(CodeExpired);
      }
      var infoRec := Device(remote, deviceId).deviceInfo;
      if infoRec == map[] {
        return Failure(DeviceNotFound);
      }
      var decoded := DecodeInfo(infoRec);
      if decoded.Failure? {
        return Failure(decoded.error);
      }
      var info := decoded.value;
      if !IsUnowned(info) {
        return Failure(AlreadyPaired);
      }
      CommitPairing(userId, deviceId, code, now);
      r := Success(info);
    }

    /**
     * `unpairDevice`: the owner field is removed, then the user's index is read once and
     * every child holding the device id is removed, one child at a time in an order the
     * model leaves open.
     */
    method UnpairDevice(userId: string, deviceId: string)
      modifies this
      ensures remote == Unpaired(old(remote), userId, deviceId)
      ensures cache == old(cache)
    {
      remote := Apply(remote, RemoveInfoField(deviceId, "pairedTo"));
      var released := remote;
      var snapshot := UserIndex(remote, userId);
      var pending := snapshot.Keys;
      assert PartlyPruned(snapshot, pending, deviceId) == snapshot;
      while pending != {}
        invariant pending <= snapshot.Keys
        invariant cache == old(cache)
        invariant remote.devices == released.devices && remote.devicePairing == released.devicePairing
        invariant userId in released.users ==>
          remote.users == released.users[userId := PartlyPruned(snapshot, pending, deviceId)]
        invariant userId !in released.users ==> remote == released
        decreases pending
      {
        var k :| k in pending;
        if snapshot[k] == Leaf(Str(deviceId)) {
          remote := Apply(remote, RemoveIndexEntry(userId, k));
          assert PartlyPruned(snapshot, pending, deviceId) - {k} == PartlyPruned(snapshot, pending - {k}, deviceId);
        } else {
          assert PartlyPruned(snapshot, pending, deviceId) == PartlyPruned(snapshot, pending - {k}, deviceId);
        }
        pending := pending - {k};
      }
      assert PartlyPruned(snapshot, {}, deviceId) == IndexWithout(snapshot, deviceId);
    }
  }
}
