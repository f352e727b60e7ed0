/**
 * The repository of the legacy Java client (DeviceRepository.java): its own pairing rule
 * with callbacks, the listing of a user's devices, the command write, and the registry
 * of live-data listeners kept in a hash map. A conversion that throws inside a store
 * callback is not caught by the client; the model reports it as a crash.
 */
module LegacyRepository {
  import opened Wrappers
  import opened RemoteTree
  import opened Translate
  import opened Pairing

  const InvalidDeviceId: string := "Invalid device ID"
  /** The exception thrown when a missing `Long` is unboxed into a `long` field. */
  const NullUnboxing: string := "NullPointerException"

  /** `getValue(Boolean.class)`: null when absent, a conversion failure on another type. */
  function OptBool(rec: Record, name: string): Result<Option<bool>, string> {
    if name !in rec then Success(None)
    else
      var b :- ReadBool(rec, name, false);
      Success(Some(b))
  }

  /** `getValue(Long.class)`. */
  function OptLong(rec: Record, name: string): Result<Option<int>, string> {
    if name !in rec then Success(None)
    else
      var n :- ReadLong(rec, name, 0);
      Success(Some(n))
  }

  /** `getValue(String.class)`. */
  function OptString(rec: Record, name: string): Result<Option<string>, string> {
    if name !in rec then Success(None)
    else
      var s :- ReadString(rec, name, "");
      Success(Some(s))
  }

  /** How a pairing attempt ends: one callback, or neither when the listener throws. */
  datatype PairingOutcome = OnSuccess(deviceId: string) | OnError(message: string) | Crash(reason: string)

  /** The writes of a successful legacy pairing, in the order they are issued. */
  function LegacyPairWrites(userId: string, code: string, deviceId: string, deviceName: string, now: int): seq<Write> {
    [ SetCodeField(code, "used", Bool(true)),
      SetIndexEntry(userId, deviceId, Node(map["deviceName" := Str(deviceName), "pairedAt" := Long(now),
                                              "notifications" := Bool(true)])),
      SetInfoField(deviceId, "pairedTo", Str(userId)),
      SetInfoField(deviceId, "deviceName", Str(deviceName)) ]
  }

  /** The code record passes the `used` and the expiry checks without throwing. */
  predicate LegacyCodeLive(rec: Record, now: int) {
    && OptBool(rec, "used").Success? && OptBool(rec, "used").value != Some(true)
    && OptLong(rec, "expiresAt").Success?
    && !(OptLong(rec, "expiresAt").value.Some? && now > OptLong(rec, "expiresAt").value.value)
  }

  /**
   * `pairDevice` of the legacy client: a failed read reports its message; otherwise the
   * code must exist, must not be marked used, must not be past a present expiry, and
   * must name a device. The device itself is never consulted. A child of the wrong type
   * throws inside the listener, so that neither callback runs.
   */
  function LegacyPair(t: Tree, readError: Option<string>, userId: string, code: string,
                      deviceName: string, now: int): (r: (PairingOutcome, seq<Write>))
    ensures readError.Some? ==> r == (OnError(readError.value), [])
    ensures (readError.None? && PairingRecord(t, code) == map[]) ==> r == (OnError(InvalidCode), [])
    ensures (readError.None? && PairingRecord(t, code) != map[] && OptBool(PairingRecord(t, code), "used").Failure?)
            ==> r == (Crash(OptBool(PairingRecord(t, code), "used").error), [])
    ensures (readError.None? && PairingRecord(t, code) != map[]
             && OptBool(PairingRecord(t, code), "used") == Success(Some(true))) ==> r == (OnError(CodeUsed), [])
    ensures (readError.None? && PairingRecord(t, code) != map[]
             && OptBool(PairingRecord(t, code), "used").Success? && OptBool(PairingRecord(t, code), "used").value != Some(true)
             && OptLong(PairingRecord(t, code), "expiresAt").Failure?)
            ==> r == (Crash(OptLong(PairingRecord(t, code), "expiresAt").error), [])
    ensures (readError.None? && PairingRecord(t, code) != map[]
             && OptBool(PairingRecord(t, code), "used").Success? && OptBool(PairingRecord(t, code), "used").value != Some(true)
             && OptLong(PairingRecord(t, code), "expiresAt").Success?
             && OptLong(PairingRecord(t, code), "expiresAt").value.Some?
             && now > OptLong(PairingRecord(t, code), "expiresAt").value.value) ==> r == (OnError(CodeExpired), [])
    ensures (readError.None? && PairingRecord(t, code) != map[] && LegacyCodeLive(PairingRecord(t, code), now)
             && OptString(PairingRecord(t, code), "deviceId").Failure?)
            ==> r == (Crash(OptString(PairingRecord(t, code), "deviceId").error), [])
    ensures (readError.None? && PairingRecord(t, code) != map[] && LegacyCodeLive(PairingRecord(t, code), now)
             && OptString(PairingRecord(t, code), "deviceId") == Success(None)) ==> r == (OnError(InvalidDeviceId), [])
    ensures (readError.None? && PairingRecord(t, code) != map[] && LegacyCodeLive(PairingRecord(t, code), now)
             && OptString(PairingRecord(t, code), "deviceId").Success?
             && OptString(PairingRecord(t, code), "deviceId").value.Some?)
            ==> var deviceId := OptString(PairingRecord(t, code), "deviceId").value.value;
                r == (OnSuccess(deviceId), LegacyPairWrites(userId, code, deviceId, deviceName, now))
  {
    if readError.Some? then (OnError(readError.value), [])
    else
      var rec := PairingRecord(t, code);
      if rec == map[] then (OnError(InvalidCode), [])
      else match OptBool(rec, "used")
        case Failure(e) => (Crash(e), [])
        case Success(used) =>
          if used == Some(true) then (OnError(CodeUsed), [])
          else match OptLong(rec, "expiresAt")
            case Failure(e) => (Crash(e), [])
            case Success(expiresAt) =>
              if expiresAt.Some? && now > expiresAt.value then (OnError(CodeExpired), [])
              else match OptString(rec, "deviceId")
                case Failure(e) => (Crash(e), [])
                case Success(None) => (OnError(InvalidDeviceId), [])
                case Success(Some(deviceId)) =>
                  (OnSuccess(deviceId), LegacyPairWrites(userId, code, deviceId, deviceName, now))
  }

  /** Four writes applied in turn. */
  lemma ApplyFour(t: Tree, ws: seq<Write>)
    requires |ws| == 4
    ensures ApplyAll(t, ws) == Apply(Apply(Apply(Apply(t, ws[0]), ws[1]), ws[2]), ws[3])
  {
    var t1 := Apply(t, ws[0]);
    var t2 := Apply(t1, ws[1]);
    var t3 := Apply(t2, ws[2]);
    assert ws[1..][1..][1..][1..] == [];
    assert ApplyAll(t3, ws[1..][1..][1..]) == Apply(t3, ws[3]);
    assert ApplyAll(t2, ws[1..][1..]) == ApplyAll(t3, ws[1..][1..][1..]);
    assert ApplyAll(t1, ws[1..]) == ApplyAll(t2, ws[1..][1..]);
  }

  /** Writes happen exactly when `onSuccess` is called; an error or a crash writes nothing. */
  lemma WritesOnlyOnSuccess(t: Tree, readError: Option<string>, userId: string, code: string, deviceName: string, now: int)
    ensures var (outcome, writes) := LegacyPair(t, readError, userId, code, deviceName, now);
      (writes != [] <==> outcome.OnSuccess?) &&
      (outcome.OnSuccess? ==> writes == LegacyPairWrites(userId, code, outcome.deviceId, deviceName, now))
  {
  }

  /**
   * The legacy checks read on records of the expected types: `used` false or absent
   * passes, a present expiry in the past fails, and otherwise a string `deviceId` is
   * paired. A `used` child that is not a boolean throws, and neither callback runs.
   */
  lemma LegacyCheckOrder(t: Tree, userId: string, code: string, deviceName: string, now: int)
    ensures var rec := PairingRecord(t, code);
      var outcome := LegacyPair(t, None, userId, code, deviceName, now).0;
      var unused := "used" !in rec || rec["used"] == Bool(false);
      && ("used" in rec && (rec["used"].Str? || rec["used"].Long? || rec["used"].Double?) ==> outcome.Crash?)
      && (unused && "expiresAt" in rec && rec["expiresAt"].Long? && now > rec["expiresAt"].n ==>
            outcome == OnError(CodeExpired))
      && ((unused && ("expiresAt" !in rec || (rec["expiresAt"].Long? && now <= rec["expiresAt"].n))
           && "deviceId" in rec && rec["deviceId"].Str?) ==> outcome == OnSuccess(rec["deviceId"].s))
      && ((unused && ("expiresAt" !in rec || (rec["expiresAt"].Long? && now <= rec["expiresAt"].n))
           && rec != map[] && "deviceId" !in rec) ==> outcome == OnError(InvalidDeviceId))
  {
    var rec := PairingRecord(t, code);
    if "used" in rec && (rec["used"].Str? || rec["used"].Long? || rec["used"].Double?) {
      assert OptBool(rec, "used").Failure?;
    }
  }

  /**
   * The two clients disagree on an expiry of 0: the current client treats it as "never
   * expires" and lets the code through, the legacy client refuses it as expired.
   */
  lemma ZeroExpiryDisagreement(t: Tree, deviceId: string, code: string, userId: string, deviceName: string, now: int)
    requires PairingRecord(t, code) == map["deviceId" := Str(deviceId), "expiresAt" := Long(0)]
    requires now > 0
    ensures !CodeHasExpired(t, code, now)
    ensures LegacyPair(t, None, userId, code, deviceName, now).0 == OnError(CodeExpired)
  {
    var rec := PairingRecord(t, code);
    assert "expiresAt" in rec && "used" !in rec;
  }

  /**
   * The legacy rule never looks at the device: a device already owned by another user
   * is paired all the same, and its owner is overwritten.
   */
  lemma LegacyTakesOwnedDevice(t: Tree, userId: string, code: string, deviceName: string, now: int)
    requires LegacyPair(t, None, userId, code, deviceName, now).0.OnSuccess?
    ensures var deviceId := LegacyPair(t, None, userId, code, deviceName, now).0.deviceId;
      var after := ApplyAll(t, LegacyPair(t, None, userId, code, deviceName, now).1);
      && AsString(Device(after, deviceId).deviceInfo, "pairedTo") == Some(userId)
      && AsString(Device(after, deviceId).deviceInfo, "deviceName") == Some(deviceName)
      && (forall devices :: LegacyPair(t.(devices := devices), None, userId, code, deviceName, now)
                            == LegacyPair(t, None, userId, code, deviceName, now))
  {
    var deviceId := LegacyPair(t, None, userId, code, deviceName, now).0.deviceId;
    var ws := LegacyPairWrites(userId, code, deviceId, deviceName, now);
    ApplyFour(t, ws);
  }

  /**
   * The legacy index entry is a record keyed by the device id, which the current
   * client's device list skips: a legacy pairing never adds a device to that list.
   */
  lemma LegacyPairingInvisibleToCurrentClient(t: Tree, userId: string, code: string, deviceName: string, now: int, id: string)
    requires IndexHolds(UserIndex(ApplyAll(t, LegacyPair(t, None, userId, code, deviceName, now).1), userId), id)
    ensures IndexHolds(UserIndex(t, userId), id)
  {
    var (outcome, ws) := LegacyPair(t, None, userId, code, deviceName, now);
    if outcome.OnSuccess? {
      var deviceId := outcome.deviceId;
      var after := ApplyAll(t, ws);
      var t1 := Apply(t, ws[0]);
      var t2 := Apply(t1, ws[1]);
      ApplyFour(t, ws);
      var index := UserIndex(after, userId);
      assert index == UserIndex(t, userId)[deviceId := ws[1].entry];
      var k :| k in index && index[k] == Leaf(Str(id));
      assert k != deviceId;
      assert UserIndex(t, userId)[k] == Leaf(Str(id));
    } else {
      assert ws == [];
    }
  }

  /** A consumed code is refused on the next attempt by the legacy client too. */
  lemma LegacyCodeIsSingleUse(t: Tree, userId: string, code: string, deviceName: string, now: int,
                              otherUser: string, otherName: string, later: int)
    requires LegacyPair(t, None, userId, code, deviceName, now).0.OnSuccess?
    ensures LegacyPair(ApplyAll(t, LegacyPair(t, None, userId, code, deviceName, now).1), None,
                       otherUser, code, otherName, later).0 == OnError(CodeUsed)
  {
    var deviceId := LegacyPair(t, None, userId, code, deviceName, now).0.deviceId;
    var ws := LegacyPairWrites(userId, code, deviceId, deviceName, now);
    var t1 := Apply(t, ws[0]);
    ApplyFour(t, ws);
    assert PairingRecord(ApplyAll(t, ws), code) == PairingRecord(t1, code);
  }

  /** A device as the legacy list shows it. */
  datatype LegacyDevice = LegacyDevice(deviceId: string, deviceName: string, pairedAt: int)

  /**
   * One child of `users/{uid}/devices` in `loadUserDevices`: kept when it has a string
   * `deviceName`, whose `pairedAt` is then unboxed into a `long`.
   */
  function LegacyEntry(key: string, entry: IndexEntry): (r: Result<Option<LegacyDevice>, string>)
    ensures entry.Leaf? ==> r == Success(None)
    ensures entry.Node? && "deviceName" !in entry.fields ==> r == Success(None)
    ensures entry.Node? && "deviceName" in entry.fields && !entry.fields["deviceName"].Str? ==> r.Failure?
    ensures (entry.Node? && "deviceName" in entry.fields && entry.fields["deviceName"].Str?
             && "pairedAt" !in entry.fields) ==> r == Failure(NullUnboxing)
    ensures (entry.Node? && "deviceName" in entry.fields && entry.fields["deviceName"].Str?
             && "pairedAt" in entry.fields && entry.fields["pairedAt"].Long?)
            ==> r == Success(Some(LegacyDevice(key, entry.fields["deviceName"].s, entry.fields["pairedAt"].n)))
    ensures r.Success? && r.value.Some? ==> r.value.value.deviceId == key
  {
    match entry
    case Leaf(_) => Success(None)
    case Node(fields) =>
      var name :- OptString(fields, "deviceName");
      if name.None? then Success(None)
      else
        var pairedAt :- OptLong(fields, "pairedAt");
        if pairedAt.None? then Failure(NullUnboxing)
        else Success(Some(LegacyDevice(key, name.value, pairedAt.value)))
  }

  /** `d` is shown for some record child whose key is its id and whose `deviceName` is its name. */
  predicate ComesFrom(children: seq<(string, IndexEntry)>, d: LegacyDevice)
  {
    exists j :: 0 <= j < |children| && children[j].0 == d.deviceId && children[j].1.Node? &&
      AsString(children[j].1.fields, "deviceName") == Some(d.deviceName)
  }

  lemma ComesFromTail(children: seq<(string, IndexEntry)>, d: LegacyDevice)
    requires |children| > 0 && ComesFrom(children[1..], d)
    ensures ComesFrom(children, d)
  {
    var j :| 0 <= j < |children[1..]| && children[1..][j].0 == d.deviceId && children[1..][j].1.Node? &&
      AsString(children[1..][j].1.fields, "deviceName") == Some(d.deviceName);
    assert children[j + 1] == children[1..][j];
  }

  /** `loadUserDevices`: the kept children in child order, or the exception the first bad child throws. */
  function LoadUserDevices(children: seq<(string, IndexEntry)>): (r: Result<seq<LegacyDevice>, string>)
    ensures r.Success? ==> |r.value| <= |children|
    ensures r.Success? ==> forall i :: 0 <= i < |r.value| ==> ComesFrom(children, r.value[i])
  {
    if children == [] then Success([])
    else
      var head :- LegacyEntry(children[0].0, children[0].1);
      var rest :- LoadUserDevices(children[1..]);
      var out := (if head.Some? then [head.value] else []) + rest;
      assert forall i :: 0 <= i < |out| ==> ComesFrom(children, out[i]) by {
        forall i | 0 <= i < |out|
          ensures ComesFrom(children, out[i])
        {
          if head.Some? && i == 0 {
            assert children[0].0 == out[0].deviceId;
          } else {
            var k := if head.Some? then i - 1 else i;
            assert out[i] == rest[k];
            ComesFromTail(children, rest[k]);
          }
        }
      }
      Success(out)
  }

  /** The list of one child: its device when it is kept, or the exception its conversion throws. */
  lemma LoadOneChild(key: string, entry: IndexEntry)
    ensures LoadUserDevices([(key, entry)])
         == (var e :- LegacyEntry(key, entry); Success(if e.Some? then [e.value] else []))
  {
    var c := [(key, entry)];
    assert c[1..] == [];
    assert LoadUserDevices(c[1..]) == Success([]);
    var e := LegacyEntry(key, entry);
    if e.Success? {
      var h: seq<LegacyDevice> := if e.value.Some? then [e.value.value] else [];
      assert h + [] == h;
    }
  }

  /**
   * The children are visited in order: the list of `a + b` is the list of `a` followed
   * by the list of `b`, and the first exception, in `a` before `b`, ends the listing.
   */
  lemma {:induction false} LoadUserDevicesConcat(a: seq<(string, IndexEntry)>, b: seq<(string, IndexEntry)>)
    ensures LoadUserDevices(a + b)
         == (var x :- LoadUserDevices(a); var y :- LoadUserDevices(b); Success(x + y))
  {
    if a == [] {
      assert a + b == b;
      if LoadUserDevices(b).Success? {
        assert [] + LoadUserDevices(b).value == LoadUserDevices(b).value;
      }
    } else {
      assert (a + b)[0] == a[0];
      assert (a + b)[1..] == a[1..] + b;
      LoadUserDevicesConcat(a[1..], b);
      var head := LegacyEntry(a[0].0, a[0].1);
      if head.Success? && LoadUserDevices(a[1..]).Success? && LoadUserDevices(b).Success? {
        var h := if head.value.Some? then [head.value.value] else [];
        assert h + (LoadUserDevices(a[1..]).value + LoadUserDevices(b).value)
            == (h + LoadUserDevices(a[1..]).value) + LoadUserDevices(b).value;
      }
    }
  }

  /** The listing throws exactly when some child's conversion throws. */
  lemma {:induction false} LoadUserDevicesFails(children: seq<(string, IndexEntry)>)
    ensures LoadUserDevices(children).Failure? <==>
      exists j :: 0 <= j < |children| && LegacyEntry(children[j].0, children[j].1).Failure?
  {
    if children != [] {
      LoadUserDevicesFails(children[1..]);
      if LoadUserDevices(children[1..]).Failure? {
        var j :| 0 <= j < |children[1..]| && LegacyEntry(children[1..][j].0, children[1..][j].1).Failure?;
        assert children[1..][j] == children[j + 1];
      }
      if exists j :: 0 <= j < |children| && LegacyEntry(children[j].0, children[j].1).Failure? {
        var j :| 0 <= j < |children| && LegacyEntry(children[j].0, children[j].1).Failure?;
        if j > 0 {
          assert children[1..][j - 1] == children[j];
        }
      }
    }
  }

  /**
   * Every child written by the legacy pairing is listed; every plain string child, the
   * shape the current client writes, is skipped.
   */
  lemma {:induction false} LoadListsRecordsSkipsStrings(children: seq<(string, IndexEntry)>, name: string, now: int, key: string, id: string)
    ensures LoadUserDevices([(key, Node(map["deviceName" := Str(name), "pairedAt" := Long(now),
                                             "notifications" := Bool(true)]))] + children)
         == (var rest :- LoadUserDevices(children); Success([LegacyDevice(key, name, now)] + rest))
    ensures LoadUserDevices([(key, Leaf(Str(id)))] + children) == LoadUserDevices(children)
  {
    var c1 := [(key, Node(map["deviceName" := Str(name), "pairedAt" := Long(now), "notifications" := Bool(true)]))] + children;
    assert c1[1..] == children;
    var c2 := [(key, Leaf(Str(id)))] + children;
    assert c2[1..] == children;
    if LoadUserDevices(children).Success? {
      assert [] + LoadUserDevices(children).value == LoadUserDevices(children).value;
    }
  }

  /** A command as the legacy client's `Command` object serialises. */
  function LegacyCommandRecord(action: string, value: real, timestamp: int, acknowledged: bool): (r: Record)
    ensures r.Keys == {"action", "value", "timestamp", "acknowledged"}
  {
    map["action" := Str(action), "value" := Double(value), "timestamp" := Long(timestamp),
        "acknowledged" := Bool(acknowledged)]
  }

  /** The registrations held by the store and the client's map from device id to its listener. */
  datatype Registry = Registry(listeners: map<string, nat>, attached: set<(string, nat)>, next: nat)

  /** `listenToDeviceData`: a new listener is attached and recorded under the id, replacing any earlier one in the map. */
  function Listen(r: Registry, deviceId: string): Registry {
    Registry(r.listeners[deviceId := r.next], r.attached + {(deviceId, r.next)}, r.next + 1)
  }

  /** `stopListeningToDevice`: the recorded listener, if any, is removed from the map and detached. */
  function StopListening(r: Registry, deviceId: string): Registry {
    if deviceId in r.listeners then
      Registry(r.listeners - {deviceId}, r.attached - {(deviceId, r.listeners[deviceId])}, r.next)
    else r
  }

  /** Attached listeners that the map no longer records, so that nothing can detach them. */
  function Orphans(r: Registry): set<(string, nat)> {
    set p | p in r.attached && !(p.0 in r.listeners && r.listeners[p.0] == p.1)
  }

  /** Every recorded listener is attached, and listener identities are below the next one to be made. */
  predicate RegistryValid(r: Registry) {
    && (forall id :: id in r.listeners ==> (id, r.listeners[id]) in r.attached)
    && (forall p :: p in r.attached ==> p.1 < r.next)
  }

  lemma ListenKeepsValid(r: Registry, deviceId: string)
    requires RegistryValid(r)
    ensures RegistryValid(Listen(r, deviceId))
    ensures Orphans(r) <= Orphans(Listen(r, deviceId))
  {
  }

  lemma StopKeepsValid(r: Registry, deviceId: string)
    requires RegistryValid(r)
    ensures RegistryValid(StopListening(r, deviceId))
    ensures Orphans(r) <= Orphans(StopListening(r, deviceId))
    ensures StopListening(r, deviceId).attached * Orphans(r) == Orphans(r)
    ensures deviceId !in StopListening(r, deviceId).listeners
  {
  }

  /**
   * Listening twice to the same device orphans the first listener: stopping afterwards
   * detaches only the second, and the first stays attached.
   */
  lemma DoubleListenLeaks(r: Registry, deviceId: string)
    requires RegistryValid(r)
    ensures var after := StopListening(Listen(Listen(r, deviceId), deviceId), deviceId);
      && (deviceId, r.next) in after.attached
      && (deviceId, r.next) in Orphans(after)
      && (deviceId, r.next + 1) !in after.attached
  {
    var once := Listen(r, deviceId);
    var twice := Listen(once, deviceId);
    assert (deviceId, r.next) in Orphans(twice);
  }

  /** The legacy repository: the remote tree it writes and its listener registry. */
  class LegacyDeviceRepository {
    var remote: Tree
    var registry: Registry

    ghost predicate Valid()
      reads this
    {
      RegistryValid(registry)
    }

    constructor(remote0: Tree)
      ensures Valid() && remote == remote0 && registry == Registry(map[], {}, 0)
    {
      remote := remote0;
      registry := Registry(map[], {}, 0);
    }

    method ListenToDeviceData(deviceId: string)
      requires Valid()
      modifies this
      ensures Valid()
      ensures registry == Listen(old(registry), deviceId) && remote == old(remote)
    {
      ListenKeepsValid(registry, deviceId);
      registry := Listen(registry, deviceId);
    }

    method StopListeningToDevice(deviceId: string)
      requires Valid()
      modifies this
      ensures Valid()
      ensures registry == StopListening(old(registry), deviceId) && remote == old(remote)
    {
      StopKeepsValid(registry, deviceId);
      if deviceId in registry.listeners {
        var listener := registry.listeners[deviceId];
        registry := Registry(registry.listeners - {deviceId}, registry.attached - {(deviceId, listener)}, registry.next);
      }
    }

    /** `sendCommand`: the serialised command replaces the device's `commands` node. */
    method SendCommand(deviceId: string, action: string, value: real, timestamp: int, acknowledged: bool)
      modifies this
      ensures remote == Apply(old(remote), SetCommands(deviceId, LegacyCommandRecord(action, value, timestamp, acknowledged)))
      ensures registry == old(registry)
      ensures Device(remote, deviceId).commands == LegacyCommandRecord(action, value, timestamp, acknowledged)
    {
      remote := Apply(remote, SetCommands(deviceId, LegacyCommandRecord(action, value, timestamp, acknowledged)));
    }

    /** `pairDevice`: the outcome of the checks, and on success the four writes in order. */
    method PairDevice(readError: Option<string>, userId: string, code: string, deviceName: string, now: int)
      returns (outcome: PairingOutcome)
      modifies this
      ensures (outcome, remote) == (LegacyPair(old(remote), readError, userId, code, deviceName, now).0,
                                    ApplyAll(old(remote), LegacyPair(old(remote), readError, userId, code, deviceName, now).1))
      ensures registry == old(registry)
    {
      var writes;
      outcome, writes := LegacyPair(remote, readError, userId, code, deviceName, now).0,
                         LegacyPair(remote, readError, userId, code, deviceName, now).1;
      var i := 0;
      ghost var t0 := remote;
      while i < |writes|
        invariant 0 <= i <= |writes|
        invariant remote == ApplyAll(t0, writes[..i])
        invariant registry == old(registry)
      {
        assert writes[..i + 1] == writes[..i] + [writes[i]];
        ApplyAllAppend(t0, writes[..i], writes[i]);
        remote := Apply(remote, writes[i]);
        i := i + 1;
      }
      assert writes[..i] == writes;
    }
  }
}
