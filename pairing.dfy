/**
 * The pairing handshake, unpairing and the command record of the Android client
 * (DeviceRepository.kt), as functions over the remote tree: the fail-fast check chain,
 * the ordered writes a successful pairing issues, and what they leave behind.
 */
module Pairing {
  import opened Wrappers
  import opened Text
  import opened DeviceModel
  import opened RemoteTree
  import opened Translate

  const InvalidCode: string := "Invalid pairing code"
  const CodeMismatch: string := "Pairing code does not match device ID"
  const CodeUsed: string := "Pairing code already used"
  const CodeExpired: string := "Pairing code expired"
  const DeviceNotFound: string := "Device not found"
  const AlreadyPaired: string := "Device already paired"

  /** `devicePairing/{code}` exists. */
  predicate CodeExists(t: Tree, code: string) {
    PairingRecord(t, code) != map[]
  }

  /** The code names `deviceId` (a missing or non-string `deviceId` names nothing). */
  predicate CodeNames(t: Tree, code: string, deviceId: string) {
    AsString(PairingRecord(t, code), "deviceId") == Some(deviceId)
  }

  /** The code is marked used; a missing or non-boolean `used` counts as unused. */
  predicate CodeIsUsed(t: Tree, code: string) {
    AsBool(PairingRecord(t, code), "used") == Some(true)
  }

  /** The code carries a positive integral expiry and `now` is past it. */
  predicate CodeHasExpired(t: Tree, code: string, now: int) {
    var expiresAt := AsLong(PairingRecord(t, code), "expiresAt").GetOr(0);
    expiresAt > 0 && now > expiresAt
  }

  /** `devices/{deviceId}/deviceInfo` exists. */
  predicate DeviceKnown(t: Tree, deviceId: string) {
    Device(t, deviceId).deviceInfo != map[]
  }

  /**
   * The check chain of `pairDevice`, in order, stopping at the first failure: the code
   * exists, names the device, is unused and unexpired; the device exists, its info can
   * be read, and it has no owner. On success the result is the device info as read.
   */
  function PairCheck(t: Tree, deviceId: string, code: string, now: int): (r: Result<DeviceInfo, string>)
    ensures !CodeExists(t, code) ==> r == Failure(InvalidCode)
    ensures CodeExists(t, code) && !CodeNames(t, code, deviceId) ==> r == Failure(CodeMismatch)
    ensures CodeExists(t, code) && CodeNames(t, code, deviceId) && CodeIsUsed(t, code) ==> r == Failure(CodeUsed)
    ensures (CodeExists(t, code) && CodeNames(t, code, deviceId) && !CodeIsUsed(t, code)
             && CodeHasExpired(t, code, now)) ==> r == Failure(CodeExpired)
    ensures (CodeExists(t, code) && CodeNames(t, code, deviceId) && !CodeIsUsed(t, code)
             && !CodeHasExpired(t, code, now) && !DeviceKnown(t, deviceId)) ==> r == Failure(DeviceNotFound)
    ensures (CodeExists(t, code) && CodeNames(t, code, deviceId) && !CodeIsUsed(t, code)
             && !CodeHasExpired(t, code, now) && DeviceKnown(t, deviceId)
             && DecodeInfo(Device(t, deviceId).deviceInfo).Failure?)
            ==> r == Failure(DecodeInfo(Device(t, deviceId).deviceInfo).error)
    ensures (CodeExists(t, code) && CodeNames(t, code, deviceId) && !CodeIsUsed(t, code)
             && !CodeHasExpired(t, code, now) && DeviceKnown(t, deviceId)
             && DecodeInfo(Device(t, deviceId).deviceInfo).Success?
             && !IsUnowned(DecodeInfo(Device(t, deviceId).deviceInfo).value)) ==> r == Failure(AlreadyPaired)
    ensures r.Success? <==>
      && CodeExists(t, code) && CodeNames(t, code, deviceId) && !CodeIsUsed(t, code)
      && !CodeHasExpired(t, code, now) && DeviceKnown(t, deviceId)
      && DecodeInfo(Device(t, deviceId).deviceInfo).Success?
      && IsUnowned(DecodeInfo(Device(t, deviceId).deviceInfo).value)
    ensures r.Success? ==> r == DecodeInfo(Device(t, deviceId).deviceInfo)
  {
    var rec := PairingRecord(t, code);
    if rec == map[] then Failure(InvalidCode)
    else if AsString(rec, "deviceId") != Some(deviceId) then Failure(CodeMismatch)
    else if AsBool(rec, "used").GetOr(false) then Failure(CodeUsed)
    else
      var expiresAt := AsLong(rec, "expiresAt").GetOr(0);
      if expiresAt > 0 && now > expiresAt then Failure(CodeExpired)
      else
        var infoRec := Device(t, deviceId).deviceInfo;
        if infoRec == map[] then Failure(DeviceNotFound)
        else match DecodeInfo(infoRec)
          case Failure(e) => Failure(e)
          case Success(info) => if !IsUnowned(info) then Failure(AlreadyPaired) else Success(info)
  }

  /** The example of a code issued for another device: refused before anything else is looked at. */
  lemma MismatchExample(t: Tree, now: int)
    requires PairingRecord(t, "123456") == map["deviceId" := Str("112233445566")]
    ensures PairCheck(t, "AABBCCDDEEFF", "123456", now) == Failure(CodeMismatch)
  {
    var rec := PairingRecord(t, "123456");
    assert "deviceId" in rec;
    assert AsString(rec, "deviceId") == Some("112233445566");
    assert "112233445566"[0] != "AABBCCDDEEFF"[0];
  }

  /** Whether the user's index holds the device id as a plain string entry. */
  predicate IndexHolds(index: map<string, IndexEntry>, deviceId: string) {
    Leaf(Str(deviceId)) in index.Values
  }

  /** The keys of the index whose value is a string (what `mapNotNull { it.value as? String }` keeps). */
  function StringKeys(index: map<string, IndexEntry>): set<string> {
    set k | k in index && index[k].Leaf? && index[k].value.Str?
  }

  /** The key a new index entry is written under: the number of string entries. */
  function AppendKey(index: map<string, IndexEntry>): string {
    NatToString(|StringKeys(index)|)
  }

  /** The first four writes of a successful pairing: the device's owner, then the code's claim. */
  function ClaimWrites(userId: string, deviceId: string, code: string, now: int): seq<Write> {
    [ SetInfoField(deviceId, "pairedTo", Str(userId)),
      SetCodeField(code, "used", Bool(true)),
      SetCodeField(code, "pairedTo", Str(userId)),
      SetCodeField(code, "pairedAt", Long(now)) ]
  }

  /**
   * All writes of a successful pairing, in order: the claim, then the device id appended
   * to the user's index unless it is already there.
   */
  function PairWrites(t: Tree, userId: string, deviceId: string, code: string, now: int): (ws: seq<Write>)
    ensures |ws| >= 4 && ws[..4] == ClaimWrites(userId, deviceId, code, now)
    ensures |ws| == 4 <==> IndexHolds(UserIndex(t, userId), deviceId)
    ensures |ws| == 5 ==> ws[4] == SetIndexEntry(userId, AppendKey(UserIndex(t, userId)), Leaf(Str(deviceId)))
  {
    var index := UserIndex(t, userId);
    if IndexHolds(index, deviceId) then ClaimWrites(userId, deviceId, code, now)
    else ClaimWrites(userId, deviceId, code, now) + [SetIndexEntry(userId, AppendKey(index), Leaf(Str(deviceId)))]
  }

  /** The claim writes leave the users subtree alone. */
  lemma ClaimKeepsUsers(t: Tree, userId: string, deviceId: string, code: string, now: int, k: nat)
    requires k <= 4
    ensures ApplyAll(t, ClaimWrites(userId, deviceId, code, now)[..k]).users == t.users
  {
    var ws := ClaimWrites(userId, deviceId, code, now);
    var i := 0;
    while i < k
      invariant i <= k
      invariant ApplyAll(t, ws[..i]).users == t.users
    {
      assert ws[..i + 1] == ws[..i] + [ws[i]];
      ApplyAllAppend(t, ws[..i], ws[i]);
      i := i + 1;
    }
  }

  /** Setting the owner of readable device info keeps it readable and changes only the owner. */
  lemma DecodeInfoWithOwner(rec: Record, owner: string)
    requires DecodeInfo(rec).Success?
    ensures DecodeInfo(rec["pairedTo" := Str(owner)]) == Success(DecodeInfo(rec).value.(pairedTo := owner))
  {
  }

  /** The state after the first `k` writes of a successful pairing (a crash after write `k`). */
  function AfterWrites(t: Tree, userId: string, deviceId: string, code: string, now: int, k: nat): Tree
    requires k <= |PairWrites(t, userId, deviceId, code, now)|
  {
    ApplyAll(t, PairWrites(t, userId, deviceId, code, now)[..k])
  }

  lemma AfterOneWrite(t: Tree, userId: string, deviceId: string, code: string, now: int)
    ensures AfterWrites(t, userId, deviceId, code, now, 1)
         == Apply(t, SetInfoField(deviceId, "pairedTo", Str(userId)))
  {
    var ws := PairWrites(t, userId, deviceId, code, now);
    assert ws[..1] == [ws[0]];
    assert ApplyAll(t, ws[..1]) == ApplyAll(Apply(t, ws[0]), []);
  }

  /** A write after the first two of a pairing leaves the code's `used` and `deviceId` alone. */
  lemma LaterWriteKeepsClaim(t: Tree, w: Write, code: string, deviceId: string)
    requires CodeIsUsed(t, code) && CodeNames(t, code, deviceId)
    requires w.SetIndexEntry? || (w.SetCodeField? && w.name != "used" && w.name != "deviceId")
    ensures CodeIsUsed(Apply(t, w), code) && CodeNames(Apply(t, w), code, deviceId)
  {
  }

  /** From the second write on, the code is marked used and names the device. */
  lemma CodeUsedFromSecondWrite(t: Tree, userId: string, deviceId: string, code: string, now: int, k: nat)
    requires CodeNames(t, code, deviceId)
    requires 2 <= k <= |PairWrites(t, userId, deviceId, code, now)|
    ensures CodeExists(AfterWrites(t, userId, deviceId, code, now, k), code)
    ensures CodeNames(AfterWrites(t, userId, deviceId, code, now, k), code, deviceId)
    ensures CodeIsUsed(AfterWrites(t, userId, deviceId, code, now, k), code)
  {
    var ws := PairWrites(t, userId, deviceId, code, now);
    var t1 := Apply(t, ws[0]);
    assert CodeNames(t1, code, deviceId) by {
      assert PairingRecord(t1, code) == PairingRecord(t, code);
    }
    var t2 := Apply(t1, ws[1]);
    assert CodeIsUsed(t2, code) && CodeNames(t2, code, deviceId);
    assert ApplyAll(t, ws[..2]) == t2 by {
      assert ws[..1] + [ws[1]] == ws[..2];
      ApplyAllAppend(t, ws[..1], ws[1]);
      AfterOneWrite(t, userId, deviceId, code, now);
    }
    var i := 2;
    while i < k
      invariant 2 <= i <= k
      invariant CodeIsUsed(ApplyAll(t, ws[..i]), code)
      invariant CodeNames(ApplyAll(t, ws[..i]), code, deviceId)
    {
      assert ws[..i + 1] == ws[..i] + [ws[i]];
      ApplyAllAppend(t, ws[..i], ws[i]);
      LaterWriteKeepsClaim(ApplyAll(t, ws[..i]), ws[i], code, deviceId);
      i := i + 1;
    }
  }

  /**
   * A crash anywhere inside a successful pairing leaves a state in which repeating the
   * same request fails: after any write from the second on with "Pairing code already
   * used", after the first alone with "Device already paired" (even though the owner is
   * the same user) unless the code has expired meanwhile. The retry therefore never
   * reaches the index append that the crash skipped.
   */
  lemma RetryAfterPartialPairingFails(t: Tree, userId: string, deviceId: string, code: string, now: int, later: int, k: nat)
    requires PairCheck(t, deviceId, code, now).Success?
    requires userId != "" && userId != "null"
    requires 1 <= k <= |PairWrites(t, userId, deviceId, code, now)|
    ensures PairCheck(AfterWrites(t, userId, deviceId, code, now, k), deviceId, code, later).Failure?
    ensures k >= 2 ==> PairCheck(AfterWrites(t, userId, deviceId, code, now, k), deviceId, code, later)
                       == Failure(CodeUsed)
    ensures k == 1 && !CodeHasExpired(t, code, later) ==>
              PairCheck(AfterWrites(t, userId, deviceId, code, now, k), deviceId, code, later)
              == Failure(AlreadyPaired)
  {
    if k == 1 {
      AfterOneWrite(t, userId, deviceId, code, now);
      DecodeInfoWithOwner(Device(t, deviceId).deviceInfo, userId);
    } else {
      CodeUsedFromSecondWrite(t, userId, deviceId, code, now, k);
    }
  }

  /**
   * A code is consumed by its first successful pairing: afterwards every attempt with it,
   * by any user, for any device and at any time, is refused.
   */
  lemma CodeIsSingleUse(t: Tree, userId: string, deviceId: string, code: string, now: int,
                        otherDevice: string, later: int)
    requires PairCheck(t, deviceId, code, now).Success?
    ensures PairCheck(AfterWrites(t, userId, deviceId, code, now, |PairWrites(t, userId, deviceId, code, now)|),
                      otherDevice, code, later).Failure?
  {
    CodeUsedFromSecondWrite(t, userId, deviceId, code, now, |PairWrites(t, userId, deviceId, code, now)|);
  }

  /**
   * The append key is a count, not a fresh key: when an earlier unpairing has left a hole
   * so that the key is held by another device, a successful pairing overwrites that
   * entry, and the other device drops out of the user's index although it stays paired.
   */
  lemma AppendOverwritesSurvivor(t: Tree, userId: string, deviceId: string, code: string, now: int, other: string)
    requires PairCheck(t, deviceId, code, now).Success?
    requires !IndexHolds(UserIndex(t, userId), deviceId)
    requires AppendKey(UserIndex(t, userId)) in UserIndex(t, userId)
    requires UserIndex(t, userId)[AppendKey(UserIndex(t, userId))] == Leaf(Str(other))
    requires forall k :: k in UserIndex(t, userId) && k != AppendKey(UserIndex(t, userId)) ==>
               UserIndex(t, userId)[k] != Leaf(Str(other))
    ensures var after := ApplyAll(t, PairWrites(t, userId, deviceId, code, now));
      && AppendKey(UserIndex(t, userId)) in UserIndex(after, userId)
      && UserIndex(after, userId)[AppendKey(UserIndex(t, userId))] == Leaf(Str(deviceId))
      && !IndexHolds(UserIndex(after, userId), other)
      && |UserIndex(after, userId)| == |UserIndex(t, userId)|
  {
    var ws := PairWrites(t, userId, deviceId, code, now);
    var key := AppendKey(UserIndex(t, userId));
    ClaimKeepsUsers(t, userId, deviceId, code, now, 4);
    assert ClaimWrites(userId, deviceId, code, now)[..4] == ws[..4];
    assert ws == ws[..4] + [ws[4]];
    ApplyAllAppend(t, ws[..4], ws[4]);
    var after := ApplyAll(t, ws);
    assert UserIndex(after, userId) == UserIndex(t, userId)[key := Leaf(Str(deviceId))];
    forall v | v in UserIndex(after, userId).Values
      ensures v != Leaf(Str(other))
    {
      var k :| k in UserIndex(after, userId) && UserIndex(after, userId)[k] == v;
    }
  }

  /** The scenario of the hole: "A" at 0 and "B" at 1, "A" unpaired, then "C" paired over "B". */
  lemma HoleScenario(t: Tree, userId: string, code: string, now: int)
    requires PairCheck(t, "C", code, now).Success?
    requires UserIndex(t, userId) == map["1" := Leaf(Str("B"))]
    ensures UserIndex(ApplyAll(t, PairWrites(t, userId, "C", code, now)), userId) == map["1" := Leaf(Str("C"))]
  {
    var index := UserIndex(t, userId);
    assert StringKeys(index) == {"1"};
    assert AppendKey(index) == "1";
    assert !IndexHolds(index, "C") by {
      assert index.Values == {Leaf(Str("B"))};
    }
    var ws := PairWrites(t, userId, "C", code, now);
    ClaimKeepsUsers(t, userId, "C", code, now, 4);
    assert ClaimWrites(userId, "C", code, now)[..4] == ws[..4];
    assert ws == ws[..4] + [ws[4]];
    ApplyAllAppend(t, ws[..4], ws[4]);
  }

  /** Unpairing's index filter: every entry equal to the device id goes, every other stays. */
  function IndexWithout(index: map<string, IndexEntry>, deviceId: string): (r: map<string, IndexEntry>)
    ensures !IndexHolds(r, deviceId)
    ensures forall k :: k in index && index[k] != Leaf(Str(deviceId)) ==> k in r && r[k] == index[k]
    ensures r.Keys <= index.Keys
  {
    map k | k in index && index[k] != Leaf(Str(deviceId)) :: index[k]
  }

  /**
   * The state after `unpairDevice`: the device loses its owner field, and every entry of
   * the user's index holding the device id is removed.
   */
  function Unpaired(t: Tree, userId: string, deviceId: string): (r: Tree)
    ensures r.devicePairing == t.devicePairing
    ensures UserIndex(r, userId) == IndexWithout(UserIndex(t, userId), deviceId)
    ensures forall u :: u != userId ==> UserIndex(r, u) == UserIndex(t, u)
    ensures Device(r, deviceId) == Device(t, deviceId).(deviceInfo := Device(t, deviceId).deviceInfo - {"pairedTo"})
    ensures forall d :: d != deviceId ==> Device(r, d) == Device(t, d)
  {
    assert EmptyDevice().deviceInfo - {"pairedTo"} == EmptyDevice().deviceInfo;
    var released := Apply(t, RemoveInfoField(deviceId, "pairedTo"));
    if userId in released.users then
      released.(users := released.users[userId := IndexWithout(released.users[userId], deviceId)])
    else released
  }

  /**
   * Unpairing frees the device for a new pairing and drops it from the user's list, but
   * leaves the code record as it was: a consumed code stays consumed, so pairing the
   * device again needs a new code.
   */
  lemma UnpairFreesDeviceNotCode(t: Tree, userId: string, deviceId: string, code: string, later: int)
    requires DecodeInfo(Device(t, deviceId).deviceInfo).Success?
    ensures var t' := Unpaired(t, userId, deviceId);
      && DecodeInfo(Device(t', deviceId).deviceInfo).Success?
      && IsUnowned(DecodeInfo(Device(t', deviceId).deviceInfo).value)
      && !IndexHolds(UserIndex(t', userId), deviceId)
      && (CodeExists(t, code) && CodeNames(t, code, deviceId) && CodeIsUsed(t, code) ==>
          PairCheck(t', deviceId, code, later) == Failure(CodeUsed))
  {
    var rec := Device(t, deviceId).deviceInfo;
    var rec' := rec - {"pairedTo"};
    var t' := Unpaired(t, userId, deviceId);
    assert Device(t', deviceId).deviceInfo == rec';
    assert DecodeInfo(rec').Success?;
  }

  /** The command node `sendCommand` writes; the firmware reads `action`. */
  function CommandRecord(action: string, value: real, timestamp: int): (r: Record)
    ensures r.Keys == {"action", "value", "timestamp", "processed"}
    ensures r["processed"] == Bool(false) && "command" !in r
  {
    map["action" := Str(action), "value" := Double(value), "timestamp" := Long(timestamp),
        "processed" := Bool(false)]
  }

  /**
   * The client's own record has `command` where the writer puts `action`: reading a
   * written command back keeps its value and time but loses the action.
   */
  lemma CommandReadBackLosesAction(action: string, value: real, timestamp: int)
    ensures DecodeCommands(CommandRecord(action, value, timestamp))
         == Success(DeviceCommands("", value, timestamp, false))
  {
  }
}
