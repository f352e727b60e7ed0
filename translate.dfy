/**
 * Translation of remote snapshots into the canonical model (DeviceRepository.kt):
 * the device status from the firmware's `current` node, the whole device record, the
 * history list, and the user's device-id list.
 */
module Translate {
  import opened Wrappers
  import opened Text
  import opened Seqs
  import opened DeviceModel
  import opened RemoteTree

  /** The fields of `current` the client reads; every other child is ignored. */
  predicate IsStatusField(name: string) {
    name in {"temperature", "humidity", "setpointTemp", "setpointHumidity", "dryingActive",
             "relay1Status", "relay2Status", "online", "lastUpdate"}
  }

  predicate IsNumber(f: Field) {
    f.Long? || (f.Double? && IsLong(TruncateToLong(f.r)))
  }

  /** Every status field that is present has a type the client can convert. */
  predicate StatusWellTyped(cur: Record) {
    && (forall name :: name in {"temperature", "humidity", "setpointTemp", "setpointHumidity"} && name in cur ==>
          cur[name].Long? || cur[name].Double?)
    && (forall name :: name in {"dryingActive", "relay1Status", "relay2Status", "online"} && name in cur ==>
          cur[name].Bool?)
    && ("lastUpdate" in cur ==> IsNumber(cur["lastUpdate"]))
  }

  /**
   * The status translation of `getDeviceData`: relay 1 is the heater, relay 2 the fan,
   * and the single `online` flag feeds both connectivity flags. A present field of the
   * wrong type makes the whole translation fail.
   */
  function TranslateStatus(cur: Record): (r: Result<DeviceStatus, string>)
    ensures r.Success? <==> StatusWellTyped(cur)
    ensures r.Success? ==>
      && r.value.heaterOn == (AsBool(cur, "relay1Status") == Some(true))
      && r.value.fanOn == (AsBool(cur, "relay2Status") == Some(true))
      && r.value.wifiConnected == r.value.firebaseConnected == (AsBool(cur, "online") == Some(true))
      && r.value.errorMessage == ""
    ensures r.Success? ==>
      && NumberOrDefault(cur, "temperature", 0.0, r.value.temperature)
      && NumberOrDefault(cur, "humidity", 0.0, r.value.humidity)
      && NumberOrDefault(cur, "setpointTemp", 40.0, r.value.setpointTemp)
      && NumberOrDefault(cur, "setpointHumidity", 20.0, r.value.setpointHumidity)
      && r.value.dryingActive == (AsBool(cur, "dryingActive") == Some(true))
    ensures r.Success? && "lastUpdate" !in cur ==> r.value.lastUpdate == 0
    ensures r.Success? && "lastUpdate" in cur && cur["lastUpdate"].Long? ==> r.value.lastUpdate == cur["lastUpdate"].n
    ensures r.Success? && "lastUpdate" in cur && cur["lastUpdate"].Double? ==>
      r.value.lastUpdate == TruncateToLong(cur["lastUpdate"].r)
    ensures r.Success? && "setpointTemp" !in cur ==> r.value.setpointTemp == 40.0
    ensures r.Success? && "setpointHumidity" !in cur ==> r.value.setpointHumidity == 20.0
  {
    var temperature :- ReadFloat(cur, "temperature", 0.0);
    var humidity :- ReadFloat(cur, "humidity", 0.0);
    var setpointTemp :- ReadFloat(cur, "setpointTemp", 40.0);
    var setpointHumidity :- ReadFloat(cur, "setpointHumidity", 20.0);
    var dryingActive :- ReadBool(cur, "dryingActive", false);
    var heaterOn :- ReadBool(cur, "relay1Status", false);
    var fanOn :- ReadBool(cur, "relay2Status", false);
    // both connectivity flags are read from the same child
    var online :- ReadBool(cur, "online", false);
    var lastUpdate :- ReadLong(cur, "lastUpdate", 0);
    Success(DeviceStatus(temperature, humidity, setpointTemp, setpointHumidity, dryingActive,
                         heaterOn, fanOn, online, online, lastUpdate, ""))
  }

  /** An empty `current` node translates to the default status. */
  lemma EmptyStatusIsDefault()
    ensures TranslateStatus(map[]) == Success(DefaultDeviceStatus())
  {
  }

  /** Children the translation does not know are ignored. */
  lemma UnknownStatusFieldIgnored(cur: Record, name: string, v: Field)
    requires !IsStatusField(name)
    ensures TranslateStatus(cur[name := v]) == TranslateStatus(cur)
  {
    var upd := cur[name := v];
    assert forall n :: IsStatusField(n) ==> n != name;
    assert ReadFloat(upd, "temperature", 0.0) == ReadFloat(cur, "temperature", 0.0);
    assert ReadFloat(upd, "humidity", 0.0) == ReadFloat(cur, "humidity", 0.0);
    assert ReadFloat(upd, "setpointTemp", 40.0) == ReadFloat(cur, "setpointTemp", 40.0);
    assert ReadFloat(upd, "setpointHumidity", 20.0) == ReadFloat(cur, "setpointHumidity", 20.0);
    assert ReadBool(upd, "dryingActive", false) == ReadBool(cur, "dryingActive", false);
    assert ReadBool(upd, "relay1Status", false) == ReadBool(cur, "relay1Status", false);
    assert ReadBool(upd, "relay2Status", false) == ReadBool(cur, "relay2Status", false);
    assert ReadBool(upd, "online", false) == ReadBool(cur, "online", false);
    assert ReadLong(upd, "lastUpdate", 0) == ReadLong(cur, "lastUpdate", 0);
  }

  /** A record with a temperature, relay 1 on and online, and nothing else. */
  lemma PartialStatusExample()
    ensures TranslateStatus(map["temperature" := Double(32.5), "relay1Status" := Bool(true), "online" := Bool(true)])
         == Success(DeviceStatus(32.5, 0.0, 40.0, 20.0, false, true, false, true, true, 0, ""))
  {
  }

  /** `getValue(DeviceInfo::class.java) ?: DeviceInfo()`: absent fields keep their defaults. */
  function DecodeInfo(rec: Record): (r: Result<DeviceInfo, string>)
    ensures rec == map[] ==> r == Success(DefaultDeviceInfo())
    ensures r.Success? ==> r.value.pairedTo == AsString(rec, "pairedTo").GetOr("")
  {
    var d := DefaultDeviceInfo();
    var macAddress :- ReadString(rec, "macAddress", d.macAddress);
    var firmwareVersion :- ReadString(rec, "firmwareVersion", d.firmwareVersion);
    var hardwareVersion :- ReadString(rec, "hardwareVersion", d.hardwareVersion);
    var lastBoot :- ReadLong(rec, "lastBoot", d.lastBoot);
    var pairedTo :- ReadString(rec, "pairedTo", d.pairedTo);
    var deviceName :- ReadString(rec, "deviceName", d.deviceName);
    var pairingCode :- ReadString(rec, "pairingCode", d.pairingCode);
    var pairingCodeExpiry :- ReadLong(rec, "pairingCodeExpiry", d.pairingCodeExpiry);
    Success(DeviceInfo(macAddress, firmwareVersion, hardwareVersion, lastBoot, pairedTo,
                       deviceName, pairingCode, pairingCodeExpiry))
  }

  /** `getValue(DeviceSettings::class.java) ?: DeviceSettings()`. */
  function DecodeSettings(rec: Record): (r: Result<DeviceSettings, string>)
    ensures rec == map[] ==> r == Success(DefaultDeviceSettings())
  {
    var d := DefaultDeviceSettings();
    var autoStop :- ReadBool(rec, "autoStop", d.autoStop);
    var maxTemp :- ReadFloat(rec, "maxTemp", d.maxTemp);
    var minTemp :- ReadFloat(rec, "minTemp", d.minTemp);
    var maxHumidity :- ReadFloat(rec, "maxHumidity", d.maxHumidity);
    var minHumidity :- ReadFloat(rec, "minHumidity", d.minHumidity);
    var tempUnit :- ReadString(rec, "tempUnit", d.tempUnit);
    Success(DeviceSettings(autoStop, maxTemp, minTemp, maxHumidity, minHumidity, tempUnit))
  }

  /**
   * `getValue(DeviceCommands::class.java) ?: DeviceCommands()`: the record's field is
   * `command`, so a child named `action` is ignored.
   */
  function DecodeCommands(rec: Record): (r: Result<DeviceCommands, string>)
    ensures rec == map[] ==> r == Success(DefaultDeviceCommands())
    ensures "command" !in rec && r.Success? ==> r.value.command == ""
  {
    var d := DefaultDeviceCommands();
    var command :- ReadString(rec, "command", d.command);
    var value :- ReadFloat(rec, "value", d.value);
    var timestamp :- ReadLong(rec, "timestamp", d.timestamp);
    var processed :- ReadBool(rec, "processed", d.processed);
    Success(DeviceCommands(command, value, timestamp, processed))
  }

  /**
   * One delivery of `getDeviceData`: the canonical record, or `None` (the flow emits
   * null) when any part of the snapshot cannot be converted.
   */
  function TranslateDevice(deviceId: string, node: DeviceNode): (r: Option<DeviceData>)
    ensures r.Some? <==>
      && TranslateStatus(node.current).Success?
      && DecodeInfo(node.deviceInfo).Success?
      && DecodeSettings(node.settings).Success?
      && DecodeCommands(node.commands).Success?
    ensures r.Some? ==> r.value.deviceId == deviceId && r.value.status == TranslateStatus(node.current).value
  {
    match (TranslateStatus(node.current), DecodeInfo(node.deviceInfo),
           DecodeSettings(node.settings), DecodeCommands(node.commands))
    case (Success(status), Success(info), Success(settings), Success(commands)) =>
      Some(DeviceData(deviceId, info, status, settings, commands))
    case _ => None
  }

  /** A device node that is missing altogether yields a fully defaulted record. */
  lemma MissingDeviceIsDefault(deviceId: string)
    ensures TranslateDevice(deviceId, EmptyDevice())
         == Some(DeviceData(deviceId, DefaultDeviceInfo(), DefaultDeviceStatus(),
                            DefaultDeviceSettings(), DefaultDeviceCommands()))
  {
    EmptyStatusIsDefault();
  }

  /**
   * The timestamp of a history entry: its explicit `timestamp` child; failing that its
   * key read as seconds and scaled to milliseconds (with `long` wrap-around); failing
   * that 0. A `timestamp` child that is not a number makes the entry malformed.
   */
  function EntryTimestamp(key: string, rec: Record): (r: Result<int, string>)
    ensures "timestamp" in rec && rec["timestamp"].Long? ==> r == Success(rec["timestamp"].n)
    ensures "timestamp" in rec && (rec["timestamp"].Bool? || rec["timestamp"].Str?) ==> r.Failure?
    ensures "timestamp" in rec && rec["timestamp"].Double? ==>
      && (r.Success? <==> IsLong(TruncateToLong(rec["timestamp"].r)))
      && (r.Success? ==> r.value == TruncateToLong(rec["timestamp"].r))
    ensures "timestamp" !in rec && ParseLong(key).Some? ==> r == Success(Wrap64(ParseLong(key).value * 1000))
    ensures "timestamp" !in rec && ParseLong(key).None? ==> r == Success(0)
    ensures "timestamp" !in rec ==> r.Success?
  {
    if "timestamp" in rec then ReadLong(rec, "timestamp", 0)
    else match ParseLong(key)
      case Some(seconds) => Success(Wrap64(seconds * 1000))
      case None => Success(0)
  }

  /** A key written as a number of seconds becomes that many thousand milliseconds. */
  lemma KeySecondsBecomeMilliseconds(seconds: nat, rec: Record)
    requires "timestamp" !in rec
    requires seconds * 1000 <= MaxLong
    ensures EntryTimestamp(NatToString(seconds), rec) == Success(seconds * 1000)
  {
    ParseLongOfNatToString(seconds);
  }

  /** A push-id style key, with a letter in it, gives timestamp 0 when the entry has no `timestamp` child. */
  lemma NonNumericKeyIsZero(key: string, rec: Record, i: nat)
    requires "timestamp" !in rec
    requires i < |key| && !IsDigit(key[i]) && !(i == 0 && IsSign(key[0]))
    ensures EntryTimestamp(key, rec) == Success(0)
  {
    ParseLongRejectsNonDigit(key, i);
  }

  /** One history child as a sample; absent fields take the sample defaults. */
  function ParseEntry(key: string, rec: Record): (r: Result<SensorReading, string>)
    ensures r.Success? ==> EntryTimestamp(key, rec) == Success(r.value.timestamp)
    ensures r.Success? ==> r.value.HeaterOn() == (AsBool(rec, "relay1Status") == Some(true))
  {
    var temperature :- ReadFloat(rec, "temperature", 0.0);
    var humidity :- ReadFloat(rec, "humidity", 0.0);
    var setpointTemp :- ReadFloat(rec, "setpointTemp", 40.0);
    var setpointHumidity :- ReadFloat(rec, "setpointHumidity", 20.0);
    var relay1Status :- ReadBool(rec, "relay1Status", false);
    var relay2Status :- ReadBool(rec, "relay2Status", false);
    var dryingActive :- ReadBool(rec, "dryingActive", false);
    var timestamp :- EntryTimestamp(key, rec);
    Success(SensorReading(temperature, humidity, setpointTemp, setpointHumidity,
                          relay1Status, relay2Status, dryingActive, timestamp))
  }

  /** The samples of the children that parse, in child order (`mapNotNull`). */
  function ParsedEntries(children: seq<(string, Record)>): (r: seq<SensorReading>)
    ensures |r| <= |children|
  {
    if children == [] then []
    else
      var rest := ParsedEntries(children[1..]);
      match ParseEntry(children[0].0, children[0].1)
      case Success(x) => [x] + rest
      case Failure(_) => rest
  }

  /** Every sample comes from a child that parses to it. */
  lemma {:induction false} ParsedEntriesSound(children: seq<(string, Record)>)
    ensures forall i :: 0 <= i < |ParsedEntries(children)| ==>
      exists j :: 0 <= j < |children| && ParseEntry(children[j].0, children[j].1) == Success(ParsedEntries(children)[i])
  {
    if children != [] {
      ParsedEntriesSound(children[1..]);
      var r := ParsedEntries(children);
      var rest := ParsedEntries(children[1..]);
      var head := ParseEntry(children[0].0, children[0].1);
      forall i | 0 <= i < |r|
        ensures exists j :: 0 <= j < |children| && ParseEntry(children[j].0, children[j].1) == Success(r[i])
      {
        if head.Success? && i == 0 {
          assert head == Success(r[0]);
        } else {
          var k := if head.Success? then i - 1 else i;
          assert r[i] == rest[k];
          var j :| 0 <= j < |children[1..]| && ParseEntry(children[1..][j].0, children[1..][j].1) == Success(rest[k]);
          assert children[1..][j] == children[j + 1];
        }
      }
    } else {
      assert ParsedEntries(children) == [];
    }
  }

  /** Every child that parses contributes its sample. */
  lemma {:induction false} ParsedEntriesComplete(children: seq<(string, Record)>)
    ensures forall j :: 0 <= j < |children| && ParseEntry(children[j].0, children[j].1).Success? ==>
      ParseEntry(children[j].0, children[j].1).value in ParsedEntries(children)
  {
    if children != [] {
      ParsedEntriesComplete(children[1..]);
      var r := ParsedEntries(children);
      forall j | 0 <= j < |children| && ParseEntry(children[j].0, children[j].1).Success?
        ensures ParseEntry(children[j].0, children[j].1).value in r
      {
        if j > 0 {
          assert children[j] == children[1..][j - 1];
        }
      }
    }
  }

  lemma {:induction false} ParsedEntriesConcat(a: seq<(string, Record)>, b: seq<(string, Record)>)
    ensures ParsedEntries(a + b) == ParsedEntries(a) + ParsedEntries(b)
  {
    if a == [] {
      assert a + b == b;
    } else {
      assert (a + b)[1..] == a[1..] + b;
      ParsedEntriesConcat(a[1..], b);
    }
  }

  function Stamp(x: SensorReading): int {
    x.timestamp
  }

  /**
   * One delivery of `getDeviceHistory`: the parsed samples, newest first, at most
   * `limit` of them.
   */
  function ParseHistory(children: seq<(string, Record)>, limit: nat): (r: seq<SensorReading>)
    ensures SortedDesc(r, Stamp)
    ensures |r| == if limit < |ParsedEntries(children)| then limit else |ParsedEntries(children)|
    ensures multiset(r) <= multiset(ParsedEntries(children))
    ensures limit >= |ParsedEntries(children)| ==> multiset(r) == multiset(ParsedEntries(children))
  {
    var sorted := SortDesc(ParsedEntries(children), Stamp);
    SortDescCorrect(ParsedEntries(children), Stamp);
    TakeSortedIsTop(sorted, Stamp, limit);
    Take(sorted, limit)
  }

  /** The delivered samples are the newest ones: none left out is newer than one delivered. */
  lemma HistoryKeepsNewest(children: seq<(string, Record)>, limit: nat, x: SensorReading, y: SensorReading)
    requires x in multiset(ParsedEntries(children)) - multiset(ParseHistory(children, limit))
    requires y in ParseHistory(children, limit)
    ensures x.timestamp <= y.timestamp
  {
    var all := ParsedEntries(children);
    var sorted := SortDesc(all, Stamp);
    SortDescCorrect(all, Stamp);
    TakeSortedIsTop(sorted, Stamp, limit);
    var t := Take(sorted, limit);
    assert multiset(all) == multiset(t) + multiset(sorted[|t|..]);
    assert x in multiset(sorted[|t|..]);
    assert x in sorted[|t|..];
  }

  /** A malformed entry anywhere in the batch is dropped and changes nothing else. */
  lemma MalformedEntryDropped(a: seq<(string, Record)>, key: string, rec: Record,
                              b: seq<(string, Record)>, limit: nat)
    requires ParseEntry(key, rec).Failure?
    ensures ParseHistory(a + [(key, rec)] + b, limit) == ParseHistory(a + b, limit)
  {
    var e := [(key, rec)];
    assert ParsedEntries(e) == [] by {
      assert e[1..] == [];
    }
    ParsedEntriesConcat(a, e);
    ParsedEntriesConcat(a + e, b);
    ParsedEntriesConcat(a, b);
    assert ParsedEntries(a + e + b) == ParsedEntries(a + b);
  }

  /**
   * `getUserDevices`: the values of `users/{uid}/devices` that are strings, in child
   * order; entries of any other shape are skipped.
   */
  function UserDeviceIds(children: seq<(string, IndexEntry)>): (r: seq<string>)
    ensures |r| <= |children|
    ensures forall i :: 0 <= i < |r| ==> exists j :: 0 <= j < |children| && children[j].1 == Leaf(Str(r[i]))
    ensures forall j :: 0 <= j < |children| && children[j].1.Leaf? && children[j].1.value.Str? ==>
      children[j].1.value.s in r
  {
    if children == [] then []
    else
      var rest := UserDeviceIds(children[1..]);
      if children[0].1.Leaf? && children[0].1.value.Str? then [children[0].1.value.s] + rest else rest
  }

  /** One child is listed iff it is a string, as that string. */
  lemma UserDeviceIdsOne(key: string, entry: IndexEntry)
    ensures UserDeviceIds([(key, entry)]) == if entry.Leaf? && entry.value.Str? then [entry.value.s] else []
  {
    assert [(key, entry)][1..] == [];
  }

  /** The list follows child order and keeps repeats: listing `a + b` lists `a`, then `b`. */
  lemma {:induction false} UserDeviceIdsConcat(a: seq<(string, IndexEntry)>, b: seq<(string, IndexEntry)>)
    ensures UserDeviceIds(a + b) == UserDeviceIds(a) + UserDeviceIds(b)
  {
    if a == [] {
      assert a + b == b;
    } else {
      assert (a + b)[0] == a[0];
      assert (a + b)[1..] == a[1..] + b;
      UserDeviceIdsConcat(a[1..], b);
    }
  }
}
