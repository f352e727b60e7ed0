/**
 * The remote store as plain values: the `devicePairing`, `devices` and `users` subtrees,
 * the typed reads the client performs on them, and the individual writes it issues.
 * A node that does not exist is an empty record; children arrive in the store's order.
 */
module RemoteTree {
  import opened Wrappers
  import opened Text

  /**
   * A leaf value as the client library hands it over: integral numbers arrive as
   * `Long`, fractional ones as `Double`.
   */
  datatype Field = Long(n: int) | Double(r: real) | Bool(b: bool) | Str(s: string)

  /** A node whose children are leaves. */
  type Record = map<string, Field>

  /** A child of `users/{uid}/devices`: a bare device id, or a record of fields. */
  datatype IndexEntry = Leaf(value: Field) | Node(fields: Record)

  /** `devices/{deviceId}`. */
  datatype DeviceNode = DeviceNode(
    deviceInfo: Record,
    current: Record,
    settings: Record,
    commands: Record,
    history: seq<(string, Record)>)

  function EmptyDevice(): DeviceNode {
    DeviceNode(map[], map[], map[], map[], [])
  }

  /** The whole remote tree. */
  datatype Tree = Tree(
    devicePairing: map<string, Record>,
    devices: map<string, DeviceNode>,
    users: map<string, map<string, IndexEntry>>)

  function PairingRecord(t: Tree, code: string): Record {
    if code in t.devicePairing then t.devicePairing[code] else map[]
  }

  function Device(t: Tree, deviceId: string): DeviceNode {
    if deviceId in t.devices then t.devices[deviceId] else EmptyDevice()
  }

  function UserIndex(t: Tree, userId: string): map<string, IndexEntry> {
    if userId in t.users then t.users[userId] else map[]
  }

  /** The message a failed typed read carries. */
  const ConversionError: string := "Failed to convert value"

  /** The named child read as a number is `v`; an absent child reads as `default`. */
  predicate NumberOrDefault(cur: Record, name: string, default: real, v: real) {
    if name !in cur then v == default
    else (cur[name].Long? && v == cur[name].n as real) || (cur[name].Double? && v == cur[name].r)
  }

  /**
   * `child(name).getValue(Float::class.java) ?: default`: a missing child gives the
   * default, a number gives its value, anything else cannot be converted.
   */
  function ReadFloat(rec: Record, name: string, default: real): (r: Result<real, string>)
    ensures r.Success? <==> name !in rec || rec[name].Long? || rec[name].Double?
    ensures r.Success? ==> NumberOrDefault(rec, name, default, r.value)
  {
    if name !in rec then Success(default)
    else match rec[name]
      case Long(n) => Success(n as real)
      case Double(r) => Success(r)
      case _ => Failure(ConversionError)
  }

  /** Truncation toward zero of a `Double` narrowed to `long`. */
  function TruncateToLong(r: real): int {
    if r >= 0.0 then r.Floor else -((-r).Floor)
  }

  /** `child(name).getValue(Long::class.java) ?: default`. */
  function ReadLong(rec: Record, name: string, default: int): (r: Result<int, string>)
    ensures name !in rec ==> r == Success(default)
    ensures name in rec && rec[name].Long? ==> r == Success(rec[name].n)
    ensures name in rec && rec[name].Double? ==>
      && (r.Success? <==> IsLong(TruncateToLong(rec[name].r)))
      && (r.Success? ==> r.value == TruncateToLong(rec[name].r))
    ensures name in rec && (rec[name].Bool? || rec[name].Str?) ==> r.Failure?
  {
    if name !in rec then Success(default)
    else match rec[name]
      case Long(n) => Success(n)
      case Double(r) =>
        if IsLong(TruncateToLong(r)) then Success(TruncateToLong(r)) else Failure(ConversionError)
      case _ => Failure(ConversionError)
  }

  /** `child(name).getValue(Boolean::class.java) ?: default`. */
  function ReadBool(rec: Record, name: string, default: bool): (r: Result<bool, string>)
    ensures r.Success? <==> name !in rec || rec[name].Bool?
    ensures r.Success? ==> r.value == (if name in rec then rec[name].b else default)
  {
    if name !in rec then Success(default)
    else match rec[name]
      case Bool(b) => Success(b)
      case _ => Failure(ConversionError)
  }

  /** `child(name).getValue(String::class.java) ?: default`. */
  function ReadString(rec: Record, name: string, default: string): Result<string, string> {
    if name !in rec then Success(default)
    else match rec[name]
      case Str(s) => Success(s)
      case _ => Failure(ConversionError)
  }

  /** Kotlin `child(name).value as? String`: null unless the value is a string. */
  function AsString(rec: Record, name: string): Option<string> {
    if name in rec && rec[name].Str? then Some(rec[name].s) else None
  }

  /** Kotlin `child(name).value as? Boolean`. */
  function AsBool(rec: Record, name: string): Option<bool> {
    if name in rec && rec[name].Bool? then Some(rec[name].b) else None
  }

  /** Kotlin `child(name).value as? Long`: a fractional number is not a `Long`. */
  function AsLong(rec: Record, name: string): Option<int> {
    if name in rec && rec[name].Long? then Some(rec[name].n) else None
  }

  /** One `setValue` or `removeValue` on a path of the tree. */
  datatype Write =
    | SetInfoField(deviceId: string, name: string, value: Field)
    | RemoveInfoField(deviceId: string, name: string)
    | SetCodeField(code: string, name: string, value: Field)
    | SetIndexEntry(userId: string, key: string, entry: IndexEntry)
    | RemoveIndexEntry(userId: string, key: string)
    | SetCommands(deviceId: string, command: Record)

  function Apply(t: Tree, w: Write): Tree {
    match w
    case SetInfoField(id, name, v) =>
      var d := Device(t, id);
      t.(devices := t.devices[id := d.(deviceInfo := d.deviceInfo[name := v])])
    case RemoveInfoField(id, name) =>
      if id in t.devices then
        var d := t.devices[id];
        t.(devices := t.devices[id := d.(deviceInfo := d.deviceInfo - {name})])
      else t
    case SetCodeField(code, name, v) =>
      t.(devicePairing := t.devicePairing[code := PairingRecord(t, code)[name := v]])
    case SetIndexEntry(uid, key, e) =>
      t.(users := t.users[uid := UserIndex(t, uid)[key := e]])
    case RemoveIndexEntry(uid, key) =>
      if uid in t.users then t.(users := t.users[uid := t.users[uid] - {key}]) else t
    case SetCommands(id, c) =>
      var d := Device(t, id);
      t.(devices := t.devices[id := d.(commands := c)])
  }

  /** The writes of `ws`, one after the other. */
  function ApplyAll(t: Tree, ws: seq<Write>): Tree
    decreases |ws|
  {
    if ws == [] then t else ApplyAll(Apply(t, ws[0]), ws[1..])
  }

  lemma {:induction false} ApplyAllAppend(t: Tree, ws: seq<Write>, w: Write)
    ensures ApplyAll(t, ws + [w]) == Apply(ApplyAll(t, ws), w)
    decreases |ws|
  {
    if ws != [] {
      assert (ws + [w])[1..] == ws[1..] + [w];
      ApplyAllAppend(Apply(t, ws[0]), ws[1..], w);
    }
  }
}
