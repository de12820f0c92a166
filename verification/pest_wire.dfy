/**
  The wire format of pest control as a specification: what a packet's bytes are, and what the decoder makes of the
  bytes it has so far.
 */
module PestWire {
  import opened ByteTypes
  import opened PestPackets

  // --------------------------------------------------------------- numbers

  const LIMIT: nat := 0x1_0000_0000

  /** The four bytes of a number, the most significant first. */
  function BE(n: U32): (r: Bytes)
    ensures |r| == 4
  {
    [n / 0x100_0000, n / 0x1_0000 % 0x100, n / 0x100 % 0x100, n % 0x100]
  }

  function FromBE(b: Bytes): U32
    requires |b| == 4
  {
    b[0] as int * 0x100_0000 + b[1] as int * 0x1_0000 + b[2] as int * 0x100 + b[3] as int
  }

  lemma BEInverse(n: U32)
    ensures FromBE(BE(n)) == n
  {
    assert n / 0x100 == (n / 0x1_0000) * 0x100 + n / 0x100 % 0x100;
    assert n / 0x1_0000 == (n / 0x100_0000) * 0x100 + n / 0x1_0000 % 0x100;
  }

  lemma FromBEInverse(b: Bytes)
    requires |b| == 4
    ensures BE(FromBE(b)) == b
  {
    var n := FromBE(b);
    assert n / 0x100 == b[0] as int * 0x1_0000 + b[1] as int * 0x100 + b[2] as int;
    assert n / 0x1_0000 == b[0] as int * 0x100 + b[1] as int;
    assert n / 0x100_0000 == b[0] as int;
  }

  // ------------------------------------------------------------------ text

  predicate Trails(t: Text, i: nat) {
    i < |t| && 0x80 <= t[i] < 0xc0
  }

  /** The length of the first character in UTF-8 (RFC 3629, section 4), zero if there is none. */
  function CharLength(t: Text): (n: nat)
    ensures n <= |t|
  {
    if t == [] then 0
    else if t[0] < 0x80 then 1
    else if 0xc2 <= t[0] < 0xe0 && Trails(t, 1) then 2
    else if 0xe0 <= t[0] < 0xf0 && Trails(t, 1) && Trails(t, 2)
            && (t[0] == 0xe0 ==> t[1] >= 0xa0) && (t[0] == 0xed ==> t[1] < 0xa0) then 3
    else if 0xf0 <= t[0] < 0xf5 && Trails(t, 1) && Trails(t, 2) && Trails(t, 3)
            && (t[0] == 0xf0 ==> t[1] >= 0x90) && (t[0] == 0xf4 ==> t[1] < 0x90) then 4
    else 0
  }

  predicate IsUtf8(t: Text) {
    t == [] || (CharLength(t) > 0 && IsUtf8(t[CharLength(t)..]))
  }

  lemma {:induction false} AsciiIsUtf8(t: Text)
    requires forall b <- t :: b < 0x80
    ensures IsUtf8(t)
  {
    if t != [] {
      assert t[0] in t && forall b <- t[1..] :: b in t;
      AsciiIsUtf8(t[1..]);
    }
  }

  // ---------------------------------------------------------------- fields

  datatype Kind = NumKind | TextKind | ActionKind

  datatype Value = Num(n: U32) | Txt(t: Text) | Act(a: Action)

  function KindOf(v: Value): Kind {
    match v case Num(_) => NumKind case Txt(_) => TextKind case Act(_) => ActionKind
  }

  function ActionByte(a: Action): Byte {
    match a case Conserve => 0xa0 case Cull => 0x90
  }

  function ValueBytes(v: Value): (r: Bytes)
    ensures |r| > 0 && (v.Num? ==> |r| == 4) && (v.Act? ==> |r| == 1)
  {
    match v
    case Num(n) => BE(n)
    case Txt(t) => BE(|t| % LIMIT) + t
    case Act(a) => [ActionByte(a)]
  }

  function AllBytes(vs: seq<Value>): (r: Bytes)
    ensures |r| >= |vs|
  {
    if vs == [] then [] else ValueBytes(vs[0]) + AllBytes(vs[1..])
  }

  function Kinds(vs: seq<Value>): (r: seq<Kind>)
    ensures |r| == |vs| && forall i :: 0 <= i < |vs| ==> r[i] == KindOf(vs[i])
  {
    seq(|vs|, i requires 0 <= i < |vs| => KindOf(vs[i]))
  }

  /** A text that is one, and whose length fits its length field. */
  predicate Proper(v: Value) {
    v.Txt? ==> IsUtf8(v.t) && |v.t| < LIMIT
  }

  predicate AllProper(vs: seq<Value>) {
    forall i :: 0 <= i < |vs| ==> Proper(vs[i])
  }

  // --------------------------------------------------------------- packets

  function TargetValues(ts: seq<Target>): (r: seq<Value>)
    ensures |r| == 3 * |ts|
  {
    if ts == [] then [] else [Txt(ts[0].species), Num(ts[0].min), Num(ts[0].max)] + TargetValues(ts[1..])
  }

  function VisitValues(visits: seq<Visit>): (r: seq<Value>)
    ensures |r| == 2 * |visits|
  {
    if visits == [] then [] else [Txt(visits[0].species), Num(visits[0].count)] + VisitValues(visits[1..])
  }

  function TypeOf(p: Packet): Byte {
    match p
    case Hello(_, _) => 0x50
    case Error(_) => 0x51
    case Ok => 0x52
    case DialAuthority(_) => 0x53
    case TargetPopulations(_, _) => 0x54
    case CreatePolicy(_, _) => 0x55
    case DeletePolicy(_) => 0x56
    case PolicyResult(_) => 0x57
    case SiteVisit(_, _) => 0x58
  }

  function Values(p: Packet): seq<Value> {
    match p
    case Hello(protocol, version) => [Txt(protocol), Num(version)]
    case Error(message) => [Txt(message)]
    case Ok => []
    case DialAuthority(site) => [Num(site)]
    case TargetPopulations(site, ts) => [Num(site), Num(|ts| % LIMIT)] + TargetValues(ts)
    case CreatePolicy(species, action) => [Txt(species), Act(action)]
    case DeletePolicy(policy) => [Num(policy)]
    case PolicyResult(policy) => [Num(policy)]
    case SiteVisit(site, visits) => [Num(site), Num(|visits| % LIMIT)] + VisitValues(visits)
  }

  function Sum(s: Bytes): nat {
    if s == [] then 0 else Sum(s[..|s| - 1]) + s[|s| - 1]
  }

  /** The byte that brings a sum to a multiple of 256. */
  function Checksum(s: Bytes): Byte {
    (0x100 - Sum(s) % 0x100) % 0x100
  }

  function Unsealed(t: Byte, body: Bytes): Bytes {
    [t] + BE((|body| + 6) % LIMIT) + body
  }

  function Sealed(t: Byte, body: Bytes): (r: Bytes)
    ensures |r| == |body| + 6
  {
    Unsealed(t, body) + [Checksum(Unsealed(t, body))]
  }

  function Encode(p: Packet): (r: Bytes)
    ensures |r| >= 6
  {
    Sealed(TypeOf(p), AllBytes(Values(p)))
  }

  /** The packets the format can carry: their texts are texts, and their size fits the length field. */
  predicate Sendable(p: Packet) {
    |Encode(p)| < LIMIT && forall v <- Values(p) :: v.Txt? ==> IsUtf8(v.t)
  }

  // -------------------------------------------------------------- decoding

  /** Decoding text that is not UTF-8 aborts the reading task: here a fault like the others. */
  datatype Fault = UnknownPacket(byte: Byte) | InvalidPacket | InvalidChecksum | NotUtf8

  datatype Flow<+T> = Continue(value: T) | NeedMore | Failed(fault: Fault) {

    predicate IsFailure() {
      !Continue?
    }

    function PropagateFailure<U>(): Flow<U>
      requires !Continue?
    {
      if NeedMore? then NeedMore else Failed(fault)
    }

    function Extract(): T
      requires Continue?
    {
      value
    }
  }

  /** The length that the packet has declared, once it has. */
  datatype Declared = Unknown | Known(length: nat)

  predicate Over(d: Declared, end: nat) {
    d.Known? && end > d.length
  }

  function CheckU8(data: Bytes, cursor: nat, d: Declared): Flow<Byte> {
    if Over(d, cursor + 1) then Failed(InvalidPacket)
    else if |data| > cursor then Continue(data[cursor])
    else NeedMore
  }

  function CheckU32(data: Bytes, cursor: nat, d: Declared): Flow<U32> {
    if Over(d, cursor + 4) then Failed(InvalidPacket)
    else if |data| > cursor + 4 then Continue(FromBE(data[cursor..cursor + 4]))
    else NeedMore
  }

  function CheckText(data: Bytes, cursor: nat, d: Declared): Flow<Text> {
    var len :- CheckU32(data, cursor, d);
    if Over(d, cursor + 4 + len) then Failed(InvalidPacket)
    else if |data| > cursor + 4 + len then
      var t := data[cursor + 4..cursor + 4 + len];
      if IsUtf8(t) then Continue(t) else Failed(NotUtf8)
    else NeedMore
  }

  function CheckAction(data: Bytes, cursor: nat, d: Declared): Flow<Action> {
    var b :- CheckU8(data, cursor, d);
    if b == 0x90 then Continue(Cull) else if b == 0xa0 then Continue(Conserve) else Failed(InvalidPacket)
  }

  function CheckValue(data: Bytes, cursor: nat, d: Declared, kind: Kind): Flow<Value> {
    match kind
    case NumKind => var n :- CheckU32(data, cursor, d); Continue(Num(n))
    case TextKind => var t :- CheckText(data, cursor, d); Continue(Txt(t))
    case ActionKind => var a :- CheckAction(data, cursor, d); Continue(Act(a))
  }

  function CheckAll(data: Bytes, cursor: nat, d: Declared, kinds: seq<Kind>): Flow<seq<Value>>
    decreases |kinds|
  {
    if kinds == [] then Continue([])
    else
      var v :- CheckValue(data, cursor, d, kinds[0]);
      var vs :- CheckAll(data, cursor + |ValueBytes(v)|, d, kinds[1..]);
      Continue([v] + vs)
  }

  predicate IsType(t: Byte) {
    0x50 <= t <= 0x58
  }

  /** The fields every packet of a type has; those of an array come after its site and its count. */
  function Head(t: Byte): seq<Kind> {
    match t
    case 0x50 => [TextKind, NumKind]
    case 0x51 => [TextKind]
    case 0x52 => []
    case 0x55 => [TextKind, ActionKind]
    case 0x54 => [NumKind, NumKind]
    case 0x58 => [NumKind, NumKind]
    case _ => [NumKind]
  }

  function Element(t: Byte): seq<Kind> {
    match t
    case 0x54 => [TextKind, NumKind, NumKind]
    case 0x58 => [TextKind, NumKind]
    case _ => []
  }

  function Repeat(kinds: seq<Kind>, n: nat): seq<Kind> {
    if n == 0 then [] else kinds + Repeat(kinds, n - 1)
  }

  function NumAt(vs: seq<Value>, i: nat): U32 {
    if i < |vs| && vs[i].Num? then vs[i].n else 0
  }

  function TextAt(vs: seq<Value>, i: nat): Text {
    if i < |vs| && vs[i].Txt? then vs[i].t else []
  }

  function ActionAt(vs: seq<Value>, i: nat): Action {
    if i < |vs| && vs[i].Act? then vs[i].a else Conserve
  }

  /** How many elements follow the head. */
  function Count(t: Byte, head: seq<Value>): nat {
    if Element(t) == [] then 0 else NumAt(head, 1)
  }

  function TargetsOf(vs: seq<Value>): seq<Target> {
    if |vs| < 3 then [] else [Target(TextAt(vs, 0), NumAt(vs, 1), NumAt(vs, 2))] + TargetsOf(vs[3..])
  }

  function VisitsOf(vs: seq<Value>): seq<Visit> {
    if |vs| < 2 then [] else [Visit(TextAt(vs, 0), NumAt(vs, 1))] + VisitsOf(vs[2..])
  }

  function PacketOf(t: Byte, vs: seq<Value>): Packet {
    match t
    case 0x50 => Hello(TextAt(vs, 0), NumAt(vs, 1))
    case 0x51 => Error(TextAt(vs, 0))
    case 0x52 => Ok
    case 0x53 => DialAuthority(NumAt(vs, 0))
    case 0x54 => TargetPopulations(NumAt(vs, 0), TargetsOf(if |vs| < 2 then [] else vs[2..]))
    case 0x55 => CreatePolicy(TextAt(vs, 0), ActionAt(vs, 1))
    case 0x56 => DeletePolicy(NumAt(vs, 0))
    case 0x57 => PolicyResult(NumAt(vs, 0))
    case _ => SiteVisit(NumAt(vs, 0), VisitsOf(if |vs| < 2 then [] else vs[2..]))
  }

  /** The validated fields of a packet. */
  function CheckBody(data: Bytes, t: Byte, d: Declared): Flow<seq<Value>> {
    var head :- CheckAll(data, 5, d, Head(t));
    var more :- CheckAll(data, 5 + |AllBytes(head)|, d, Repeat(Element(t), Count(t, head)));
    Continue(head + more)
  }

  /** The checksum, over as much of the declared length as there is. */
  function CheckSum(data: Bytes, cursor: nat, length: nat): Flow<Byte> {
    var checksum :- CheckU8(data, cursor, Known(length));
    if Sum(if length <= |data| then data[..length] else data) % 0x100 != 0 then Failed(InvalidChecksum)
    else Continue(checksum)
  }

  /** The checks after the fields: the checksum, then the length itself. */
  function CheckEnd(data: Bytes, cursor: nat, length: nat): Flow<()> {
    var _ :- CheckSum(data, cursor, length);
    if length != cursor + 1 then Failed(InvalidPacket) else Continue(())
  }

  /** What the decoder makes of the bytes it has; it consumes bytes exactly when it continues. */
  function Decode(data: Bytes): Flow<Packet> {
    if data == [] then NeedMore
    else if !IsType(data[0]) then Failed(UnknownPacket(data[0]))
    else
      var length :- CheckU32(data, 1, Unknown);
      var values :- CheckBody(data, data[0], Known(length));
      var _ :- CheckEnd(data, 5 + |AllBytes(values)|, length);
      Continue(PacketOf(data[0], values))
  }
}
