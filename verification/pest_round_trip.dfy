/** The wire format of pest control loses nothing: decoding and encoding are each other's inverse. */
module PestRoundTrip {
  import opened ByteTypes
  import opened PestPackets
  import opened PestWire

  // ---------------------------------------------------------------- fields

  /** `data` holds these bytes at `cursor`. */
  predicate Holds(data: Bytes, cursor: nat, bytes: Bytes) {
    cursor + |bytes| <= |data| && data[cursor..cursor + |bytes|] == bytes
  }

  lemma HoldsParts(data: Bytes, cursor: nat, a: Bytes, b: Bytes)
    ensures Holds(data, cursor, a + b) <==> Holds(data, cursor, a) && Holds(data, cursor + |a|, b)
  {
    if cursor + |a| + |b| <= |data| {
      var s := data[cursor..cursor + |a + b|];
      assert s[..|a|] == data[cursor..cursor + |a|] && s[|a|..] == data[cursor + |a|..cursor + |a| + |b|];
      assert s == s[..|a|] + s[|a|..];
    }
  }

  /** A value that a packet can hold at `cursor`. */
  predicate Fits(data: Bytes, cursor: nat, d: Declared, v: Value) {
    Proper(v) && Holds(data, cursor, ValueBytes(v)) && !Over(d, cursor + |ValueBytes(v)|)
  }

  /** A validated field is exactly the bytes of its value, inside the declared length. */
  lemma CheckValueIff(data: Bytes, cursor: nat, d: Declared, kind: Kind, v: Value)
    ensures CheckValue(data, cursor, d, kind) == Continue(v) ==> KindOf(v) == kind && Fits(data, cursor, d, v)
    ensures KindOf(v) == kind && Fits(data, cursor, d, v) && cursor + |ValueBytes(v)| < |data| ==>
              CheckValue(data, cursor, d, kind) == Continue(v)
  {
    hide FromBE, BE, IsUtf8;
    match v
    case Num(n) => U32Iff(data, cursor, d, n);
    case Txt(t) => TextIff(data, cursor, d, t);
    case Act(a) => ActionIff(data, cursor, d, a);
  }

  lemma U32Iff(data: Bytes, cursor: nat, d: Declared, n: U32)
    ensures CheckU32(data, cursor, d) == Continue(n) <==>
      Holds(data, cursor, BE(n)) && !Over(d, cursor + 4) && cursor + 4 < |data|
  {
    hide FromBE, BE;
    BEInverse(n);
    if |data| > cursor + 4 {
      FromBEInverse(data[cursor..cursor + 4]);
    }
  }

  lemma TextIff(data: Bytes, cursor: nat, d: Declared, t: Text)
    ensures CheckText(data, cursor, d) == Continue(t) <==>
      Fits(data, cursor, d, Txt(t)) && cursor + 4 + |t| < |data|
  {
    hide FromBE, BE, IsUtf8, CheckU32, Holds;
    HoldsParts(data, cursor, BE(|t| % LIMIT), t);
    U32Iff(data, cursor, d, |t| % LIMIT);
    HoldsSlice(data, cursor + 4, t);
    if CheckU32(data, cursor, d).Continue? {
      U32Iff(data, cursor, d, CheckU32(data, cursor, d).value);
    }
  }

  lemma HoldsSlice(data: Bytes, cursor: nat, bytes: Bytes)
    ensures Holds(data, cursor, bytes) <==> cursor + |bytes| <= |data| && data[cursor..cursor + |bytes|] == bytes
  {
  }

  lemma ActionIff(data: Bytes, cursor: nat, d: Declared, a: Action)
    ensures CheckAction(data, cursor, d) == Continue(a) <==> Fits(data, cursor, d, Act(a))
  {
    if cursor + 1 <= |data| {
      assert data[cursor..cursor + 1] == [data[cursor]];
    }
  }

  /** The values that a packet can hold at `cursor`, one after the other. */
  predicate AllFit(data: Bytes, cursor: nat, d: Declared, vs: seq<Value>) {
    AllProper(vs) && Holds(data, cursor, AllBytes(vs)) && !Over(d, cursor + |AllBytes(vs)|)
  }

  lemma OneMoreFits(data: Bytes, cursor: nat, d: Declared, v: Value, vs: seq<Value>)
    requires Fits(data, cursor, d, v) && AllFit(data, cursor + |ValueBytes(v)|, d, vs)
    ensures AllFit(data, cursor, d, [v] + vs)
  {
    hide ValueBytes, Proper, Over;
    assert ([v] + vs)[1..] == vs;
    HoldsParts(data, cursor, ValueBytes(v), AllBytes(vs));
  }

  lemma {:induction false} CheckAllSound(data: Bytes, cursor: nat, d: Declared, kinds: seq<Kind>)
    requires cursor <= |data| && CheckAll(data, cursor, d, kinds).Continue? && !Over(d, cursor)
    ensures var vs := CheckAll(data, cursor, d, kinds).value;
      Kinds(vs) == kinds && AllFit(data, cursor, d, vs)
    decreases |kinds|
  {
    hide ValueBytes, CheckValue, Proper, Over;
    if kinds != [] {
      hide AllFit;
      var v := CheckValue(data, cursor, d, kinds[0]).value;
      CheckValueIff(data, cursor, d, kinds[0], v);
      CheckAllSound(data, cursor + |ValueBytes(v)|, d, kinds[1..]);
      OneMoreFits(data, cursor, d, v, CheckAll(data, cursor + |ValueBytes(v)|, d, kinds[1..]).value);
    }
  }

  lemma {:induction false} CheckAllComplete(data: Bytes, cursor: nat, d: Declared, vs: seq<Value>)
    requires AllProper(vs) && Holds(data, cursor, AllBytes(vs))
    requires cursor + |AllBytes(vs)| < |data| && !Over(d, cursor + |AllBytes(vs)|)
    ensures CheckAll(data, cursor, d, Kinds(vs)) == Continue(vs)
    decreases |vs|
  {
    hide ValueBytes, CheckValue, Proper;
    if vs != [] {
      var rest := vs[1..];
      HoldsParts(data, cursor, ValueBytes(vs[0]), AllBytes(rest));
      CheckValueIff(data, cursor, d, KindOf(vs[0]), vs[0]);
      CheckAllComplete(data, cursor + |ValueBytes(vs[0])|, d, rest);
      assert Kinds(vs)[1..] == Kinds(rest);
      assert vs == [vs[0]] + rest;
    }
  }

  // --------------------------------------------------------------- packets

  lemma {:induction false} KindsAppend(a: seq<Value>, b: seq<Value>)
    ensures Kinds(a + b) == Kinds(a) + Kinds(b)
  {
    assert forall i :: 0 <= i < |a + b| ==> Kinds(a + b)[i] == (Kinds(a) + Kinds(b))[i];
  }

  lemma {:induction false} AllBytesAppend(a: seq<Value>, b: seq<Value>)
    ensures AllBytes(a + b) == AllBytes(a) + AllBytes(b)
  {
    if a == [] {
      assert a + b == b;
    } else {
      assert (a + b)[1..] == a[1..] + b;
      AllBytesAppend(a[1..], b);
    }
  }

  lemma {:induction false} TargetsThere(ts: seq<Target>)
    ensures Kinds(TargetValues(ts)) == Repeat(Element(0x54), |ts|)
    ensures TargetsOf(TargetValues(ts)) == ts
  {
    hide Kinds;
    if ts != [] {
      TargetsThere(ts[1..]);
      var one := [Txt(ts[0].species), Num(ts[0].min), Num(ts[0].max)];
      KindsAppend(one, TargetValues(ts[1..]));
      assert Kinds(one) == Element(0x54);
      assert TargetValues(ts)[3..] == TargetValues(ts[1..]);
    } else {
      assert Kinds([]) == [];
    }
  }

  lemma FirstTargetKinds(vs: seq<Value>, n: nat)
    requires n > 0 && Kinds(vs) == Repeat(Element(0x54), n)
    ensures |vs| >= 3 && vs[0].Txt? && vs[1].Num? && vs[2].Num?
    ensures Kinds(vs[3..]) == Repeat(Element(0x54), n - 1)
  {
    hide Kinds;
    var kinds, more := Element(0x54), Repeat(Element(0x54), n - 1);
    assert Kinds(vs) == kinds + more;
    assert (kinds + more)[3..] == more;
    assert Kinds(vs[3..]) == Kinds(vs)[3..];
    assert KindOf(vs[0]) == kinds[0] && KindOf(vs[1]) == kinds[1] && KindOf(vs[2]) == kinds[2];
  }

  lemma {:induction false} TargetsBack(vs: seq<Value>, n: nat)
    requires Kinds(vs) == Repeat(Element(0x54), n)
    ensures TargetValues(TargetsOf(vs)) == vs && |TargetsOf(vs)| == n
  {
    hide Kinds, Repeat, Element;
    if n > 0 {
      FirstTargetKinds(vs, n);
      TargetsBack(vs[3..], n - 1);
      assert vs == [vs[0], vs[1], vs[2]] + vs[3..];
    } else {
      RepeatNone(Element(0x54));
    }
  }

  lemma {:induction false} VisitsThere(visits: seq<Visit>)
    ensures Kinds(VisitValues(visits)) == Repeat(Element(0x58), |visits|)
    ensures VisitsOf(VisitValues(visits)) == visits
  {
    hide Kinds;
    if visits != [] {
      VisitsThere(visits[1..]);
      var one := [Txt(visits[0].species), Num(visits[0].count)];
      KindsAppend(one, VisitValues(visits[1..]));
      assert Kinds(one) == Element(0x58);
      assert VisitValues(visits)[2..] == VisitValues(visits[1..]);
    } else {
      assert Kinds([]) == [];
    }
  }

  lemma FirstVisitKinds(vs: seq<Value>, n: nat)
    requires n > 0 && Kinds(vs) == Repeat(Element(0x58), n)
    ensures |vs| >= 2 && vs[0].Txt? && vs[1].Num?
    ensures Kinds(vs[2..]) == Repeat(Element(0x58), n - 1)
  {
    hide Kinds;
    var kinds, more := Element(0x58), Repeat(Element(0x58), n - 1);
    assert Kinds(vs) == kinds + more;
    assert (kinds + more)[2..] == more;
    assert Kinds(vs[2..]) == Kinds(vs)[2..];
    assert KindOf(vs[0]) == kinds[0] && KindOf(vs[1]) == kinds[1];
  }

  lemma {:induction false} VisitsBack(vs: seq<Value>, n: nat)
    requires Kinds(vs) == Repeat(Element(0x58), n)
    ensures VisitValues(VisitsOf(vs)) == vs && |VisitsOf(vs)| == n
  {
    hide Kinds, Repeat, Element;
    if n > 0 {
      FirstVisitKinds(vs, n);
      VisitsBack(vs[2..], n - 1);
      assert vs == [vs[0], vs[1]] + vs[2..];
    } else {
      RepeatNone(Element(0x58));
    }
  }

  lemma RepeatNone(kinds: seq<Kind>)
    ensures Repeat(kinds, 0) == []
  {
  }

  lemma {:induction false} RepeatLength(kinds: seq<Kind>, n: nat)
    ensures |Repeat(kinds, n)| == n * |kinds|
  {
    if n > 0 {
      RepeatLength(kinds, n - 1);
      assert n * |kinds| == |kinds| + (n - 1) * |kinds|;
    }
  }

  function HeadOf(p: Packet): seq<Value> {
    match p
    case TargetPopulations(_, _) => Values(p)[..2]
    case SiteVisit(_, _) => Values(p)[..2]
    case _ => Values(p)
  }

  function TailOf(p: Packet): seq<Value> {
    match p
    case TargetPopulations(_, ts) => TargetValues(ts)
    case SiteVisit(_, visits) => VisitValues(visits)
    case _ => []
  }

  /** The number of elements, as long as it fits its field. */
  predicate FewElements(p: Packet) {
    match p
    case TargetPopulations(_, ts) => |ts| < LIMIT
    case SiteVisit(_, visits) => |visits| < LIMIT
    case _ => true
  }

  /** The packet is its values, in the shape of its type. */
  predicate Shaped(p: Packet) {
    var t := TypeOf(p);
    && Values(p) == HeadOf(p) + TailOf(p)
    && Kinds(HeadOf(p)) == Head(t)
    && Kinds(TailOf(p)) == Repeat(Element(t), Count(t, HeadOf(p)))
    && PacketOf(t, Values(p)) == p
  }

  lemma ShapeThere(p: Packet)
    requires FewElements(p)
    ensures Shaped(p)
  {
    hide Shaped;
    match p
    case TargetPopulations(site, ts) => TargetsShape(site, ts);
    case SiteVisit(site, visits) => VisitsShape(site, visits);
    case _ => PlainShape(p);
  }

  lemma TargetsShape(site: U32, ts: seq<Target>)
    requires |ts| < LIMIT
    ensures Shaped(TargetPopulations(site, ts))
  {
    hide TargetValues, TargetsOf, Repeat;
    TargetsThere(ts);
    assert Values(TargetPopulations(site, ts))[2..] == TargetValues(ts);
  }

  lemma VisitsShape(site: U32, visits: seq<Visit>)
    requires |visits| < LIMIT
    ensures Shaped(SiteVisit(site, visits))
  {
    hide VisitValues, VisitsOf, Repeat;
    VisitsThere(visits);
    assert Values(SiteVisit(site, visits))[2..] == VisitValues(visits);
  }

  lemma PlainShape(p: Packet)
    requires !p.TargetPopulations? && !p.SiteVisit?
    ensures Shaped(p)
  {
    hide TargetValues, VisitValues, TargetsOf, VisitsOf;
    assert Values(p) + [] == Values(p);
  }

  /** Values in the shape of a type are a packet's. */
  lemma ShapeBack(t: Byte, head: seq<Value>, tail: seq<Value>)
    requires IsType(t) && Kinds(head) == Head(t) && Kinds(tail) == Repeat(Element(t), Count(t, head))
    ensures var p := PacketOf(t, head + tail); TypeOf(p) == t && Values(p) == head + tail
  {
    hide TargetValues, VisitValues, TargetsOf, VisitsOf, Repeat;
    assert forall i :: 0 <= i < |head| ==> KindOf(head[i]) == Head(t)[i];
    if t == 0x54 {
      TargetsBack(tail, Count(t, head));
      assert (head + tail)[2..] == tail;
    } else if t == 0x58 {
      VisitsBack(tail, Count(t, head));
      assert (head + tail)[2..] == tail;
    } else {
      RepeatLength(Element(t), Count(t, head));
      assert head + tail == head;
    }
  }

  // -------------------------------------------------------- whole packets

  lemma {:induction false} ValueInside(vs: seq<Value>, i: nat)
    requires i < |vs|
    ensures |ValueBytes(vs[i])| <= |AllBytes(vs)|
  {
    hide ValueBytes;
    if i > 0 {
      ValueInside(vs[1..], i - 1);
    }
  }

  /** A packet whose size fits the length field has texts and arrays that fit theirs. */
  lemma SendableFits(p: Packet)
    requires Sendable(p)
    ensures AllProper(Values(p)) && FewElements(p)
  {
    hide AllBytes, IsUtf8;
    var vs := Values(p);
    forall i | 0 <= i < |vs| ensures Proper(vs[i]) {
      ValueInside(vs, i);
    }
  }

  /** The parts of an encoded packet, where they lie. */
  lemma EncodedParts(data: Bytes, p: Packet)
    ensures Holds(data, 0, Encode(p)) <==>
      var body := AllBytes(Values(p));
      && Holds(data, 0, [TypeOf(p)])
      && Holds(data, 1, BE(|Encode(p)| % LIMIT))
      && Holds(data, 5, body)
      && Holds(data, 5 + |body|, [Checksum(Unsealed(TypeOf(p), body))])
  {
    hide Holds, BE, AllBytes, Values, TypeOf, Checksum;
    var t, body := TypeOf(p), AllBytes(Values(p));
    var length, last := BE((|body| + 6) % LIMIT), [Checksum(Unsealed(t, body))];
    HoldsParts(data, 0, [t] + length + body, last);
    HoldsParts(data, 0, [t] + length, body);
    HoldsParts(data, 0, [t], length);
  }

  lemma ChecksumCompletes(s: Bytes, b: Byte)
    ensures Sum(s + [b]) % 0x100 == 0 <==> b == Checksum(s)
  {
    assert (s + [b])[..|s|] == s;
    assert Sum(s + [b]) == Sum(s) + b;
  }

  /** A packet's bytes sum to 0 modulo 256, and the length it declares is their number. */
  lemma EncodedExact(p: Packet)
    requires Sendable(p)
    ensures Sum(Encode(p)) % 0x100 == 0
    ensures FromBE(Encode(p)[1..5]) == |Encode(p)|
  {
    hide AllBytes, Values, TypeOf, BE, FromBE, Sum, Checksum;
    var front := Unsealed(TypeOf(p), AllBytes(Values(p)));
    ChecksumCompletes(front, Checksum(front));
    BEInverse(|Encode(p)|);
    assert Encode(p)[1..5] == BE(|Encode(p)|);
  }

  /** The end of a packet is right exactly if it is where the length says and completes the sum. */
  lemma CheckEndIff(data: Bytes, cursor: nat, length: nat)
    requires cursor < |data|
    ensures CheckEnd(data, cursor, length).Continue? <==>
            length == cursor + 1 && data[cursor] == Checksum(data[..cursor])
  {
    if length == cursor + 1 {
      ChecksumCompletes(data[..cursor], data[cursor]);
      assert data[..cursor] + [data[cursor]] == data[..length];
    }
  }

  lemma CheckBodyComplete(data: Bytes, p: Packet, d: Declared)
    requires Shaped(p) && AllProper(Values(p)) && Holds(data, 5, AllBytes(Values(p)))
    requires var end := 5 + |AllBytes(Values(p))|; end < |data| && !Over(d, end)
    ensures CheckBody(data, TypeOf(p), d) == Continue(Values(p))
  {
    hide AllBytes, Holds, Kinds, CheckAll, PacketOf, Values, HeadOf, TailOf, Proper, Head, Element, Repeat;
    var head, tail := HeadOf(p), TailOf(p);
    AllBytesAppend(head, tail);
    HoldsParts(data, 5, AllBytes(head), AllBytes(tail));
    assert AllProper(head) by {
      assert forall i :: 0 <= i < |head| ==> head[i] == Values(p)[i];
    }
    assert AllProper(tail) by {
      assert forall i :: 0 <= i < |tail| ==> tail[i] == Values(p)[|head| + i];
    }
    CheckAllComplete(data, 5, d, head);
    CheckAllComplete(data, 5 + |AllBytes(head)|, d, tail);
  }

  /** The encoding of a packet decodes to the packet, whatever follows it. */
  lemma DecodeComplete(data: Bytes, p: Packet)
    requires Sendable(p) && Holds(data, 0, Encode(p))
    ensures Decode(data) == Continue(p)
  {
    hide Holds, BE, AllBytes, Values, Checksum, CheckU32, CheckBody, CheckEnd, PacketOf, Shaped, AllProper;
    var t, body := TypeOf(p), AllBytes(Values(p));
    var length, cursor := |Encode(p)|, 5 + |body|;
    SendableFits(p);
    ShapeThere(p);
    EncodedParts(data, p);
    HoldsByte(data, 0, t);
    HoldsByte(data, cursor, Checksum(Unsealed(t, body)));
    U32Iff(data, 1, Unknown, length);
    CheckBodyComplete(data, p, Known(length));
    EncodedFront(data, p);
    CheckEndIff(data, cursor, length);
    ShapedIsPacket(p);
  }

  lemma ShapedIsPacket(p: Packet)
    requires Shaped(p)
    ensures PacketOf(TypeOf(p), Values(p)) == p
  {
  }

  lemma HoldsByte(data: Bytes, cursor: nat, b: Byte)
    ensures Holds(data, cursor, [b]) <==> cursor < |data| && data[cursor] == b
  {
    if cursor < |data| {
      assert data[cursor..cursor + 1] == [data[cursor]];
    }
  }

  lemma EncodedFront(data: Bytes, p: Packet)
    requires Holds(data, 0, Encode(p))
    ensures |Encode(p)| <= |data|
    ensures data[..|Encode(p)| - 1] == Unsealed(TypeOf(p), AllBytes(Values(p)))
  {
    hide AllBytes, Values, TypeOf, BE, Checksum;
    var s := data[0..|Encode(p)|];
    assert s[..|s| - 1] == data[..|s| - 1];
  }

  lemma CheckBodySound(data: Bytes, t: Byte, d: Declared)
    requires |data| >= 5 && IsType(t) && CheckBody(data, t, d).Continue? && !Over(d, 5)
    ensures var vs := CheckBody(data, t, d).value;
      && AllFit(data, 5, d, vs)
      && TypeOf(PacketOf(t, vs)) == t && Values(PacketOf(t, vs)) == vs
  {
    hide AllBytes, Kinds, CheckAll, PacketOf, Values, Proper, Head, Element, Repeat, Over, TypeOf, Count;
    var head := CheckAll(data, 5, d, Head(t)).value;
    CheckAllSound(data, 5, d, Head(t));
    var cursor := 5 + |AllBytes(head)|;
    var tail := CheckAll(data, cursor, d, Repeat(Element(t), Count(t, head))).value;
    CheckAllSound(data, cursor, d, Repeat(Element(t), Count(t, head)));
    AllBytesAppend(head, tail);
    HoldsParts(data, 5, AllBytes(head), AllBytes(tail));
    ShapeBack(t, head, tail);
  }

  /** What decodes is the encoding of the packet that comes out, and that packet is one the format can carry. */
  lemma DecodeSound(data: Bytes, p: Packet)
    ensures Decode(data) == Continue(p) ==> Sendable(p) && Holds(data, 0, Encode(p))
  {
    hide Holds, BE, AllBytes, Values, Checksum, CheckU32, CheckBody, CheckEnd, PacketOf, AllProper, IsUtf8;
    if Decode(data) == Continue(p) {
      var t, length := data[0], CheckU32(data, 1, Unknown).value;
      U32Iff(data, 1, Unknown, length);
      BodyAfterHeader(data, t, length);
      CheckBodySound(data, t, Known(length));
      var body := AllBytes(Values(p));
      var cursor := 5 + |body|;
      EndChecked(data, cursor, length);
      CheckEndIff(data, cursor, length);
      HoldsByte(data, 0, t);
      FrontOf(data, t, length, body);
      HoldsByte(data, cursor, Checksum(Unsealed(t, body)));
      EncodedParts(data, p);
      ProperTexts(Values(p));
    }
  }

  lemma ProperTexts(vs: seq<Value>)
    requires AllProper(vs)
    ensures forall v <- vs :: v.Txt? ==> IsUtf8(v.t)
  {
    hide IsUtf8;
  }

  lemma EndChecked(data: Bytes, cursor: nat, length: nat)
    requires CheckEnd(data, cursor, length).Continue?
    ensures cursor < |data|
  {
    hide Sum;
  }

  /** Past the header, a body is only accepted within a declared length that covers the header. */
  lemma BodyAfterHeader(data: Bytes, t: Byte, length: nat)
    requires CheckBody(data, t, Known(length)).Continue?
    requires CheckEnd(data, 5 + |AllBytes(CheckBody(data, t, Known(length)).value)|, length).Continue?
    ensures !Over(Known(length), 5)
  {
    hide AllBytes, CheckBody, Sum;
  }

  lemma FrontOf(data: Bytes, t: Byte, length: U32, body: Bytes)
    requires Holds(data, 0, [t]) && Holds(data, 1, BE(length)) && Holds(data, 5, body) && length == |body| + 6
    ensures 5 + |body| <= |data| && data[..5 + |body|] == Unsealed(t, body)
  {
    hide BE;
    HoldsParts(data, 0, [t], BE(length));
    HoldsParts(data, 0, [t] + BE(length), body);
  }

  /** Decoding yields a packet exactly if the bytes begin with its encoding. */
  lemma DecodeIff(data: Bytes, p: Packet)
    ensures Decode(data) == Continue(p) <==> Sendable(p) && Encode(p) <= data
  {
    hide Decode, Sendable, Encode;
    DecodeSound(data, p);
    assert Encode(p) <= data <==> Holds(data, 0, Encode(p));
    if Sendable(p) && Holds(data, 0, Encode(p)) {
      DecodeComplete(data, p);
    }
  }

  // ---------------------------------------------------------------- faults

  /** Bytes that are an encoding up to the checksum, but with another byte in its place, are refused for that. */
  lemma WrongChecksum(p: Packet, data: Bytes)
    requires Sendable(p) && |Encode(p)| <= |data|
    requires data[..|Encode(p)| - 1] == Encode(p)[..|Encode(p)| - 1] && data[|Encode(p)| - 1] != Encode(p)[|Encode(p)| - 1]
    ensures Decode(data) == Failed(InvalidChecksum)
  {
    hide Holds, BE, AllBytes, Values, Checksum, CheckU32, CheckBody, CheckEnd, PacketOf, Shaped, AllProper;
    var t, body := TypeOf(p), AllBytes(Values(p));
    var length, cursor := |Encode(p)|, 5 + |body|;
    SendableFits(p);
    ShapeThere(p);
    FrontParts(data, p);
    HoldsByte(data, 0, t);
    U32Iff(data, 1, Unknown, length);
    CheckBodyComplete(data, p, Known(length));
    WrongEnd(data, cursor, p);
  }

  lemma FrontParts(data: Bytes, p: Packet)
    requires |Encode(p)| < LIMIT && |Encode(p)| <= |data| && data[..|Encode(p)| - 1] == Encode(p)[..|Encode(p)| - 1]
    ensures Holds(data, 0, [TypeOf(p)]) && Holds(data, 1, BE(|Encode(p)|)) && Holds(data, 5, AllBytes(Values(p)))
    ensures 5 + |AllBytes(Values(p))| == |Encode(p)| - 1
  {
    hide AllBytes, Values, TypeOf, BE, Checksum;
    var fixed := data[..|Encode(p)| - 1] + [Encode(p)[|Encode(p)| - 1]];
    assert fixed == Encode(p);
    var front := Unsealed(TypeOf(p), AllBytes(Values(p)));
    assert data[..|front|] == front;
    assert data[0..1] == front[0..1] && data[1..5] == front[1..5] && data[5..|front|] == front[5..];
  }

  lemma WrongEnd(data: Bytes, cursor: nat, p: Packet)
    requires |Encode(p)| <= |data| && cursor == |Encode(p)| - 1
    requires data[..cursor] == Encode(p)[..cursor] && data[cursor] != Encode(p)[cursor]
    ensures CheckEnd(data, cursor, cursor + 1) == Failed(InvalidChecksum)
  {
    hide AllBytes, Values, TypeOf, BE, Sum;
    var front := Unsealed(TypeOf(p), AllBytes(Values(p)));
    assert Encode(p)[..cursor] == front;
    ChecksumCompletes(front, data[cursor]);
    assert data[..cursor + 1] == front + [data[cursor]];
  }

  /** An unknown packet is one whose first byte is not from 0x50 to 0x58; the byte is reported. */
  lemma UnknownIff(data: Bytes, b: Byte)
    ensures Decode(data) == Failed(UnknownPacket(b)) <==> data != [] && data[0] == b && !(0x50 <= b <= 0x58)
  {
    if data != [] && IsType(data[0]) {
      hide CheckAll, Sum, AllBytes, Repeat, Head, Element, Count, PacketOf;
      forall cursor: nat, d: Declared, kinds: seq<Kind>
        ensures CheckAll(data, cursor, d, kinds) != Failed(UnknownPacket(b))
      {
        KnownFaults(data, cursor, d, kinds, b);
      }
    }
  }

  lemma {:induction false} KnownFaults(data: Bytes, cursor: nat, d: Declared, kinds: seq<Kind>, b: Byte)
    ensures CheckAll(data, cursor, d, kinds) != Failed(UnknownPacket(b))
    decreases |kinds|
  {
    hide IsUtf8, FromBE, ValueBytes;
    if kinds != [] && CheckValue(data, cursor, d, kinds[0]).Continue? {
      KnownFaults(data, cursor + |ValueBytes(CheckValue(data, cursor, d, kinds[0]).value)|, d, kinds[1..], b);
    }
  }
}
