/** Reading and writing the packets without an array. */
module PestPlainPackets {
  import opened ByteTypes
  import opened PestPackets
  import opened PestWire
  import opened PestRoundTrip
  import opened PestCodec

  // ------------------------------------------- bodies without an array

  lemma TwoValues(a: Value, b: Value)
    ensures AllBytes([a, b]) == ValueBytes(a) + ValueBytes(b)
  {
    hide ValueBytes;
    OneValue(b);
    assert [a, b][1..] == [b];
  }

  lemma OneValue(a: Value)
    ensures AllBytes([a]) == ValueBytes(a)
  {
    hide ValueBytes;
    assert ValueBytes(a) + [] == ValueBytes(a);
  }

  /** Bodies of one field and of two. */
  lemma OneField(data: Bytes, cursor: nat, d: Declared, k: Kind)
    ensures CheckAll(data, cursor, d, [k]) == (var a :- CheckValue(data, cursor, d, k); Continue([a]))
  {
    hide CheckValue, ValueBytes;
    var a := CheckValue(data, cursor, d, k);
    if a.Continue? {
      assert [a.value] + [] == [a.value];
    }
  }

  lemma TwoFields(data: Bytes, cursor: nat, d: Declared, k: Kind, l: Kind)
    ensures CheckAll(data, cursor, d, [k, l]) ==
      (var a :- CheckValue(data, cursor, d, k);
       var b :- CheckValue(data, cursor + |ValueBytes(a)|, d, l);
       Continue([a, b]))
  {
    hide CheckValue, ValueBytes;
    assert [k, l][1..] == [l];
    var a := CheckValue(data, cursor, d, k);
    if a.Continue? {
      OneField(data, cursor + |ValueBytes(a.value)|, d, l);
      var b := CheckValue(data, cursor + |ValueBytes(a.value)|, d, l);
      assert b.Continue? ==> [a.value] + [b.value] == [a.value, b.value];
    }
  }

  lemma PlainBody(data: Bytes, t: Byte, d: Declared)
    requires Element(t) == []
    ensures CheckBody(data, t, d) == CheckAll(data, 5, d, Head(t))
  {
    hide CheckAll;
    var head := CheckAll(data, 5, d, Head(t));
    if head.Continue? {
      NoFields(data, 5 + |AllBytes(head.value)|, d);
      assert head.value + [] == head.value;
    }
  }

  lemma NoFields(data: Bytes, cursor: nat, d: Declared)
    ensures CheckAll(data, cursor, d, []) == Continue([])
  {
  }

  /** What is left of the bytes after one decoding. */
  function After(data: Bytes): Bytes {
    match Decode(data)
    case Continue(p) => (DecodeIff(data, p); data[|Encode(p)|..])
    case _ => data
  }

  /** A decoded packet is there to be split off. */
  lemma SplitOff(data: Bytes, p: Packet, n: nat)
    requires Decode(data) == Continue(p) && n == |AllBytes(Values(p))| + 6
    ensures Sendable(p) && n <= |data| && data[..n] == Encode(p) && After(data) == data[n..]
  {
    hide Decode, Values, AllBytes, Sendable;
    DecodeIff(data, p);
  }

  // ------------------------------------------------- hello, create policy

  method WriteHello(protocol: Text, version: U32) returns (r: Bytes)
    ensures r == Encode(Hello(protocol, version))
  {
    hide Sealed, BE;
    var writer := new Writer(0x50);
    writer.WriteStr(protocol);
    writer.WriteU32(version);
    TwoValues(Txt(protocol), Num(version));
    assert writer.bytes[5..] == AllBytes(Values(Hello(protocol, version)));
    r := writer.Finalize();
  }

  method WriteCreatePolicy(species: Text, action: Action) returns (r: Bytes)
    ensures r == Encode(CreatePolicy(species, action))
  {
    hide Sealed, BE;
    var writer := new Writer(0x55);
    writer.WriteStr(species);
    writer.WriteU8(match action case Conserve => 0xa0 case Cull => 0x90);
    TwoValues(Txt(species), Act(action));
    assert writer.bytes[5..] == AllBytes(Values(CreatePolicy(species, action)));
    r := writer.Finalize();
  }

  method ParseHello(data: Bytes, ghost p: Packet) returns (r: Packet)
    requires p.Hello? && Sendable(p) && data == Encode(p)
    ensures r == p
  {
    hide Encode, ValueBytes, IsUtf8;
    var parser := new Parser(data);
    parser.SkipHeader(p);
    TwoValues(Txt(p.protocol), Num(p.version));
    SendableFits(p);
    ghost var last := parser.rest[|AllBytes(Values(p))|..];
    assert parser.rest == ValueBytes(Txt(p.protocol)) + (ValueBytes(Num(p.version)) + last);
    assert Proper(Values(p)[0]);
    var protocol := parser.ReadStr(p.protocol, ValueBytes(Num(p.version)) + last);
    var version := parser.ReadU32(p.version, last);
    r := Hello(protocol, version);
  }

  method ParseCreatePolicy(data: Bytes, ghost p: Packet) returns (r: Packet)
    requires p.CreatePolicy? && Sendable(p) && data == Encode(p)
    ensures r == p
  {
    hide Encode, IsUtf8, BE;
    var parser := new Parser(data);
    parser.SkipHeader(p);
    TwoValues(Txt(p.species), Act(p.action));
    SendableFits(p);
    ghost var last := parser.rest[|AllBytes(Values(p))|..];
    assert parser.rest == ValueBytes(Txt(p.species)) + (ValueBytes(Act(p.action)) + last);
    assert Proper(Values(p)[0]);
    var species := parser.ReadStr(p.species, ValueBytes(Act(p.action)) + last);
    var b := parser.ReadU8();
    r := CreatePolicy(species, if b == 0x90 then Cull else Conserve);
  }

  method ReadHello(src: Bytes) returns (r: Flow<Packet>, rest: Bytes)
    requires src == [] || src[0] == 0x50
    ensures r == Decode(src) && rest == After(src)
  {
    hide CheckU32, CheckText, Sum, Encode, Sendable, ValueBytes, AllBytes, CheckAll, Repeat;
    rest := src;
    var v := new Validator(src);
    var _ :- v.ValidateU8();
    var length :- v.ValidateLength();
    PlainBody(src, 0x50, v.declared);
    TwoFields(src, 5, v.declared, TextKind, NumKind);
    var protocol :- v.ValidateStr();
    var version :- v.ValidateU32();
    TwoValues(Txt(protocol), Num(version));
    var _ :- v.ValidateChecksum();
    var raw :- v.RawPacket();
    ghost var p := Hello(protocol, version);
    SplitOff(src, p, length);
    var packet := ParseHello(raw, p);
    r, rest := Continue(packet), v.data;
  }

  method ReadCreatePolicy(src: Bytes) returns (r: Flow<Packet>, rest: Bytes)
    requires src == [] || src[0] == 0x55
    ensures r == Decode(src) && rest == After(src)
  {
    hide CheckU32, CheckText, Sum, Encode, Sendable, ValueBytes, AllBytes, CheckAll, Repeat;
    rest := src;
    var v := new Validator(src);
    var _ :- v.ValidateU8();
    var length :- v.ValidateLength();
    PlainBody(src, 0x55, v.declared);
    TwoFields(src, 5, v.declared, TextKind, ActionKind);
    var species :- v.ValidateStr();
    var b :- v.ValidateU8();
    if b != 0x90 && b != 0xa0 {
      return Failed(InvalidPacket), src;
    }
    ghost var p := CreatePolicy(species, if b == 0x90 then Cull else Conserve);
    TwoValues(Txt(species), Act(p.action));
    var _ :- v.ValidateChecksum();
    var raw :- v.RawPacket();
    SplitOff(src, p, length);
    var packet := ParseCreatePolicy(raw, p);
    r, rest := Continue(packet), v.data;
  }

  // ------------------------------------------ error, ok and single numbers

  method WriteError(message: Text) returns (r: Bytes)
    ensures r == Encode(Error(message))
  {
    hide Sealed, BE;
    var writer := new Writer(0x51);
    writer.WriteStr(message);
    OneValue(Txt(message));
    assert writer.bytes[5..] == AllBytes(Values(Error(message)));
    r := writer.Finalize();
  }

  method WriteOk() returns (r: Bytes)
    ensures r == Encode(Ok)
  {
    hide Sealed, BE;
    var writer := new Writer(0x52);
    assert writer.bytes[5..] == AllBytes(Values(Ok));
    r := writer.Finalize();
  }

  method WriteNumber(ghost p: Packet, t: Byte, n: U32) returns (r: Bytes)
    requires TypeOf(p) == t && Values(p) == [Num(n)]
    ensures r == Encode(p)
  {
    hide Sealed, BE;
    var writer := new Writer(t);
    writer.WriteU32(n);
    OneValue(Num(n));
    assert writer.bytes[5..] == AllBytes(Values(p));
    r := writer.Finalize();
  }

  method ReadError(src: Bytes) returns (r: Flow<Packet>, rest: Bytes)
    requires src == [] || src[0] == 0x51
    ensures r == Decode(src) && rest == After(src)
  {
    hide CheckU32, CheckText, Sum, Encode, Sendable, ValueBytes, AllBytes, CheckAll, Repeat;
    rest := src;
    var v := new Validator(src);
    var _ :- v.ValidateU8();
    var length :- v.ValidateLength();
    PlainBody(src, 0x51, v.declared);
    OneField(src, 5, v.declared, TextKind);
    var message :- v.ValidateStr();
    OneValue(Txt(message));
    var _ :- v.ValidateChecksum();
    var raw :- v.RawPacket();
    ghost var p := Error(message);
    SplitOff(src, p, length);
    var parser := new Parser(raw);
    parser.SkipHeader(p);
    SendableFits(p);
    assert Proper(Values(p)[0]);
    message := parser.ReadStr(message, parser.rest[|AllBytes(Values(p))|..]);
    r, rest := Continue(Error(message)), v.data;
  }

  method ReadOk(src: Bytes) returns (r: Flow<Packet>, rest: Bytes)
    requires src == [] || src[0] == 0x52
    ensures r == Decode(src) && rest == After(src)
  {
    hide CheckU32, Sum, Encode, Sendable, ValueBytes, CheckAll, Repeat;
    rest := src;
    var v := new Validator(src);
    var _ :- v.ValidateU8();
    var length :- v.ValidateLength();
    PlainBody(src, 0x52, v.declared);
    NoFields(src, 5, v.declared);
    var _ :- v.ValidateChecksum();
    var _ :- v.RawPacket();
    SplitOff(src, Ok, length);
    r, rest := Continue(Ok), v.data;
  }

  /** A packet of one number: a dialled site, a policy to delete or the result of a creation. */
  function NumberPacket(t: Byte, n: U32): Packet {
    if t == 0x53 then DialAuthority(n) else if t == 0x56 then DeletePolicy(n) else PolicyResult(n)
  }

  method ReadNumber(src: Bytes, ghost t: Byte) returns (r: Flow<Packet>, rest: Bytes)
    requires t == 0x53 || t == 0x56 || t == 0x57
    requires src == [] || src[0] == t
    ensures r == Decode(src) && rest == After(src)
  {
    hide CheckU32, Sum, Encode, Sendable, ValueBytes, AllBytes, CheckAll, Repeat;
    rest := src;
    var v := new Validator(src);
    var first :- v.ValidateU8();
    var length :- v.ValidateLength();
    PlainBody(src, t, v.declared);
    OneField(src, 5, v.declared, NumKind);
    var n :- v.ValidateU32();
    OneValue(Num(n));
    var _ :- v.ValidateChecksum();
    var raw :- v.RawPacket();
    ghost var p := NumberPacket(t, n);
    SplitOff(src, p, length);
    var parser := new Parser(raw);
    parser.SkipHeader(p);
    n := parser.ReadU32(n, parser.rest[|AllBytes(Values(p))|..]);
    r, rest := Continue(NumberPacket(first, n)), v.data;
  }
}
