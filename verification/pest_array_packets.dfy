/** Reading and writing the packets with an array: site visits and target populations. */
module PestArrayPackets {
  import opened ByteTypes
  import opened PestPackets
  import opened PestWire
  import opened PestRoundTrip
  import opened PestCodec
  import opened PestPlainPackets

  function Prepend(got: seq<Value>, f: Flow<seq<Value>>): Flow<seq<Value>> {
    var vs :- f;
    Continue(got + vs)
  }

  /** The head of a body with an array: the site and the number of elements. */
  lemma ArrayBody(data: Bytes, t: Byte, d: Declared)
    requires t == 0x54 || t == 0x58
    ensures CheckBody(data, t, d) ==
      (var site :- CheckU32(data, 5, d);
       var n :- CheckU32(data, 9, d);
       var elements :- CheckAll(data, 13, d, Repeat(Element(t), n));
       Continue([Num(site), Num(n)] + elements))
  {
    hide CheckU32, CheckAll, ValueBytes, Repeat, AllBytes;
    TwoFields(data, 5, d, NumKind, NumKind);
    var site, n := CheckU32(data, 5, d), CheckU32(data, 9, d);
    if site.Continue? && n.Continue? {
      TwoValues(Num(site.value), Num(n.value));
    }
  }

  lemma PrependTwice(a: seq<Value>, b: seq<Value>, f: Flow<seq<Value>>)
    ensures Prepend(a, Prepend(b, f)) == Prepend(a + b, f)
  {
    if f.Continue? {
      assert a + (b + f.value) == (a + b) + f.value;
    }
  }

  /** Checking on after one value. */
  lemma AfterValue(data: Bytes, cursor: nat, d: Declared, kinds: seq<Kind>)
    requires kinds != []
    ensures CheckAll(data, cursor, d, kinds) ==
      (var v :- CheckValue(data, cursor, d, kinds[0]);
       Prepend([v], CheckAll(data, cursor + |ValueBytes(v)|, d, kinds[1..])))
  {
    hide CheckValue, ValueBytes;
  }

  /** Checking on after the values of one element of an array. */
  lemma AfterVisit(data: Bytes, cursor: nat, d: Declared, n: nat)
    requires n > 0
    ensures CheckAll(data, cursor, d, Repeat(Element(0x58), n)) ==
      (var species :- CheckText(data, cursor, d);
       var after := cursor + |ValueBytes(Txt(species))|;
       var count :- CheckU32(data, after, d);
       Prepend([Txt(species), Num(count)], CheckAll(data, after + 4, d, Repeat(Element(0x58), n - 1))))
  {
    hide CheckU32, CheckText, ValueBytes, CheckAll;
    var more := Repeat(Element(0x58), n - 1);
    assert Repeat(Element(0x58), n) == [TextKind] + ([NumKind] + more);
    assert ([NumKind] + more)[1..] == more;
    AfterValue(data, cursor, d, [TextKind] + ([NumKind] + more));
    assert ([TextKind] + ([NumKind] + more))[1..] == [NumKind] + more;
    var species := CheckText(data, cursor, d);
    if species.Continue? {
      var after := cursor + |ValueBytes(Txt(species.value))|;
      AfterValue(data, after, d, [NumKind] + more);
      var count := CheckU32(data, after, d);
      if count.Continue? {
        PrependTwice([Txt(species.value)], [Num(count.value)], CheckAll(data, after + 4, d, more));
        assert [Txt(species.value)] + [Num(count.value)] == [Txt(species.value), Num(count.value)];
      }
    }
  }

  lemma AfterTarget(data: Bytes, cursor: nat, d: Declared, n: nat)
    requires n > 0
    ensures CheckAll(data, cursor, d, Repeat(Element(0x54), n)) ==
      (var species :- CheckText(data, cursor, d);
       var after := cursor + |ValueBytes(Txt(species))|;
       var min :- CheckU32(data, after, d);
       var max :- CheckU32(data, after + 4, d);
       Prepend([Txt(species), Num(min), Num(max)], CheckAll(data, after + 8, d, Repeat(Element(0x54), n - 1))))
  {
    hide CheckU32, CheckText, ValueBytes, CheckAll;
    var more := Repeat(Element(0x54), n - 1);
    var two := [NumKind] + ([NumKind] + more);
    assert Repeat(Element(0x54), n) == [TextKind] + two;
    assert ([TextKind] + two)[1..] == two && two[1..] == [NumKind] + more && ([NumKind] + more)[1..] == more;
    AfterValue(data, cursor, d, [TextKind] + two);
    var species := CheckText(data, cursor, d);
    if species.Continue? {
      var after := cursor + |ValueBytes(Txt(species.value))|;
      AfterValue(data, after, d, two);
      AfterValue(data, after + 4, d, [NumKind] + more);
      var min, max := CheckU32(data, after, d), CheckU32(data, after + 4, d);
      if min.Continue? && max.Continue? {
        var rest := CheckAll(data, after + 8, d, more);
        PrependTwice([Num(min.value)], [Num(max.value)], rest);
        PrependTwice([Txt(species.value)], [Num(min.value)] + [Num(max.value)], rest);
        assert [Txt(species.value)] + ([Num(min.value)] + [Num(max.value)])
            == [Txt(species.value), Num(min.value), Num(max.value)];
      }
    }
  }

  lemma ThreeValues(a: Value, b: Value, c: Value)
    ensures AllBytes([a, b, c]) == ValueBytes(a) + ValueBytes(b) + ValueBytes(c)
  {
    hide ValueBytes;
    assert [a, b, c] == [a, b] + [c];
    AllBytesAppend([a, b], [c]);
    TwoValues(a, b);
    OneValue(c);
  }

  /** What has been written of a packet, and what is still to come of its body. */
  predicate Ahead(written: Bytes, t: Byte, more: Bytes, body: Bytes) {
    |written| >= 5 && written[0] == t && written[5..] + more == body
  }

  lemma AheadOn(written: Bytes, t: Byte, a: Bytes, more: Bytes, body: Bytes)
    requires Ahead(written, t, a + more, body)
    ensures Ahead(written + a, t, more, body)
  {
    assert (written + a)[5..] == written[5..] + a;
    assert written[5..] + (a + more) == (written[5..] + a) + more;
  }

  lemma AheadTwo(written: Bytes, t: Byte, a: Bytes, b: Bytes, more: Bytes, body: Bytes)
    requires Ahead(written, t, a + b + more, body)
    ensures Ahead(written + a + b, t, more, body)
  {
    hide Ahead;
    assert a + b + more == a + (b + more);
    AheadOn(written, t, a, b + more, body);
    AheadOn(written + a, t, b, more, body);
  }

  lemma AheadThree(written: Bytes, t: Byte, a: Bytes, b: Bytes, c: Bytes, more: Bytes, body: Bytes)
    requires Ahead(written, t, a + b + c + more, body)
    ensures Ahead(written + a + b + c, t, more, body)
  {
    hide Ahead;
    assert a + b + c + more == a + b + (c + more);
    AheadTwo(written, t, a, b, c + more, body);
    AheadOn(written + a + b, t, c, more, body);
  }

  /** The head of an array packet is written. */
  lemma HeadWritten(t: Byte, site: Bytes, count: Bytes, more: Bytes, body: Bytes)
    requires body == site + count + more
    ensures Ahead([t, 0, 0, 0, 0] + site + count, t, more, body)
  {
    var start := [t, 0, 0, 0, 0];
    assert start[5..] == [];
    assert [] + (site + count + more) == site + count + more;
    AheadTwo(start, t, site, count, more, body);
  }

  lemma AllWritten(written: Bytes, t: Byte, body: Bytes)
    requires Ahead(written, t, [], body)
    ensures |written| >= 5 && written[0] == t && written[5..] == body
  {
    assert written[5..] + [] == written[5..];
  }

  lemma Started(data: Bytes, cursor: nat, d: Declared, kinds: seq<Kind>)
    ensures |AllBytes([])| == 0
    ensures CheckAll(data, cursor, d, kinds) == Prepend([], CheckAll(data, cursor, d, kinds))
  {
    hide CheckAll;
    var f := CheckAll(data, cursor, d, kinds);
    assert f.Continue? ==> [] + f.value == f.value;
  }

  lemma NoMore(t: Byte)
    ensures Repeat(Element(t), 0) == []
  {
  }

  /** All elements read: the body is the head and what has been read. */
  lemma Finished(data: Bytes, t: Byte, d: Declared, site: U32, n: U32, got: seq<Value>, cursor: nat)
    requires t == 0x54 || t == 0x58
    requires CheckU32(data, 5, d) == Continue(site) && CheckU32(data, 9, d) == Continue(n)
    requires CheckAll(data, 13, d, Repeat(Element(t), n)) == Prepend(got, CheckAll(data, cursor, d, []))
    ensures var values := [Num(site), Num(n)] + got;
      && CheckBody(data, t, d) == Continue(values)
      && |AllBytes(values)| == 8 + |AllBytes(got)|
      && TypeOf(PacketOf(t, values)) == t && Values(PacketOf(t, values)) == values
      && (if t == 0x54 then PacketOf(t, values).TargetPopulations? else PacketOf(t, values).SiteVisit?)
  {
    hide CheckU32, CheckBody, ValueBytes, AllBytes, PacketOf, Values, CheckAll, Repeat, BE;
    U32Iff(data, 5, d, site);
    ArrayBody(data, t, d);
    NoFields(data, cursor, d);
    assert got + [] == got;
    AllBytesAppend([Num(site), Num(n)], got);
    TwoValues(Num(site), Num(n));
    CheckBodySound(data, t, d);
  }

  // ------------------------------------------------------- visits

  lemma FirstVisit(es: seq<Visit>)
    requires es != []
    ensures AllBytes(VisitValues(es)) ==
            ValueBytes(Txt(es[0].species)) + ValueBytes(Num(es[0].count)) + AllBytes(VisitValues(es[1..]))
    ensures AllProper(VisitValues(es)) ==> Proper(Txt(es[0].species)) && AllProper(VisitValues(es[1..]))
  {
    hide ValueBytes, Proper;
    var one := [Txt(es[0].species), Num(es[0].count)];
    var vs, more := VisitValues(es), VisitValues(es[1..]);
    assert vs == one + more;
    AllBytesAppend(one, more);
    TwoValues(Txt(es[0].species), Num(es[0].count));
    if AllProper(vs) {
      assert Proper(vs[0]);
      assert forall i :: 0 <= i < |more| ==> more[i] == vs[2 + i];
    }
  }

  lemma VisitHead(p: Packet)
    requires p.SiteVisit?
    ensures AllBytes(Values(p)) ==
            ValueBytes(Num(p.site)) + ValueBytes(Num(|p.visits| % LIMIT)) + AllBytes(VisitValues(p.visits))
    ensures AllProper(Values(p)) ==> AllProper(VisitValues(p.visits))
  {
    hide ValueBytes, Proper, VisitValues;
    var head, more := [Num(p.site), Num(|p.visits| % LIMIT)], VisitValues(p.visits);
    AllBytesAppend(head, more);
    TwoValues(Num(p.site), Num(|p.visits| % LIMIT));
    if AllProper(Values(p)) {
      assert forall i :: 0 <= i < |more| ==> more[i] == Values(p)[2 + i];
    }
  }

  method WriteSiteVisit(site: U32, visits: seq<Visit>) returns (r: Bytes)
    ensures r == Encode(SiteVisit(site, visits))
  {
    hide Sealed, ValueBytes, AllBytes, VisitValues, Ahead, Values;
    ghost var p := SiteVisit(site, visits);
    ghost var body := AllBytes(Values(p));
    VisitHead(p);
    var writer := new Writer(0x58);
    writer.WriteU32(site);
    writer.WriteU32(|visits| % LIMIT);
    HeadWritten(0x58, ValueBytes(Num(site)), ValueBytes(Num(|visits| % LIMIT)), AllBytes(VisitValues(visits)), body);
    assert visits[0..] == visits;
    for i := 0 to |visits|
      invariant Ahead(writer.bytes, 0x58, AllBytes(VisitValues(visits[i..])), body)
    {
      FirstOfVisits(visits, i);
      var e := visits[i];
      ghost var species, count := ValueBytes(Txt(e.species)), ValueBytes(Num(e.count));
      AheadTwo(writer.bytes, 0x58, species, count, AllBytes(VisitValues(visits[i + 1..])), body);
      writer.WriteStr(e.species);
      writer.WriteU32(e.count);
    }
    NoVisits();
    assert visits[|visits|..] == [];
    AllWritten(writer.bytes, 0x58, body);
    r := writer.Finalize();
  }

  lemma FirstOfVisits(visits: seq<Visit>, i: nat)
    requires i < |visits|
    ensures var e := visits[i];
      AllBytes(VisitValues(visits[i..])) ==
      ValueBytes(Txt(e.species)) + ValueBytes(Num(e.count)) + AllBytes(VisitValues(visits[i + 1..]))
  {
    hide AllBytes, VisitValues, ValueBytes;
    FirstVisit(visits[i..]);
    assert visits[i..][1..] == visits[i + 1..];
  }

  lemma NoVisits()
    ensures AllBytes(VisitValues([])) == []
  {
  }

  method ParseSiteVisit(data: Bytes, ghost p: Packet) returns (r: Packet)
    requires p.SiteVisit? && Sendable(p) && data == Encode(p)
    ensures r == p
  {
    hide Encode, ValueBytes, AllBytes, VisitValues, IsUtf8, Sendable, Values, Checksum, Unsealed, AllProper, TypeOf;
    var parser := new Parser(data);
    parser.SkipHeader(p);
    VisitHead(p);
    SendableFits(p);
    ghost var last := parser.rest[|AllBytes(Values(p))|..];
    ghost var elements := AllBytes(VisitValues(p.visits)) + last;
    assert parser.rest == ValueBytes(Num(p.site)) + (ValueBytes(Num(|p.visits|)) + elements);
    var site := parser.ReadU32(p.site, ValueBytes(Num(|p.visits|)) + elements);
    var len := parser.ReadU32(|p.visits|, elements);
    var visits: seq<Visit> := [];
    assert p.visits[0..] == p.visits;
    for i := 0 to len
      invariant visits == p.visits[..i]
      invariant AllProper(VisitValues(p.visits[i..]))
      invariant parser.rest == AllBytes(VisitValues(p.visits[i..])) + last
    {
      ghost var e := p.visits[i];
      FirstVisit(p.visits[i..]);
      assert p.visits[i..][1..] == p.visits[i + 1..];
      ghost var more := AllBytes(VisitValues(p.visits[i + 1..])) + last;
      assert parser.rest == ValueBytes(Txt(e.species)) + (ValueBytes(Num(e.count)) + more);
      var species := parser.ReadStr(e.species, ValueBytes(Num(e.count)) + more);
      var count := parser.ReadU32(e.count, more);
      visits := visits + [Visit(species, count)];
    }
    assert p.visits[..|p.visits|] == p.visits;
    r := SiteVisit(site, visits);
  }

  /** One more element read, after those in `got`. */
  lemma VisitRead(data: Bytes, cursor: nat, d: Declared, n: nat, got: seq<Value>)
    requires n > 0
    ensures Prepend(got, CheckAll(data, cursor, d, Repeat(Element(0x58), n))) ==
      (var species :- CheckText(data, cursor, d);
       var after := cursor + |ValueBytes(Txt(species))|;
       var count :- CheckU32(data, after, d);
       Prepend(got + [Txt(species), Num(count)], CheckAll(data, after + 4, d, Repeat(Element(0x58), n - 1))))
  {
    hide CheckU32, CheckText, CheckAll, ValueBytes, Repeat, Element;
    AfterVisit(data, cursor, d, n);
    var species := CheckText(data, cursor, d);
    if species.Continue? {
      var after := cursor + |ValueBytes(Txt(species.value))|;
      var count := CheckU32(data, after, d);
      if count.Continue? {
        PrependTwice(got, [Txt(species.value), Num(count.value)], CheckAll(data, after + 4, d, Repeat(Element(0x58), n - 1)));
      }
    }
  }

  lemma VisitGrown(got: seq<Value>, species: Text, count: U32)
    ensures |AllBytes(got + [Txt(species), Num(count)])| == |AllBytes(got)| + |ValueBytes(Txt(species))| + 4
  {
    hide AllBytes, ValueBytes;
    AllBytesAppend(got, [Txt(species), Num(count)]);
    TwoValues(Txt(species), Num(count));
  }

  method ReadSiteVisit(src: Bytes) returns (r: Flow<Packet>, rest: Bytes)
    requires src == [] || src[0] == 0x58
    ensures r == Decode(src) && rest == After(src)
  {
    hide CheckU32, CheckText, CheckBody, CheckAll, Sum, Encode, Sendable, ValueBytes, AllBytes, Repeat, Element, Prepend,
         PacketOf, Values, TypeOf;
    rest := src;
    var v := new Validator(src);
    var _ :- v.ValidateU8();
    var length :- v.ValidateLength();
    ArrayBody(src, 0x58, v.declared);
    var site :- v.ValidateU32();
    var len :- v.ValidateU32();
    ghost var got: seq<Value> := [];
    Started(src, 13, v.declared, Repeat(Element(0x58), len));
    for i := 0 to len
      invariant v.data == src && v.declared == Known(length) && v.cursor == 13 + |AllBytes(got)|
      invariant CheckAll(src, 13, v.declared, Repeat(Element(0x58), len)) ==
                Prepend(got, CheckAll(src, v.cursor, v.declared, Repeat(Element(0x58), len - i)))
    {
      VisitRead(src, v.cursor, v.declared, len - i, got);
      var species :- v.ValidateStr();
      var count :- v.ValidateU32();
      VisitGrown(got, species, count);
      got := got + [Txt(species), Num(count)];
    }
    NoMore(0x58);
    ghost var values := [Num(site), Num(len)] + got;
    Finished(src, 0x58, v.declared, site, len, got, v.cursor);
    var _ :- v.ValidateChecksum();
    var raw :- v.RawPacket();
    ghost var p := PacketOf(0x58, values);
    SplitOff(src, p, length);
    var packet := ParseSiteVisit(raw, p);
    r, rest := Continue(packet), v.data;
  }

  // ------------------------------------------------------ targets

  lemma FirstTarget(es: seq<Target>)
    requires es != []
    ensures AllBytes(TargetValues(es)) ==
            ValueBytes(Txt(es[0].species)) + ValueBytes(Num(es[0].min)) + ValueBytes(Num(es[0].max))
            + AllBytes(TargetValues(es[1..]))
    ensures AllProper(TargetValues(es)) ==> Proper(Txt(es[0].species)) && AllProper(TargetValues(es[1..]))
  {
    hide ValueBytes, Proper;
    var one := [Txt(es[0].species), Num(es[0].min), Num(es[0].max)];
    var vs, more := TargetValues(es), TargetValues(es[1..]);
    assert vs == one + more;
    AllBytesAppend(one, more);
    ThreeValues(Txt(es[0].species), Num(es[0].min), Num(es[0].max));
    if AllProper(vs) {
      assert Proper(vs[0]);
      assert forall i :: 0 <= i < |more| ==> more[i] == vs[3 + i];
    }
  }

  lemma TargetHead(p: Packet)
    requires p.TargetPopulations?
    ensures AllBytes(Values(p)) ==
            ValueBytes(Num(p.site)) + ValueBytes(Num(|p.targets| % LIMIT)) + AllBytes(TargetValues(p.targets))
    ensures AllProper(Values(p)) ==> AllProper(TargetValues(p.targets))
  {
    hide ValueBytes, Proper, TargetValues;
    var head, more := [Num(p.site), Num(|p.targets| % LIMIT)], TargetValues(p.targets);
    AllBytesAppend(head, more);
    TwoValues(Num(p.site), Num(|p.targets| % LIMIT));
    if AllProper(Values(p)) {
      assert forall i :: 0 <= i < |more| ==> more[i] == Values(p)[2 + i];
    }
  }

  method WriteTargetPopulations(site: U32, targets: seq<Target>) returns (r: Bytes)
    ensures r == Encode(TargetPopulations(site, targets))
  {
    hide Sealed, ValueBytes, AllBytes, TargetValues, Ahead, Values;
    ghost var p := TargetPopulations(site, targets);
    ghost var body := AllBytes(Values(p));
    TargetHead(p);
    var writer := new Writer(0x54);
    writer.WriteU32(site);
    writer.WriteU32(|targets| % LIMIT);
    HeadWritten(0x54, ValueBytes(Num(site)), ValueBytes(Num(|targets| % LIMIT)), AllBytes(TargetValues(targets)), body);
    assert targets[0..] == targets;
    for i := 0 to |targets|
      invariant Ahead(writer.bytes, 0x54, AllBytes(TargetValues(targets[i..])), body)
    {
      FirstOfTargets(targets, i);
      var e := targets[i];
      ghost var species, min, max := ValueBytes(Txt(e.species)), ValueBytes(Num(e.min)), ValueBytes(Num(e.max));
      AheadThree(writer.bytes, 0x54, species, min, max, AllBytes(TargetValues(targets[i + 1..])), body);
      writer.WriteStr(e.species);
      writer.WriteU32(e.min);
      writer.WriteU32(e.max);
    }
    NoTargets();
    assert targets[|targets|..] == [];
    AllWritten(writer.bytes, 0x54, body);
    r := writer.Finalize();
  }

  lemma FirstOfTargets(targets: seq<Target>, i: nat)
    requires i < |targets|
    ensures var e := targets[i];
      AllBytes(TargetValues(targets[i..])) ==
      ValueBytes(Txt(e.species)) + ValueBytes(Num(e.min)) + ValueBytes(Num(e.max)) + AllBytes(TargetValues(targets[i + 1..]))
  {
    hide AllBytes, TargetValues, ValueBytes;
    FirstTarget(targets[i..]);
    assert targets[i..][1..] == targets[i + 1..];
  }

  lemma NoTargets()
    ensures AllBytes(TargetValues([])) == []
  {
  }

  method ParseTargetPopulations(data: Bytes, ghost p: Packet) returns (r: Packet)
    requires p.TargetPopulations? && Sendable(p) && data == Encode(p)
    ensures r == p
  {
    hide Encode, ValueBytes, AllBytes, TargetValues, IsUtf8, Sendable, Values, Checksum, Unsealed, AllProper, TypeOf;
    var parser := new Parser(data);
    parser.SkipHeader(p);
    TargetHead(p);
    SendableFits(p);
    ghost var last := parser.rest[|AllBytes(Values(p))|..];
    ghost var elements := AllBytes(TargetValues(p.targets)) + last;
    assert parser.rest == ValueBytes(Num(p.site)) + (ValueBytes(Num(|p.targets|)) + elements);
    var site := parser.ReadU32(p.site, ValueBytes(Num(|p.targets|)) + elements);
    var len := parser.ReadU32(|p.targets|, elements);
    var targets: seq<Target> := [];
    assert p.targets[0..] == p.targets;
    for i := 0 to len
      invariant targets == p.targets[..i]
      invariant AllProper(TargetValues(p.targets[i..]))
      invariant parser.rest == AllBytes(TargetValues(p.targets[i..])) + last
    {
      ghost var e := p.targets[i];
      FirstTarget(p.targets[i..]);
      assert p.targets[i..][1..] == p.targets[i + 1..];
      ghost var more := AllBytes(TargetValues(p.targets[i + 1..])) + last;
      assert parser.rest == ValueBytes(Txt(e.species)) + (ValueBytes(Num(e.min)) + (ValueBytes(Num(e.max)) + more));
      var species := parser.ReadStr(e.species, ValueBytes(Num(e.min)) + (ValueBytes(Num(e.max)) + more));
      var min := parser.ReadU32(e.min, ValueBytes(Num(e.max)) + more);
      var max := parser.ReadU32(e.max, more);
      targets := targets + [Target(species, min, max)];
    }
    assert p.targets[..|p.targets|] == p.targets;
    r := TargetPopulations(site, targets);
  }

  /** One more element read, after those in `got`. */
  lemma TargetRead(data: Bytes, cursor: nat, d: Declared, n: nat, got: seq<Value>)
    requires n > 0
    ensures Prepend(got, CheckAll(data, cursor, d, Repeat(Element(0x54), n))) ==
      (var species :- CheckText(data, cursor, d);
       var after := cursor + |ValueBytes(Txt(species))|;
       var min :- CheckU32(data, after, d);
       var max :- CheckU32(data, after + 4, d);
       Prepend(got + [Txt(species), Num(min), Num(max)], CheckAll(data, after + 8, d, Repeat(Element(0x54), n - 1))))
  {
    hide CheckU32, CheckText, CheckAll, ValueBytes, Repeat, Element;
    AfterTarget(data, cursor, d, n);
    var species := CheckText(data, cursor, d);
    if species.Continue? {
      var after := cursor + |ValueBytes(Txt(species.value))|;
      var min, max := CheckU32(data, after, d), CheckU32(data, after + 4, d);
      if min.Continue? && max.Continue? {
        var one := [Txt(species.value), Num(min.value), Num(max.value)];
        PrependTwice(got, one, CheckAll(data, after + 8, d, Repeat(Element(0x54), n - 1)));
      }
    }
  }

  lemma TargetGrown(got: seq<Value>, species: Text, min: U32, max: U32)
    ensures |AllBytes(got + [Txt(species), Num(min), Num(max)])| == |AllBytes(got)| + |ValueBytes(Txt(species))| + 8
  {
    hide AllBytes, ValueBytes;
    AllBytesAppend(got, [Txt(species), Num(min), Num(max)]);
    ThreeValues(Txt(species), Num(min), Num(max));
  }

  method ReadTargetPopulations(src: Bytes) returns (r: Flow<Packet>, rest: Bytes)
    requires src == [] || src[0] == 0x54
    ensures r == Decode(src) && rest == After(src)
  {
    hide CheckU32, CheckText, CheckBody, CheckAll, Sum, Encode, Sendable, ValueBytes, AllBytes, Repeat, Element, Prepend,
         PacketOf, Values, TypeOf;
    rest := src;
    var v := new Validator(src);
    var _ :- v.ValidateU8();
    var length :- v.ValidateLength();
    ArrayBody(src, 0x54, v.declared);
    var site :- v.ValidateU32();
    var len :- v.ValidateU32();
    ghost var got: seq<Value> := [];
    Started(src, 13, v.declared, Repeat(Element(0x54), len));
    for i := 0 to len
      invariant v.data == src && v.declared == Known(length) && v.cursor == 13 + |AllBytes(got)|
      invariant CheckAll(src, 13, v.declared, Repeat(Element(0x54), len)) ==
                Prepend(got, CheckAll(src, v.cursor, v.declared, Repeat(Element(0x54), len - i)))
    {
      TargetRead(src, v.cursor, v.declared, len - i, got);
      var species :- v.ValidateStr();
      var min :- v.ValidateU32();
      var max :- v.ValidateU32();
      TargetGrown(got, species, min, max);
      got := got + [Txt(species), Num(min), Num(max)];
    }
    NoMore(0x54);
    ghost var values := [Num(site), Num(len)] + got;
    Finished(src, 0x54, v.declared, site, len, got, v.cursor);
    var _ :- v.ValidateChecksum();
    var raw :- v.RawPacket();
    ghost var p := PacketOf(0x54, values);
    SplitOff(src, p, length);
    var packet := ParseTargetPopulations(raw, p);
    r, rest := Continue(packet), v.data;
  }
}
