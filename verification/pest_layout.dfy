/** The layout of pest control's packets, and those that its documentation shows, byte by byte up to their checksums. */
module PestLayout {
  import opened ByteTypes
  import opened PestPackets
  import opened PestWire

  const DOG: Text := [0x64, 0x6f, 0x67]
  const BAD: Text := [0x62, 0x61, 0x64]
  const PESTCONTROL: Text := [0x70, 0x65, 0x73, 0x74, 0x63, 0x6f, 0x6e, 0x74, 0x72, 0x6f, 0x6c]

  /** A packet has this type and this body: its length is in between, and a byte that completes the sum behind. */
  ghost predicate Shows(p: Packet, t: Byte, body: Bytes) {
    |body| < 250 && var bytes := [t, 0, 0, 0, |body| + 6] + body; Encode(p) == bytes + [Checksum(bytes)]
  }

  lemma Shown(p: Packet, t: Byte, body: Bytes)
    requires TypeOf(p) == t && AllBytes(Values(p)) == body && |body| < 250
    ensures Shows(p, t, body)
  {
    hide AllBytes, Values, TypeOf, Checksum;
    SmallNumbers(|body| + 6);
    assert [t] + BE(|body| + 6) + body == [t, 0, 0, 0, |body| + 6] + body;
  }

  lemma Body(v: Value, vs: seq<Value>)
    ensures AllBytes([v] + vs) == ValueBytes(v) + AllBytes(vs)
  {
    assert ([v] + vs)[1..] == vs;
  }

  lemma OneValue(v: Value)
    ensures AllBytes([v]) == ValueBytes(v)
  {
  }

  lemma TwoValues(v: Value, w: Value)
    ensures AllBytes([v, w]) == ValueBytes(v) + ValueBytes(w)
  {
    hide ValueBytes;
    Body(v, [w]);
    OneValue(w);
    assert [v] + [w] == [v, w];
  }

  lemma SmallNumbers(n: U32)
    requires n < 0x1_0000
    ensures BE(n) == [0, 0, n / 0x100, n % 0x100]
  {
  }

  lemma NumberPackets()
    ensures Shows(Ok, 0x52, [])
    ensures Shows(DialAuthority(12345), 0x53, [0, 0, 0x30, 0x39])
    ensures Shows(DeletePolicy(123), 0x56, [0, 0, 0, 0x7b])
    ensures Shows(PolicyResult(123), 0x57, [0, 0, 0, 0x7b])
  {
    hide Shows, Checksum;
    OneValue(Num(12345));
    OneValue(Num(123));
    Shown(Ok, 0x52, []);
    Shown(DialAuthority(12345), 0x53, [0, 0, 0x30, 0x39]);
    Shown(DeletePolicy(123), 0x56, [0, 0, 0, 0x7b]);
    Shown(PolicyResult(123), 0x57, [0, 0, 0, 0x7b]);
  }

  lemma TextPackets(action: Action)
    ensures Shows(Hello(PESTCONTROL, 1), 0x50, [0, 0, 0, 0x0b] + PESTCONTROL + [0, 0, 0, 0x01])
    ensures Shows(Error(BAD), 0x51, [0, 0, 0, 0x03] + BAD)
    ensures Shows(CreatePolicy(DOG, action), 0x55, [0, 0, 0, 0x03] + DOG + [if action == Cull then 0x90 else 0xa0])
  {
    hide Shows, Checksum;
    TwoValues(Txt(PESTCONTROL), Num(1));
    OneValue(Txt(BAD));
    TwoValues(Txt(DOG), Act(action));
    Shown(Hello(PESTCONTROL, 1), 0x50, [0, 0, 0, 0x0b] + PESTCONTROL + [0, 0, 0, 0x01]);
    Shown(Error(BAD), 0x51, [0, 0, 0, 0x03] + BAD);
    Shown(CreatePolicy(DOG, action), 0x55, [0, 0, 0, 0x03] + DOG + [if action == Cull then 0x90 else 0xa0]);
  }

  /** A text is its length and its bytes. */
  function Lengthened(t: Text): Bytes {
    BE(|t| % LIMIT) + t
  }

  /** A site visit is the site, the number of visits, and the visits; a visit is its species and then its count. */
  lemma SiteVisitLayout(site: U32, v: Visit, more: seq<Visit>)
    ensures AllBytes(Values(SiteVisit(site, more))) == BE(site) + BE(|more| % LIMIT) + AllBytes(VisitValues(more))
    ensures AllBytes(VisitValues([v] + more)) == Lengthened(v.species) + BE(v.count) + AllBytes(VisitValues(more))
  {
    hide BE, AllBytes, VisitValues, Lengthened, ValueBytes;
    Numbers(site, |more| % LIMIT, VisitValues(more));
    VisitFirst(v, more);
    TextAndNumber(v.species, v.count, VisitValues(more));
  }

  /** Target populations likewise; a target is its species, its lower and its upper bound. */
  lemma TargetsLayout(site: U32, t: Target, more: seq<Target>)
    ensures AllBytes(Values(TargetPopulations(site, more))) == BE(site) + BE(|more| % LIMIT) + AllBytes(TargetValues(more))
    ensures AllBytes(TargetValues([t] + more)) ==
            Lengthened(t.species) + BE(t.min) + (BE(t.max) + AllBytes(TargetValues(more)))
  {
    hide BE, AllBytes, TargetValues, Lengthened, ValueBytes;
    Numbers(site, |more| % LIMIT, TargetValues(more));
    TargetFirst(t, more);
    var rest := TargetValues(more);
    TextAndNumber(t.species, t.min, [Num(t.max)] + rest);
    OneNumber(t.max, rest);
    assert [Txt(t.species), Num(t.min)] + ([Num(t.max)] + rest) == [Txt(t.species), Num(t.min), Num(t.max)] + rest;
  }

  lemma OneNumber(n: U32, rest: seq<Value>)
    ensures AllBytes([Num(n)] + rest) == BE(n) + AllBytes(rest)
  {
    hide BE;
    Body(Num(n), rest);
  }

  lemma Numbers(m: U32, n: U32, rest: seq<Value>)
    ensures AllBytes([Num(m), Num(n)] + rest) == BE(m) + BE(n) + AllBytes(rest)
  {
    hide BE, AllBytes;
    Fields(Num(m), Num(n), rest);
  }

  lemma TextAndNumber(t: Text, n: U32, rest: seq<Value>)
    ensures AllBytes([Txt(t), Num(n)] + rest) == Lengthened(t) + BE(n) + AllBytes(rest)
  {
    hide BE, AllBytes;
    Fields(Txt(t), Num(n), rest);
  }

  lemma VisitFirst(v: Visit, more: seq<Visit>)
    ensures VisitValues([v] + more) == [Txt(v.species), Num(v.count)] + VisitValues(more)
  {
    assert ([v] + more)[1..] == more;
  }

  lemma TargetFirst(t: Target, more: seq<Target>)
    ensures TargetValues([t] + more) == [Txt(t.species), Num(t.min), Num(t.max)] + TargetValues(more)
  {
    assert ([t] + more)[1..] == more;
  }

  lemma Fields(v: Value, w: Value, rest: seq<Value>)
    ensures AllBytes([v, w] + rest) == ValueBytes(v) + ValueBytes(w) + AllBytes(rest)
  {
    hide ValueBytes;
    Body(v, [w] + rest);
    Body(w, rest);
    assert [v, w] + rest == [v] + ([w] + rest);
  }

  /** The bytes that stand for the two actions in every policy. */
  lemma ActionBytes(species: Text, action: Action)
    requires |species| < LIMIT
    ensures var b := Encode(CreatePolicy(species, action))[9 + |species|];
      (action == Cull <==> b == 0x90) && (action == Conserve <==> b == 0xa0)
  {
    TwoValues(Txt(species), Act(action));
  }
}
