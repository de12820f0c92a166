/** Which datagrams LRCP's packet parser accepts: exactly those that are spelled out as a packet, to their last byte. */
module LrcpDatagrams {
  import opened Wrappers
  import opened LrcpPackets

  /** A field of digits that is read as `n`, with the treatment of long ones that `NumericFieldExact` describes. */
  ghost predicate Reads(field: Bytes, n: Numeric) {
    AllDigits(field) && NoPrefixOverflows(field) && FieldValue(field) % U32_LIMIT == n
  }

  function NameOf(p: Packet): Bytes {
    match p case Connect(_) => "/connect/" case Data(_, _, _) => "/data/" case Ack(_, _) => "/ack/" case Close(_) => "/close/"
  }

  ghost predicate OneField(fields: Bytes, s: Numeric) {
    exists f: Bytes :: Reads(f, s) && fields == f + "/"
  }

  ghost predicate TwoFields(fields: Bytes, s: Numeric, n: Numeric) {
    exists f: Bytes, g: Bytes :: Reads(f, s) && Reads(g, n) && fields == f + "/" + g + "/"
  }

  ghost predicate DataFieldsOf(fields: Bytes, s: Numeric, n: Numeric, data: Bytes) {
    exists f: Bytes, g: Bytes :: Reads(f, s) && Reads(g, n) && fields == f + "/" + g + "/" + Escape(data) + "/"
  }

  /** The bytes are a packet: its name, its fields, each closed by a slash, and nothing else. */
  ghost predicate Spells(buffer: Bytes, p: Packet) {
    NameOf(p) <= buffer &&
    var fields := buffer[|NameOf(p)|..];
    match p
    case Connect(s) => OneField(fields, s)
    case Data(s, n, data) => DataFieldsOf(fields, s, n, data)
    case Ack(s, n) => TwoFields(fields, s, n)
    case Close(s) => OneField(fields, s)
  }

  // --------------------------------------------------------------- numbers

  lemma {:induction false} DigitsFirst(buffer: Bytes, acc: Numeric) returns (k: nat)
    requires ParseNumericFrom(buffer, acc).Ok?
    ensures k <= |buffer| && AllDigits(buffer[..k])
    ensures ParseNumericFrom(buffer, acc).value.rest == buffer[k..]
    decreases |buffer|
  {
    k := 0;
    if IsDigit(buffer[0]) {
      k := DigitsFirst(buffer[1..], U32(acc * 10 + DigitValue(buffer[0])));
      k := k + 1;
      assert buffer[..k] == [buffer[0]] + buffer[1..][..k - 1];
    }
  }

  /** A number is read exactly from a field of digits that the rest follows with a slash. */
  lemma NumericIff(buffer: Bytes, n: Numeric, rest: Bytes)
    requires rest != [] && rest[0] == '/'
    ensures ParseNumeric(buffer) == Ok(Read(n, rest)) <==> exists f: Bytes :: Reads(f, n) && buffer == f + rest
  {
    hide ParseNumericFrom, FieldValue, NoPrefixOverflows;
    if ParseNumeric(buffer) == Ok(Read(n, rest)) {
      var k := DigitsFirst(buffer, 0);
      assert buffer == buffer[..k] + rest;
      NumericFieldExact(buffer[..k], rest);
      assert Reads(buffer[..k], n);
    }
    if f: Bytes :| Reads(f, n) && buffer == f + rest {
      NumericFieldExact(f, rest);
    }
  }

  /** A number and what the parsers of the fields behind it go on with. */
  lemma NumericThen(buffer: Bytes) returns (f: Bytes)
    requires ParseNumeric(buffer).Ok?
    ensures var r := ParseNumeric(buffer).value;
      Reads(f, r.value) && r.rest != [] && buffer == f + "/" + r.rest[1..]
  {
    hide ParseNumericFrom, Reads;
    var r := ParseNumeric(buffer).value;
    NumericIff(buffer, r.value, r.rest);
    f :| Reads(f, r.value) && buffer == f + r.rest;
    assert r.rest == "/" + r.rest[1..];
  }

  lemma ReadsThen(f: Bytes, n: Numeric, more: Bytes)
    requires Reads(f, n)
    ensures ParseNumeric(f + "/" + more) == Ok(Read(n, "/" + more)) && ("/" + more)[1..] == more
  {
    hide ParseNumericFrom, Reads;
    NumericIff(f + "/" + more, n, "/" + more);
    assert f + "/" + more == f + ("/" + more);
  }

  // ---------------------------------------------------------------- fields

  lemma SessionIff(fields: Bytes, s: Numeric)
    ensures ParseSessionField(fields) == Ok(s) <==> OneField(fields, s)
  {
    hide ParseNumericFrom, Reads;
    if ParseSessionField(fields) == Ok(s) {
      var f := NumericThen(fields);
    }
    if f: Bytes :| Reads(f, s) && fields == f + "/" {
      ReadsThen(f, s, "");
      assert f + "/" + "" == fields;
    }
  }

  lemma AckIff(fields: Bytes, p: Packet)
    requires p.Ack?
    ensures ParseAckFields(fields) == Ok(p) <==> TwoFields(fields, p.session, p.length)
  {
    hide ParseNumericFrom, Reads;
    if ParseAckFields(fields) == Ok(p) {
      var f := NumericThen(fields);
      var more := ParseNumeric(fields).value.rest[1..];
      var g := NumericThen(more);
      assert fields == f + "/" + g + "/";
    }
    if f: Bytes, g: Bytes :| Reads(f, p.session) && Reads(g, p.length) && fields == f + "/" + g + "/" {
      ReadsThen(f, p.session, g + "/");
      ReadsThen(g, p.length, "");
      assert fields == f + "/" + (g + "/") && g + "/" + "" == g + "/";
    }
  }

  lemma PayloadThen(buffer: Bytes, data: Bytes)
    ensures ParsePayload(buffer) == Ok(Read(data, "/")) <==> buffer == Escape(data) + "/"
  {
    PayloadParserInvertsEscape(buffer, data, "/");
  }

  lemma DataIff(fields: Bytes, p: Packet)
    requires p.Data?
    ensures ParseDataFields(fields) == Ok(p) <==> DataFieldsOf(fields, p.session, p.pos, p.data)
  {
    hide ParseNumericFrom, ParsePayloadFrom, Reads, Escape;
    if ParseDataFields(fields) == Ok(p) {
      var f := NumericThen(fields);
      var more := ParseNumeric(fields).value.rest[1..];
      var g := NumericThen(more);
      PayloadThen(ParseNumeric(more).value.rest[1..], p.data);
      assert fields == f + "/" + g + "/" + Escape(p.data) + "/";
    }
    if f: Bytes, g: Bytes :| Reads(f, p.session) && Reads(g, p.pos) && fields == f + "/" + g + "/" + Escape(p.data) + "/" {
      var last := Escape(p.data) + "/";
      var more := g + "/" + last;
      ReadsThen(f, p.session, more);
      ReadsThen(g, p.pos, last);
      PayloadThen(last, p.data);
      assert fields == f + "/" + more;
    }
  }

  // ---------------------------------------------------------------- packets

  /** No name of a packet begins another. */
  lemma OneName(buffer: Bytes)
    ensures "/connect/" <= buffer ==> !("/data/" <= buffer) && !("/ack/" <= buffer) && !("/close/" <= buffer)
    ensures "/data/" <= buffer ==> !("/ack/" <= buffer) && !("/close/" <= buffer)
    ensures "/ack/" <= buffer ==> !("/close/" <= buffer)
  {
    if |buffer| > 2 {
      assert "/connect/" <= buffer ==> buffer[1] == 'c' && buffer[2] == 'o';
      assert "/close/" <= buffer ==> buffer[1] == 'c' && buffer[2] == 'l';
      assert "/data/" <= buffer ==> buffer[1] == 'd';
      assert "/ack/" <= buffer ==> buffer[1] == 'a';
    }
  }

  predicate Whole(buffer: Bytes) {
    buffer != [] && buffer[|buffer| - 1] == '/' && |buffer| < 1000
  }

  lemma Dispatch(buffer: Bytes, p: Packet)
    ensures ParsePacket(buffer) == Ok(p) <==>
      && Whole(buffer) && NameOf(p) <= buffer
      && var fields := buffer[|NameOf(p)|..];
      match p
      case Connect(s) => ParseSessionField(fields) == Ok(s)
      case Data(_, _, _) => ParseDataFields(fields) == Ok(p)
      case Ack(_, _) => ParseAckFields(fields) == Ok(p)
      case Close(s) => ParseSessionField(fields) == Ok(s)
  {
    hide ParseNumeric, ParsePayload;
    OneName(buffer);
  }

  lemma EndsInSlash(buffer: Bytes, p: Packet)
    requires Spells(buffer, p)
    ensures buffer != [] && buffer[|buffer| - 1] == '/'
  {
    hide Reads, Escape;
    var fields := buffer[|NameOf(p)|..];
    assert fields != [] && fields[|fields| - 1] == '/';
  }

  /**
    The parser takes a datagram for a packet if and only if it is below 1000 bytes and spells that packet: a byte in
    front of a field's end or behind the last one is refused.
   */
  lemma ParsePacketIff(buffer: Bytes, p: Packet)
    ensures ParsePacket(buffer) == Ok(p) <==> |buffer| < 1000 && Spells(buffer, p)
  {
    hide ParsePacket, OneField, TwoFields, DataFieldsOf, ParseSessionField, ParseAckFields, ParseDataFields;
    Dispatch(buffer, p);
    if NameOf(p) <= buffer {
      var fields := buffer[|NameOf(p)|..];
      match p
      case Connect(s) => SessionIff(fields, s);
      case Data(_, _, _) => DataIff(fields, p);
      case Ack(_, _) => AckIff(fields, p);
      case Close(s) => SessionIff(fields, s);
    }
    if Spells(buffer, p) {
      EndsInSlash(buffer, p);
    }
  }

  // --------------------------------------------------------------- payloads

  lemma {:induction false} PlainEscape(s: Bytes)
    requires forall i :: 0 <= i < |s| ==> !IsSpecial(s[i])
    ensures Escape(s) == s
  {
    if s != [] {
      PlainEscape(s[1..]);
      assert s == [s[0]] + s[1..];
    }
  }

  /** Of text without slashes and backslashes, a data packet takes 920 bytes, or all there is. */
  lemma PlainPayload(buffer: Bytes)
    requires buffer != [] && forall i :: 0 <= i < |buffer| ==> buffer[i] != '/' && buffer[i] != '\\'
    ensures TakePayload(buffer) == Some(if |buffer| <= 920 then buffer else buffer[..920])
  {
    hide Escape, TakePayload;
    PayloadIsLongestPrefix(buffer);
    var n := |TakePayload(buffer).value|;
    assert buffer[..n] == TakePayload(buffer).value;
    forall k: nat | k <= |buffer| ensures Escape(buffer[..k]) == buffer[..k] { PlainEscape(buffer[..k]); }
  }
}
