/**
  The LRCP wire format: decimal numbers, escaped payloads and the four packet
  kinds, with the parsers and printers that turn them into datagrams.

  A byte is an ASCII octet, as the protocol document demands of all text.
 */
module LrcpPackets {
  import opened Wrappers

  type Byte = c: char | c as int < 128 witness 'a'
  type Bytes = seq<Byte>

  const U32_LIMIT: int := 0x1_0000_0000
  const NUMERIC_LIMIT: int := 2_147_483_648
  const MAX_PACKET: int := 1000
  const BUFFER_SIZE: int := 1000 - 6 - 2 - 1 - 20 - 50

  /** A 32-bit unsigned number. */
  type Numeric = n: int | 0 <= n < 0x1_0000_0000

  /** Truncation to 32 bits: wrap-around addition and `as u32` casts. */
  function U32(n: nat): Numeric {
    if n < U32_LIMIT then n else n % U32_LIMIT
  }

  datatype PacketError = InvalidPacket | UnknownPacket | NumericOverflow

  datatype Packet =
    | Connect(session: Numeric)
    | Data(session: Numeric, pos: Numeric, data: Bytes)
    | Ack(session: Numeric, length: Numeric)
    | Close(session: Numeric)

  // ---------------------------------------------------------------- numbers

  predicate IsDigit(c: Byte) {
    '0' <= c <= '9'
  }

  function DigitValue(c: Byte): (d: nat)
    requires IsDigit(c)
    ensures d < 10
  {
    c as int - '0' as int
  }

  function DigitChar(d: nat): (c: Byte)
    requires d < 10
    ensures IsDigit(c) && DigitValue(c) == d
  {
    ('0' as int + d) as char
  }

  /** What reading a number leaves behind: its value and the unread bytes. */
  datatype Read<+T> = Read(value: T, rest: Bytes)

  /** The number parser with `acc` already read; the u32 accumulator wraps. */
  function ParseNumericFrom(buffer: Bytes, acc: Numeric): (r: Result<Read<Numeric>, PacketError>)
    ensures r.Ok? ==> r.value.rest != [] && r.value.rest[0] == '/'
  {
    if buffer != [] && IsDigit(buffer[0]) then
      var r := U32(acc * 10 + DigitValue(buffer[0]));
      if r >= NUMERIC_LIMIT then Err(NumericOverflow) else ParseNumericFrom(buffer[1..], r)
    else if buffer != [] && buffer[0] == '/' then
      Ok(Read(acc, buffer))
    else
      Err(InvalidPacket)
  }

  function ParseNumeric(buffer: Bytes): Result<Read<Numeric>, PacketError> {
    ParseNumericFrom(buffer, 0)
  }

  method ReadNumeric(input: Bytes) returns (r: Result<Read<Numeric>, PacketError>)
    ensures r == ParseNumeric(input)
  {
    var buffer := input;
    var result: Numeric := 0;
    while true
      invariant ParseNumericFrom(buffer, result) == ParseNumeric(input)
      decreases |buffer|
    {
      if buffer != [] && IsDigit(buffer[0]) {
        result := U32(result * 10 + DigitValue(buffer[0]));
        if result >= NUMERIC_LIMIT {
          return Err(NumericOverflow);
        }
        buffer := buffer[1..];
      } else if buffer != [] && buffer[0] == '/' {
        return Ok(Read(result, buffer));
      } else {
        return Err(InvalidPacket);
      }
    }
  }

  /** The decimal numeral of `n`, without leading zeros. */
  function Decimal(n: nat): (s: Bytes)
    ensures s != []
    ensures forall i :: 0 <= i < |s| ==> IsDigit(s[i])
  {
    if n < 10 then [DigitChar(n)] else Decimal(n / 10) + [DigitChar(n % 10)]
  }

  function Pow10(k: nat): nat {
    if k == 0 then 1 else 10 * Pow10(k - 1)
  }

  lemma {:induction false} DecimalLength(n: nat, k: nat)
    requires 1 <= k && n < Pow10(k)
    ensures |Decimal(n)| <= k
  {
    if n >= 10 {
      assert n / 10 < Pow10(k - 1);
      DecimalLength(n / 10, k - 1);
    }
  }

  lemma DecimalFits(n: Numeric)
    ensures |Decimal(n)| <= 10
  {
    assert Pow10(5) == 100_000;
    assert Pow10(10) == 10_000_000_000 by {
      assert Pow10(7) == 100 * Pow10(5);
      assert Pow10(9) == 100 * Pow10(7);
    }
    DecimalLength(n, 10);
  }

  function Reverse(s: Bytes): (r: Bytes)
    ensures |r| == |s|
    ensures forall i :: 0 <= i < |s| ==> r[i] == s[|s| - 1 - i]
  {
    seq(|s|, i requires 0 <= i < |s| => s[|s| - 1 - i])
  }

  /** Prints a number through a ten-digit scratch array filled from the right-most digit. */
  method WriteNumeric(out: Bytes, number: Numeric) returns (out': Bytes, len: nat)
    ensures out' == out + Decimal(number)
    ensures len == |Decimal(number)|
  {
    DecimalFits(number);
    var buffer := new Byte[10];
    len := 0;
    var value := number;
    var more := true;
    ghost var printed: Bytes := [];
    while more
      invariant 0 <= value
      invariant len <= |Decimal(number)| && (more ==> len < |Decimal(number)|)
      invariant |printed| == len
      invariant more ==> Decimal(number) == Decimal(value) + printed
      invariant !more ==> Decimal(number) == printed
      invariant forall i :: 0 <= i < len ==> buffer[i] == printed[len - 1 - i]
      decreases value, more
    {
      var d, r := value / 10, value % 10;
      printed := [DigitChar(r)] + printed;
      buffer[len] := DigitChar(r);
      len := len + 1;
      if d == 0 {
        more := false;
      }
      value := d;
    }
    out' := out;
    var i := len;
    while i > 0
      invariant 0 <= i <= len
      invariant out' == out + printed[..len - i]
      invariant forall i :: 0 <= i < len ==> buffer[i] == printed[len - 1 - i]
    {
      i := i - 1;
      out' := out' + [buffer[i]];
    }
  }

  predicate AllDigits(s: Bytes) {
    forall i :: 0 <= i < |s| ==> IsDigit(s[i])
  }

  /** The number a digit field denotes, without any width. The empty field denotes zero. */
  function FieldValue(s: Bytes): nat
    requires AllDigits(s)
  {
    if s == [] then 0 else 10 * FieldValue(s[..|s| - 1]) + DigitValue(s[|s| - 1])
  }

  /** No leading part of the field wraps into the upper half of the 32-bit range. */
  ghost predicate NoPrefixOverflows(s: Bytes)
    requires AllDigits(s)
  {
    forall k {:trigger s[..k]} :: 0 <= k <= |s| ==> FieldValue(s[..k]) % U32_LIMIT < NUMERIC_LIMIT
  }

  lemma WrapStep(v: nat, d: nat)
    requires d < 10
    ensures U32((v % U32_LIMIT) * 10 + d) == (10 * v + d) % U32_LIMIT
  {
    var q, r := v / U32_LIMIT, v % U32_LIMIT;
    assert 10 * v + d == (10 * q) * U32_LIMIT + (10 * r + d);
    ModuloShift(10 * q, 10 * r + d);
  }

  lemma {:induction false} ModuloShift(q: nat, r: nat)
    ensures (q * U32_LIMIT + r) % U32_LIMIT == r % U32_LIMIT
    decreases q
  {
    if q > 0 {
      ModuloShift(q - 1, r);
      assert q * U32_LIMIT + r == ((q - 1) * U32_LIMIT + r) + U32_LIMIT;
    }
  }

  predicate NoOverflowFrom(s: Bytes, k: nat)
    requires AllDigits(s) && k <= |s|
    decreases |s| - k
  {
    FieldValue(s[..k]) % U32_LIMIT < NUMERIC_LIMIT && (k < |s| ==> NoOverflowFrom(s, k + 1))
  }

  lemma {:induction false} NoOverflowMeaning(s: Bytes, k: nat)
    requires AllDigits(s) && k <= |s|
    ensures NoOverflowFrom(s, k)
       <==> forall j {:trigger s[..j]} :: k <= j <= |s| ==> FieldValue(s[..j]) % U32_LIMIT < NUMERIC_LIMIT
    decreases |s| - k
  {
    if k < |s| {
      NoOverflowMeaning(s, k + 1);
    }
  }

  lemma {:induction false} ParseFrom(field: Bytes, k: nat, tail: Bytes)
    requires AllDigits(field) && k <= |field|
    requires tail != [] && tail[0] == '/'
    requires FieldValue(field[..k]) % U32_LIMIT < NUMERIC_LIMIT
    ensures ParseNumericFrom(field[k..] + tail, FieldValue(field[..k]) % U32_LIMIT)
         == if NoOverflowFrom(field, k) then Ok(Read(FieldValue(field) % U32_LIMIT, tail)) else Err(NumericOverflow)
    decreases |field| - k
  {
    if k == |field| {
      assert field[k..] + tail == tail;
      assert field[..k] == field;
    } else {
      var input := field[k..] + tail;
      assert input[0] == field[k] && input[1..] == field[k + 1..] + tail;
      assert field[..k + 1][..k] == field[..k];
      WrapStep(FieldValue(field[..k]), DigitValue(field[k]));
      if FieldValue(field[..k + 1]) % U32_LIMIT < NUMERIC_LIMIT {
        ParseFrom(field, k + 1, tail);
      }
    }
  }

  /** Exactly what the number parser does with a digit field closed by a slash. */
  lemma NumericFieldExact(field: Bytes, tail: Bytes)
    requires AllDigits(field)
    requires tail != [] && tail[0] == '/'
    ensures ParseNumeric(field + tail)
         == if NoPrefixOverflows(field) then Ok(Read(FieldValue(field) % U32_LIMIT, tail)) else Err(NumericOverflow)
  {
    assert field[..0] == [];
    assert field[0..] == field;
    ParseFrom(field, 0, tail);
    NoOverflowMeaning(field, 0);
  }

  /** The documented treatment of a numeric field: accepted with its value, or refused from 2^31 on. */
  function DocumentedField(field: Bytes, tail: Bytes): Result<Read<Numeric>, PacketError>
    requires AllDigits(field)
  {
    if FieldValue(field) < NUMERIC_LIMIT then Ok(Read(FieldValue(field), tail)) else Err(NumericOverflow)
  }

  lemma {:induction false} PrefixValues(field: Bytes, k: nat)
    requires AllDigits(field) && k <= |field|
    ensures FieldValue(field[..k]) <= FieldValue(field)
    decreases |field|
  {
    if k == |field| {
      assert field[..k] == field;
    } else {
      var init := field[..|field| - 1];
      assert init[..k] == field[..k];
      PrefixValues(init, k);
    }
  }

  /**
    The parser follows the document on a field exactly when the field is below
    the limit or some leading part of it reduces, modulo 2^32, to 2^31 or more.
   */
  lemma NumericFieldAsDocumentedIff(field: Bytes, tail: Bytes)
    requires AllDigits(field)
    requires tail != [] && tail[0] == '/'
    ensures ParseNumeric(field + tail) == DocumentedField(field, tail)
       <==> (FieldValue(field) < NUMERIC_LIMIT || !NoPrefixOverflows(field))
  {
    NumericFieldExact(field, tail);
    if FieldValue(field) < NUMERIC_LIMIT {
      forall k {:trigger field[..k]} | 0 <= k <= |field|
        ensures FieldValue(field[..k]) % U32_LIMIT < NUMERIC_LIMIT
      {
        PrefixValues(field, k);
      }
    }
  }

  /** Fields of at least 2^31 but below 2^32 are always refused. */
  lemma NumericFieldRefused(field: Bytes, tail: Bytes)
    requires AllDigits(field)
    requires tail != [] && tail[0] == '/'
    requires NUMERIC_LIMIT <= FieldValue(field) < U32_LIMIT
    ensures ParseNumeric(field + tail) == Err(NumericOverflow)
  {
    NumericFieldExact(field, tail);
    assert field[..|field|] == field;
  }

  lemma {:induction false} DecimalValue(n: nat)
    ensures AllDigits(Decimal(n)) && FieldValue(Decimal(n)) == n
  {
    if n >= 10 {
      DecimalValue(n / 10);
      assert Decimal(n)[..|Decimal(n)| - 1] == Decimal(n / 10);
    }
  }

  lemma PrefixesOfDecimal(n: nat)
    requires 10 <= n < 10 * NUMERIC_LIMIT && n % U32_LIMIT < NUMERIC_LIMIT
    ensures AllDigits(Decimal(n)) && NoPrefixOverflows(Decimal(n))
  {
    var field, init := Decimal(n), Decimal(n / 10);
    forall k {:trigger field[..k]} | 0 <= k <= |field|
      ensures FieldValue(field[..k]) % U32_LIMIT < NUMERIC_LIMIT
    {
      if k == |field| {
        assert field[..k] == field;
        DecimalValue(n);
      } else {
        assert field[..k] == init[..k];
        DecimalValue(n / 10);
        PrefixValues(init, k);
      }
    }
  }

  /** Numbers past 2^32 whose last digit makes the accumulator wrap are accepted with the wrong value. */
  lemma NumericFieldWraps(n: nat, tail: Bytes)
    requires U32_LIMIT <= n < 10 * NUMERIC_LIMIT && n % U32_LIMIT < NUMERIC_LIMIT
    requires tail != [] && tail[0] == '/'
    ensures AllDigits(Decimal(n))
    ensures ParseNumeric(Decimal(n) + tail) == Ok(Read(n % U32_LIMIT, tail))
    ensures ParseNumeric(Decimal(n) + tail) != DocumentedField(Decimal(n), tail)
  {
    DecimalValue(n);
    PrefixesOfDecimal(n);
    NumericFieldExact(Decimal(n), tail);
  }

  /** For instance 4294967296, which is read as 0. */
  lemma NumericFieldWrapsExample()
    ensures ParseNumeric(Decimal(4294967296) + "/") == Ok(Read(0, "/"))
  {
    NumericFieldWraps(4294967296, "/");
  }

  /** Reading back a printed number below the limit. */
  lemma NumericRoundTrip(n: Numeric, tail: Bytes)
    requires n < NUMERIC_LIMIT
    requires tail != [] && tail[0] == '/'
    ensures ParseNumeric(Decimal(n) + tail) == Ok(Read(n, tail))
  {
    DecimalValue(n);
    NumericFieldAsDocumentedIff(Decimal(n), tail);
  }

  // --------------------------------------------------------------- payloads

  predicate IsSpecial(b: Byte) {
    b == '\\' || b == '/'
  }

  function EscapeByte(b: Byte): Bytes {
    if IsSpecial(b) then ['\\', b] else [b]
  }

  /** The payload as it travels: every slash and backslash behind a backslash. */
  function Escape(s: Bytes): Bytes {
    if s == [] then [] else EscapeByte(s[0]) + Escape(s[1..])
  }

  method WritePayload(out: Bytes, value: Bytes) returns (out': Bytes, len: nat)
    ensures out' == out + Escape(value)
    ensures len == |Escape(value)|
  {
    out', len := out, 0;
    ghost var done: Bytes := [];
    for i := 0 to |value|
      invariant out' == out + done && len == |done|
      invariant Escape(value) == done + Escape(value[i..])
    {
      var b := value[i];
      assert value[i..][1..] == value[i + 1..];
      done := done + EscapeByte(b);
      if IsSpecial(b) {
        out' := out' + ['\\', b];
        len := len + 2;
      } else {
        out' := out' + [b];
        len := len + 1;
      }
    }
  }

  /** The payload parser with `acc` already unescaped and, if `skip`, a backslash just read. */
  function ParsePayloadFrom(buffer: Bytes, skip: bool, acc: Bytes): (r: Result<Read<Bytes>, PacketError>)
    ensures r.Ok? ==> r.value.rest != [] && r.value.rest[0] == '/'
    decreases |buffer|
  {
    if buffer == [] then Err(InvalidPacket)
    else if buffer[0] == '\\' && !skip then ParsePayloadFrom(buffer[1..], true, acc)
    else if buffer[0] == '/' && !skip then Ok(Read(acc, buffer))
    else if IsSpecial(buffer[0]) && skip then ParsePayloadFrom(buffer[1..], false, acc + [buffer[0]])
    else if !skip then ParsePayloadFrom(buffer[1..], false, acc + [buffer[0]])
    else Err(InvalidPacket)
  }

  function ParsePayload(buffer: Bytes): Result<Read<Bytes>, PacketError> {
    ParsePayloadFrom(buffer, false, [])
  }

  method ReadPayload(input: Bytes) returns (r: Result<Read<Bytes>, PacketError>)
    ensures r == ParsePayload(input)
  {
    var buffer := input;
    var result: Bytes := [];
    var skip := false;
    while buffer != []
      invariant ParsePayloadFrom(buffer, skip, result) == ParsePayload(input)
      decreases |buffer|
    {
      var c := buffer[0];
      if c == '\\' && !skip {
        skip := true;
      } else if c == '/' && !skip {
        return Ok(Read(result, buffer));
      } else if IsSpecial(c) && skip {
        result := result + [c];
        skip := false;
      } else if !skip {
        result := result + [c];
      } else {
        return Err(InvalidPacket);
      }
      buffer := buffer[1..];
    }
    r := Err(InvalidPacket);
  }

  lemma {:induction false} UnescapeAfter(s: Bytes, acc: Bytes, rest: Bytes)
    requires rest != [] && rest[0] == '/'
    ensures ParsePayloadFrom(Escape(s) + rest, false, acc) == Ok(Read(acc + s, rest))
    decreases |s|
  {
    if s == [] {
      assert Escape(s) + rest == rest;
      assert acc + s == acc;
    } else {
      var tail := Escape(s[1..]) + rest;
      assert Escape(s) == EscapeByte(s[0]) + Escape(s[1..]);
      hide Escape, EscapeByte, ParsePayloadFrom;
      calc {
        ParsePayloadFrom(Escape(s) + rest, false, acc);
        { assert Escape(s) + rest == EscapeByte(s[0]) + tail; }
        ParsePayloadFrom(EscapeByte(s[0]) + tail, false, acc);
        { UnescapeOne(s[0], tail, acc); }
        ParsePayloadFrom(tail, false, acc + [s[0]]);
        { UnescapeAfter(s[1..], acc + [s[0]], rest); }
        Ok(Read(acc + [s[0]] + s[1..], rest));
        { assert acc + [s[0]] + s[1..] == acc + s; }
        Ok(Read(acc + s, rest));
      }
    }
  }

  lemma UnescapeOne(b: Byte, tail: Bytes, acc: Bytes)
    ensures ParsePayloadFrom(EscapeByte(b) + tail, false, acc) == ParsePayloadFrom(tail, false, acc + [b])
  {
    var buffer := EscapeByte(b) + tail;
    if IsSpecial(b) {
      assert buffer[1..] == [b] + tail;
      assert buffer[1..][1..] == tail;
    } else {
      assert buffer[1..] == tail;
    }
  }

  lemma {:induction false} ParsedIsEscaped(buffer: Bytes, skip: bool, acc: Bytes)
    requires ParsePayloadFrom(buffer, skip, acc).Ok?
    ensures var r := ParsePayloadFrom(buffer, skip, acc).value;
      r.rest != [] && r.rest[0] == '/' && acc <= r.value
      && (if skip then ['\\'] + buffer else buffer) == Escape(r.value[|acc|..]) + r.rest
    decreases |buffer|
  {
    var r := ParsePayloadFrom(buffer, skip, acc).value;
    if buffer[0] == '\\' && !skip {
      ParsedIsEscaped(buffer[1..], true, acc);
    } else if buffer[0] == '/' && !skip {
      assert r.value[|acc|..] == [];
    } else {
      ParsedIsEscaped(buffer[1..], false, acc + [buffer[0]]);
      assert r.value[|acc|..][0] == buffer[0];
      assert r.value[|acc|..][1..] == r.value[|acc| + 1..];
      assert buffer == [buffer[0]] + buffer[1..];
    }
  }

  /**
    Escaping and the payload parser are inverse to one another: a buffer parses
    to `value` with `rest` unread exactly when it is the escaped value followed by `rest`.
   */
  lemma PayloadParserInvertsEscape(buffer: Bytes, value: Bytes, rest: Bytes)
    requires rest != [] && rest[0] == '/'
    ensures ParsePayload(buffer) == Ok(Read(value, rest)) <==> buffer == Escape(value) + rest
  {
    if ParsePayload(buffer) == Ok(Read(value, rest)) {
      ParsedIsEscaped(buffer, false, []);
    }
    if buffer == Escape(value) + rest {
      UnescapeAfter(value, [], rest);
      assert [] + value == value;
    }
  }

  /** How many leading bytes of `buffer` the sender still takes once `used` escaped bytes are filled. */
  function Greedy(buffer: Bytes, used: nat): (n: nat)
    ensures n <= |buffer|
  {
    if buffer == [] then 0
    else
      var len := used + |EscapeByte(buffer[0])|;
      if len >= BUFFER_SIZE then 0 else 1 + Greedy(buffer[1..], len)
  }

  /** The payload of the next data packet, if anything is waiting. */
  function TakePayload(buffer: Bytes): Option<Bytes> {
    if buffer == [] then None else Some(buffer[..Greedy(buffer, 0)])
  }

  method NewPayload(buffer: Bytes) returns (r: Option<Bytes>)
    ensures r == TakePayload(buffer)
  {
    if buffer == [] {
      return None;
    }
    var len := 0;
    var payload: Bytes := [];
    var i := 0;
    while i < |buffer|
      invariant 0 <= i <= |buffer| && 0 <= len
      invariant payload == buffer[..i]
      invariant Greedy(buffer, 0) == i + Greedy(buffer[i..], len)
    {
      assert buffer[i..][1..] == buffer[i + 1..];
      len := if IsSpecial(buffer[i]) then len + 2 else len + 1;
      if len >= BUFFER_SIZE {
        break;
      }
      payload := payload + [buffer[i]];
      i := i + 1;
    }
    r := Some(payload);
  }

  lemma {:induction false} GreedyIsLongest(buffer: Bytes, used: nat)
    requires used < BUFFER_SIZE
    ensures var n := Greedy(buffer, used);
      used + |Escape(buffer[..n])| < BUFFER_SIZE
      && (n < |buffer| ==> used + |Escape(buffer[..n + 1])| >= BUFFER_SIZE)
    decreases |buffer|
  {
    var n := Greedy(buffer, used);
    if buffer != [] {
      var len := used + |EscapeByte(buffer[0])|;
      if len >= BUFFER_SIZE {
        assert buffer[..1][1..] == [];
      } else {
        GreedyIsLongest(buffer[1..], len);
        assert buffer[..n][1..] == buffer[1..][..n - 1];
        if n < |buffer| {
          assert buffer[..n + 1][1..] == buffer[1..][..n];
        }
      }
    }
  }

  /** The payload is the longest prefix whose escaped form stays below the buffer size, and never empty. */
  lemma PayloadIsLongestPrefix(buffer: Bytes)
    requires buffer != []
    ensures var p := TakePayload(buffer);
      p.Some? && p.value != [] && p.value <= buffer && |Escape(p.value)| < BUFFER_SIZE
      && (p.value == buffer || |Escape(buffer[..|p.value| + 1])| >= BUFFER_SIZE)
  {
    GreedyIsLongest(buffer, 0);
    assert Greedy(buffer, 0) > 0;
  }

  // ---------------------------------------------------------------- packets

  const CONNECT_PREFIX: Bytes := "/connect/"
  const DATA_PREFIX: Bytes := "/data/"
  const ACK_PREFIX: Bytes := "/ack/"
  const CLOSE_PREFIX: Bytes := "/close/"

  function DataFields(session: Numeric, pos: Numeric, data: Bytes): Bytes {
    Decimal(session) + "/" + Decimal(pos) + "/" + Escape(data) + "/"
  }

  function AckFields(session: Numeric, length: Numeric): Bytes {
    Decimal(session) + "/" + Decimal(length) + "/"
  }

  function SessionField(session: Numeric): Bytes {
    Decimal(session) + "/"
  }

  function Print(p: Packet): Bytes {
    match p
    case Connect(session) => CONNECT_PREFIX + SessionField(session)
    case Close(session) => CLOSE_PREFIX + SessionField(session)
    case Ack(session, length) => ACK_PREFIX + AckFields(session, length)
    case Data(session, pos, data) => DATA_PREFIX + DataFields(session, pos, data)
  }

  method WriteSession(prefix: Bytes, session: Numeric) returns (out: Bytes, len: nat)
    ensures out == prefix + SessionField(session) && len == |out|
  {
    out, len := WriteNumeric(prefix, session);
    out, len := out + "/", |prefix| + len + 1;
    assert out == prefix + SessionField(session);
  }

  method WriteAck(session: Numeric, length: Numeric) returns (out: Bytes, len: nat)
    ensures out == ACK_PREFIX + AckFields(session, length) && len == |out|
  {
    var more;
    out, len := WriteNumeric(ACK_PREFIX, session);
    out, more := WriteNumeric(out + "/", length);
    out, len := out + "/", |ACK_PREFIX| + len + more + 1 + 1;
    assert out == ACK_PREFIX + AckFields(session, length);
  }

  method WriteData(session: Numeric, pos: Numeric, data: Bytes) returns (out: Bytes, len: nat)
    ensures out == DATA_PREFIX + DataFields(session, pos, data) && len == |out|
  {
    var more, last;
    out, len := WriteNumeric(DATA_PREFIX, session);
    out, more := WriteNumeric(out + "/", pos);
    out, last := WritePayload(out + "/", data);
    out, len := out + "/", |DATA_PREFIX| + len + more + last + 2 + 1;
    assert out == DATA_PREFIX + DataFields(session, pos, data);
  }

  method WritePacket(p: Packet) returns (out: Bytes, len: nat)
    ensures out == Print(p) && len == |out|
  {
    match p
    case Connect(session) => out, len := WriteSession(CONNECT_PREFIX, session);
    case Close(session) => out, len := WriteSession(CLOSE_PREFIX, session);
    case Ack(session, length) => out, len := WriteAck(session, length);
    case Data(session, pos, data) => out, len := WriteData(session, pos, data);
  }

  function ParseDataFields(fields: Bytes): Result<Packet, PacketError> {
    var s :- ParseNumeric(fields);
    var pos :- ParseNumeric(s.rest[1..]);
    var data :- ParsePayload(pos.rest[1..]);
    if data.rest != "/" then Err(InvalidPacket) else Ok(Data(s.value, pos.value, data.value))
  }

  function ParseAckFields(fields: Bytes): Result<Packet, PacketError> {
    var s :- ParseNumeric(fields);
    var length :- ParseNumeric(s.rest[1..]);
    if length.rest != "/" then Err(InvalidPacket) else Ok(Ack(s.value, length.value))
  }

  function ParseSessionField(fields: Bytes): Result<Numeric, PacketError> {
    var s :- ParseNumeric(fields);
    if s.rest != "/" then Err(InvalidPacket) else Ok(s.value)
  }

  function ParsePacket(buffer: Bytes): Result<Packet, PacketError> {
    if buffer != [] && buffer[|buffer| - 1] == '/' && |buffer| < MAX_PACKET then
      if CONNECT_PREFIX <= buffer then
        var s :- ParseSessionField(buffer[|CONNECT_PREFIX|..]);
        Ok(Connect(s))
      else if DATA_PREFIX <= buffer then
        ParseDataFields(buffer[|DATA_PREFIX|..])
      else if ACK_PREFIX <= buffer then
        ParseAckFields(buffer[|ACK_PREFIX|..])
      else if CLOSE_PREFIX <= buffer then
        var s :- ParseSessionField(buffer[|CLOSE_PREFIX|..]);
        Ok(Close(s))
      else Err(UnknownPacket)
    else Err(UnknownPacket)
  }

  /** What the protocol asks of a packet before it may be sent. */
  predicate Sendable(p: Packet) {
    p.session < NUMERIC_LIMIT
    && (p.Ack? ==> p.length < NUMERIC_LIMIT)
    && (p.Data? ==> p.pos < NUMERIC_LIMIT && |Escape(p.data)| < BUFFER_SIZE)
  }

  lemma SessionFieldRoundTrip(session: Numeric)
    requires session < NUMERIC_LIMIT
    ensures var f := SessionField(session);
      1 < |f| <= 11 && f[|f| - 1] == '/' && ParseSessionField(f) == Ok(session)
  {
    DecimalFits(session);
    NumericRoundTrip(session, "/");
  }

  lemma AckFieldsRoundTrip(session: Numeric, length: Numeric)
    requires session < NUMERIC_LIMIT && length < NUMERIC_LIMIT
    ensures var f := AckFields(session, length);
      1 < |f| <= 22 && f[|f| - 1] == '/' && ParseAckFields(f) == Ok(Ack(session, length))
  {
    DecimalFits(session);
    DecimalFits(length);
    var tail := Decimal(length) + "/";
    assert AckFields(session, length) == Decimal(session) + ("/" + tail);
    NumericRoundTrip(session, "/" + tail);
    assert ("/" + tail)[1..] == tail;
    NumericRoundTrip(length, "/");
  }

  lemma DataFieldsRoundTrip(session: Numeric, pos: Numeric, data: Bytes)
    requires session < NUMERIC_LIMIT && pos < NUMERIC_LIMIT && |Escape(data)| < BUFFER_SIZE
    ensures var f := DataFields(session, pos, data);
      1 < |f| < MAX_PACKET - 10 && f[|f| - 1] == '/' && ParseDataFields(f) == Ok(Data(session, pos, data))
  {
    hide ParseNumericFrom, ParsePayloadFrom, Escape, Decimal;
    DecimalFits(session);
    DecimalFits(pos);
    var tail2 := Escape(data) + "/";
    var tail1 := Decimal(pos) + ("/" + tail2);
    assert DataFields(session, pos, data) == Decimal(session) + ("/" + tail1);
    NumericRoundTrip(session, "/" + tail1);
    assert ("/" + tail1)[1..] == tail1;
    NumericRoundTrip(pos, "/" + tail2);
    assert ("/" + tail2)[1..] == tail2;
    PayloadParserInvertsEscape(tail2, data, "/");
  }

  predicate FieldsShape(fields: Bytes) {
    1 < |fields| < MAX_PACKET - 10 && fields[|fields| - 1] == '/'
  }

  lemma DataDispatch(fields: Bytes)
    requires FieldsShape(fields)
    ensures ParsePacket(DATA_PREFIX + fields) == ParseDataFields(fields)
  {
    var buffer := DATA_PREFIX + fields;
    assert buffer[1] == 'd' && buffer[|DATA_PREFIX|..] == fields;
  }

  lemma AckDispatch(fields: Bytes)
    requires FieldsShape(fields)
    ensures ParsePacket(ACK_PREFIX + fields) == ParseAckFields(fields)
  {
    var buffer := ACK_PREFIX + fields;
    assert buffer[1] == 'a' && buffer[|ACK_PREFIX|..] == fields;
  }

  lemma SessionDispatch(fields: Bytes, session: Numeric)
    requires FieldsShape(fields) && ParseSessionField(fields) == Ok(session)
    ensures ParsePacket(CONNECT_PREFIX + fields) == Ok(Connect(session))
    ensures ParsePacket(CLOSE_PREFIX + fields) == Ok(Close(session))
  {
    var open, close := CONNECT_PREFIX + fields, CLOSE_PREFIX + fields;
    assert open[|CONNECT_PREFIX|..] == fields;
    assert close[1] == 'c' && close[2] == 'l' && close[|CLOSE_PREFIX|..] == fields;
  }

  /** A sendable packet fits a datagram and is read back as itself. */
  lemma PacketRoundTrip(p: Packet)
    requires Sendable(p)
    ensures |Print(p)| < MAX_PACKET
    ensures ParsePacket(Print(p)) == Ok(p)
  {
    match p
    case Connect(session) =>
      SessionFieldRoundTrip(session);
      SessionDispatch(SessionField(session), session);
    case Close(session) =>
      SessionFieldRoundTrip(session);
      SessionDispatch(SessionField(session), session);
    case Ack(session, length) =>
      AckFieldsRoundTrip(session, length);
      AckDispatch(AckFields(session, length));
    case Data(session, pos, data) =>
      DataFieldsRoundTrip(session, pos, data);
      DataDispatch(DataFields(session, pos, data));
  }
}
