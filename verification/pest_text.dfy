/** The text check of the wire format is UTF-8: texts are exactly the encodings of Unicode scalar values (RFC 3629, section 3). */
module PestText {
  import opened ByteTypes
  import opened PestPackets
  import opened PestWire

  predicate IsScalar(c: nat) {
    c < 0xd800 || 0xe000 <= c < 0x11_0000
  }

  function Utf8(c: nat): (r: Bytes)
    requires IsScalar(c)
    ensures |r| > 0
  {
    if c < 0x80 then [c]
    else if c < 0x800 then [0xc0 + c / 0x40, 0x80 + c % 0x40]
    else if c < 0x1_0000 then [0xe0 + c / 0x1000, 0x80 + c / 0x40 % 0x40, 0x80 + c % 0x40]
    else [0xf0 + c / 0x4_0000, 0x80 + c / 0x1000 % 0x40, 0x80 + c / 0x40 % 0x40, 0x80 + c % 0x40]
  }

  function TextOf(cs: seq<nat>): Text
    requires forall i :: 0 <= i < |cs| ==> IsScalar(cs[i])
  {
    if cs == [] then [] else Utf8(cs[0]) + TextOf(cs[1..])
  }

  lemma EncodedIsChar(c: nat, rest: Text)
    requires IsScalar(c)
    ensures CharLength(Utf8(c) + rest) == |Utf8(c)|
  {
    var t := Utf8(c) + rest;
    assert forall i :: 0 <= i < |Utf8(c)| ==> t[i] == Utf8(c)[i];
  }

  /** The scalar value of a character of one or two bytes, and of three or four. */
  lemma ShortChar(t: Text) returns (c: nat)
    requires 1 <= CharLength(t) <= 2
    ensures IsScalar(c) && Utf8(c) == t[..CharLength(t)]
  {
    c := if t[0] < 0x80 then t[0] else (t[0] as int - 0xc0) * 0x40 + (t[1] as int - 0x80);
  }

  lemma LongChar(t: Text) returns (c: nat)
    requires CharLength(t) == 3
    ensures IsScalar(c) && Utf8(c) == t[..3]
  {
    var a: int, b: int, d: int := t[0] - 0xe0, t[1] - 0x80, t[2] - 0x80;
    c := a * 0x1000 + b * 0x40 + d;
    assert c / 0x40 == a * 0x40 + b;
  }

  lemma LongestChar(t: Text) returns (c: nat)
    requires CharLength(t) == 4
    ensures IsScalar(c) && Utf8(c) == t[..4]
  {
    var a: int, b: int, d: int, e: int := t[0] - 0xf0, t[1] - 0x80, t[2] - 0x80, t[3] - 0x80;
    c := a * 0x4_0000 + b * 0x1000 + d * 0x40 + e;
    assert c / 0x40 == a * 0x1000 + b * 0x40 + d;
    assert c / 0x1000 == a * 0x40 + b;
  }

  lemma CharIsEncoded(t: Text) returns (c: nat)
    requires CharLength(t) > 0
    ensures IsScalar(c) && Utf8(c) == t[..CharLength(t)]
  {
    AtMostFour(t);
    hide CharLength, Utf8;
    if CharLength(t) <= 2 { c := ShortChar(t); }
    else if CharLength(t) == 3 { c := LongChar(t); }
    else { c := LongestChar(t); }
  }

  lemma AtMostFour(t: Text)
    ensures CharLength(t) <= 4
  {
  }

  lemma {:induction false} TextIsEncoded(t: Text) returns (cs: seq<nat>)
    requires IsUtf8(t)
    ensures (forall i :: 0 <= i < |cs| ==> IsScalar(cs[i])) && t == TextOf(cs)
    decreases |t|
  {
    hide CharLength, Utf8;
    cs := [];
    if t != [] {
      var c := CharIsEncoded(t);
      var more := TextIsEncoded(t[CharLength(t)..]);
      cs := [c] + more;
      assert cs[1..] == more;
    }
  }

  lemma {:induction false} EncodedIsText(cs: seq<nat>)
    requires forall i :: 0 <= i < |cs| ==> IsScalar(cs[i])
    ensures IsUtf8(TextOf(cs))
    decreases |cs|
  {
    hide CharLength, Utf8, IsScalar;
    if cs != [] {
      EncodedIsChar(cs[0], TextOf(cs[1..]));
      EncodedIsText(cs[1..]);
    }
  }

  lemma Utf8Iff(t: Text)
    ensures IsUtf8(t) <==> exists cs: seq<nat> :: (forall i :: 0 <= i < |cs| ==> IsScalar(cs[i])) && t == TextOf(cs)
  {
    hide IsScalar;
    if IsUtf8(t) {
      var cs := TextIsEncoded(t);
    }
    if cs: seq<nat> :| (forall i :: 0 <= i < |cs| ==> IsScalar(cs[i])) && t == TextOf(cs) {
      EncodedIsText(cs);
    }
  }
}
