/** The obfuscation layer: byte operations that depend on the position in the stream, and the codec that uses them. */
module Cipher {
  type Position = bv64

  datatype Operation = ReverseBits | Xor(n: bv8) | XorPos | Add(n: bv8) | AddPos

  type Spec = seq<Operation>
  type Bytes = seq<bv8>

  // ------------------------------------------------------------ operations

  function Low(position: Position): bv8 {
    (position & 0xff) as bv8
  }

  function Reversed(v: bv8): bv8 {
    ((v & 0x01) << 7) | ((v & 0x02) << 5) | ((v & 0x04) << 3) | ((v & 0x08) << 1)
    | ((v & 0x10) >> 1) | ((v & 0x20) >> 3) | ((v & 0x40) >> 5) | ((v & 0x80) >> 7)
  }

  function WrappingAdd(a: bv8, b: bv8): bv8 {
    a + b
  }

  function WrappingSub(a: bv8, b: bv8): bv8 {
    a - b
  }

  function BitXor(a: bv8, b: bv8): bv8 {
    a ^ b
  }

  function EncodeOne(op: Operation, position: Position, value: bv8): bv8 {
    match op
    case ReverseBits => Reversed(value)
    case Xor(n) => BitXor(value, n)
    case XorPos => Low(position ^ value as bv64)
    case Add(n) => WrappingAdd(value, n)
    case AddPos => Low(position + value as bv64)
  }

  function DecodeOne(op: Operation, position: Position, value: bv8): bv8 {
    match op
    case ReverseBits => Reversed(value)
    case Xor(n) => BitXor(value, n)
    case XorPos => Low(position ^ value as bv64)
    case Add(n) => WrappingSub(value, n)
    case AddPos => Low(value as bv64 - position)
  }

  lemma ReversedTwice(v: bv8)
    ensures Reversed(Reversed(v)) == v
  {
  }

  predicate Bit(v: bv8, k: nat)
    requires k < 8
  {
    (v >> k) & 1 == 1
  }

  /** The reversal of a byte has its bits in opposite order: the lowest becomes the highest, and so on. */
  lemma ReversedBits(v: bv8, k: nat)
    requires k < 8
    ensures Bit(Reversed(v), k) <==> Bit(v, 7 - k)
  {
    hide Reversed, Bit;
    BitsReversed(v);
    assert k == 0 || k == 1 || k == 2 || k == 3 || k == 4 || k == 5 || k == 6 || k == 7;
  }

  lemma BitsReversed(v: bv8)
    ensures Bit(Reversed(v), 0) <==> Bit(v, 7)
    ensures Bit(Reversed(v), 1) <==> Bit(v, 6)
    ensures Bit(Reversed(v), 2) <==> Bit(v, 5)
    ensures Bit(Reversed(v), 3) <==> Bit(v, 4)
    ensures Bit(Reversed(v), 4) <==> Bit(v, 3)
    ensures Bit(Reversed(v), 5) <==> Bit(v, 2)
    ensures Bit(Reversed(v), 6) <==> Bit(v, 1)
    ensures Bit(Reversed(v), 7) <==> Bit(v, 0)
  {
  }

  lemma LowXor(position: Position, v: bv8)
    ensures Low(position ^ v as bv64) == BitXor(v, Low(position))
  {
  }

  lemma LowAdd(position: Position, v: bv8)
    ensures Low(position + v as bv64) == WrappingAdd(v, Low(position))
  {
    assert ((position + v as bv64) & 0xff) as bv8 == v + ((position & 0xff) as bv8);
  }

  lemma LowSub(position: Position, v: bv8)
    ensures Low(v as bv64 - position) == WrappingSub(v, Low(position))
  {
    assert ((v as bv64 - position) & 0xff) as bv8 == v - ((position & 0xff) as bv8);
  }

  /** The operations on bytes, by the low byte of the position. */
  function EncodeByte(op: Operation, p: bv8, v: bv8): bv8 {
    match op
    case ReverseBits => Reversed(v)
    case Xor(n) => BitXor(v, n)
    case XorPos => BitXor(v, p)
    case Add(n) => WrappingAdd(v, n)
    case AddPos => WrappingAdd(v, p)
  }

  function DecodeByte(op: Operation, p: bv8, v: bv8): bv8 {
    match op
    case ReverseBits => Reversed(v)
    case Xor(n) => BitXor(v, n)
    case XorPos => BitXor(v, p)
    case Add(n) => WrappingSub(v, n)
    case AddPos => WrappingSub(v, p)
  }

  /** Only the low byte of the position counts, although the whole of it takes part. */
  lemma OnlyLow(op: Operation, position: Position, v: bv8)
    ensures EncodeOne(op, position, v) == EncodeByte(op, Low(position), v)
    ensures DecodeOne(op, position, v) == DecodeByte(op, Low(position), v)
  {
    hide Low, Reversed, BitXor, WrappingAdd, WrappingSub;
    if op == XorPos {
      LowXor(position, v);
    } else if op == AddPos {
      LowAdd(position, v);
      LowSub(position, v);
    }
  }

  lemma AddSub(a: bv8, b: bv8)
    ensures WrappingSub(WrappingAdd(a, b), b) == a
    ensures WrappingAdd(WrappingSub(a, b), b) == a
  {
    assert (a + b) - b == a && (a - b) + b == a;
  }

  lemma XorTwice(a: bv8, b: bv8)
    ensures BitXor(BitXor(a, b), b) == a
  {
    assert (a ^ b) ^ b == a;
  }

  lemma ByteInverse(op: Operation, p: bv8, v: bv8)
    ensures Undoes(op, p, v)
  {
    hide Undoes;
    match op
    case ReverseBits => ReverseInverse(p, v);
    case Xor(n) => XorInverse(n, p, v);
    case XorPos => XorPosInverse(p, v);
    case Add(n) => AddInverse(n, p, v);
    case AddPos => AddPosInverse(p, v);
  }

  predicate Undoes(op: Operation, p: bv8, v: bv8) {
    DecodeByte(op, p, EncodeByte(op, p, v)) == v && EncodeByte(op, p, DecodeByte(op, p, v)) == v
  }

  lemma ReverseInverse(p: bv8, v: bv8)
    ensures Undoes(ReverseBits, p, v)
  {
    hide Reversed, BitXor, WrappingAdd, WrappingSub;
    ReversedTwice(v);
  }

  lemma XorInverse(n: bv8, p: bv8, v: bv8)
    ensures Undoes(Xor(n), p, v)
  {
    hide Reversed, BitXor, WrappingAdd, WrappingSub;
    XorTwice(v, n);
  }

  lemma XorPosInverse(p: bv8, v: bv8)
    ensures Undoes(XorPos, p, v)
  {
    hide Reversed, BitXor, WrappingAdd, WrappingSub;
    XorTwice(v, p);
  }

  lemma AddInverse(n: bv8, p: bv8, v: bv8)
    ensures Undoes(Add(n), p, v)
  {
    hide Reversed, BitXor, WrappingAdd, WrappingSub;
    AddSub(v, n);
  }

  lemma AddPosInverse(p: bv8, v: bv8)
    ensures Undoes(AddPos, p, v)
  {
    hide Reversed, BitXor, WrappingAdd, WrappingSub;
    AddSub(v, p);
  }

  lemma OneInverse(op: Operation, position: Position, v: bv8)
    ensures DecodeOne(op, position, EncodeOne(op, position, v)) == v
    ensures EncodeOne(op, position, DecodeOne(op, position, v)) == v
  {
    hide EncodeOne, DecodeOne, EncodeByte, DecodeByte, Low;
    OnlyLow(op, position, v);
    OnlyLow(op, position, EncodeOne(op, position, v));
    OnlyLow(op, position, DecodeOne(op, position, v));
    ByteInverse(op, Low(position), v);
  }

  lemma XorBits(a: bv8, b: bv8)
    ensures Bit(BitXor(a, b), 0) <==> Bit(a, 0) != Bit(b, 0)
    ensures Bit(BitXor(a, b), 1) <==> Bit(a, 1) != Bit(b, 1)
    ensures Bit(BitXor(a, b), 2) <==> Bit(a, 2) != Bit(b, 2)
    ensures Bit(BitXor(a, b), 3) <==> Bit(a, 3) != Bit(b, 3)
    ensures Bit(BitXor(a, b), 4) <==> Bit(a, 4) != Bit(b, 4)
    ensures Bit(BitXor(a, b), 5) <==> Bit(a, 5) != Bit(b, 5)
    ensures Bit(BitXor(a, b), 6) <==> Bit(a, 6) != Bit(b, 6)
    ensures Bit(BitXor(a, b), 7) <==> Bit(a, 7) != Bit(b, 7)
  {
  }

  lemma BitsOfXor(a: bv8, b: bv8, k: nat)
    requires k < 8
    ensures Bit(BitXor(a, b), k) <==> Bit(a, k) != Bit(b, k)
  {
    hide BitXor, Bit;
    XorBits(a, b);
    assert k == 0 || k == 1 || k == 2 || k == 3 || k == 4 || k == 5 || k == 6 || k == 7;
  }

  predicate PositionBit(position: Position, k: nat)
    requires k < 8
  {
    (position >> k) & 1 == 1
  }

  lemma LowBits(position: Position)
    ensures Bit(Low(position), 0) <==> PositionBit(position, 0)
    ensures Bit(Low(position), 1) <==> PositionBit(position, 1)
    ensures Bit(Low(position), 2) <==> PositionBit(position, 2)
    ensures Bit(Low(position), 3) <==> PositionBit(position, 3)
    ensures Bit(Low(position), 4) <==> PositionBit(position, 4)
    ensures Bit(Low(position), 5) <==> PositionBit(position, 5)
    ensures Bit(Low(position), 6) <==> PositionBit(position, 6)
    ensures Bit(Low(position), 7) <==> PositionBit(position, 7)
  {
  }

  lemma BitsOfLow(position: Position, k: nat)
    requires k < 8
    ensures Bit(Low(position), k) <==> PositionBit(position, k)
  {
    hide Low, Bit, PositionBit;
    LowBits(position);
    assert k == 0 || k == 1 || k == 2 || k == 3 || k == 4 || k == 5 || k == 6 || k == 7;
  }

  lemma Difference(a: bv8, b: bv8)
    ensures WrappingSub(WrappingAdd(a, b), a) == b
  {
    assert (a + b) - a == b;
  }

  /** What each operation makes of a byte, bit by bit or as a difference of bytes, which wraps. */
  lemma OperationMeans(op: Operation, position: Position, v: bv8, k: nat)
    requires k < 8
    ensures var r := EncodeOne(op, position, v);
      match op
      case ReverseBits => Bit(r, k) <==> Bit(v, 7 - k)
      case Xor(n) => Bit(r, k) <==> Bit(v, k) != Bit(n, k)
      case XorPos => Bit(r, k) <==> Bit(v, k) != PositionBit(position, k)
      case Add(n) => WrappingSub(r, v) == n
      case AddPos => WrappingSub(r, v) == Low(position)
  {
    hide EncodeOne, Low, Reversed, BitXor, WrappingAdd, WrappingSub, Bit, PositionBit;
    OnlyLow(op, position, v);
    match op
    case ReverseBits => ReversedBits(v, k);
    case Xor(n) => BitsOfXor(v, n, k);
    case XorPos => BitsOfXor(v, Low(position), k); BitsOfLow(position, k);
    case Add(n) => Difference(v, n);
    case AddPos => Difference(v, Low(position));
  }

  // ----------------------------------------------------------------- specs

  function Encode(spec: Spec, position: Position, v: bv8): bv8 {
    if spec == [] then v else Encode(spec[1..], position, EncodeOne(spec[0], position, v))
  }

  function Decode(spec: Spec, position: Position, v: bv8): bv8 {
    if spec == [] then v else DecodeOne(spec[0], position, Decode(spec[1..], position, v))
  }

  /** At every position, encoding and decoding undo each other: both are permutations of the bytes. */
  lemma {:induction false} SpecInverse(spec: Spec, position: Position, v: bv8)
    ensures Decode(spec, position, Encode(spec, position, v)) == v
    ensures Encode(spec, position, Decode(spec, position, v)) == v
  {
    hide EncodeOne, DecodeOne;
    if spec != [] {
      OneInverse(spec[0], position, v);
      SpecInverse(spec[1..], position, EncodeOne(spec[0], position, v));
      SpecInverse(spec[1..], position, v);
      OneInverse(spec[0], position, Decode(spec[1..], position, v));
    }
  }

  method EncodeValue(spec: Spec, position: Position, v: bv8) returns (value: bv8)
    ensures value == Encode(spec, position, v)
  {
    hide EncodeOne;
    value := v;
    for i := 0 to |spec|
      invariant Encode(spec[i..], position, value) == Encode(spec, position, v)
    {
      assert spec[i..][1..] == spec[i + 1..];
      value := EncodeOne(spec[i], position, value);
    }
  }

  method DecodeValue(spec: Spec, position: Position, v: bv8) returns (value: bv8)
    ensures value == Decode(spec, position, v)
  {
    hide DecodeOne;
    value := v;
    for i := |spec| downto 0
      invariant value == Decode(spec[i..], position, v)
    {
      assert spec[i..][1..] == spec[i + 1..];
      value := DecodeOne(spec[i], position, value);
    }
    assert spec[0..] == spec;
  }

  // --------------------------------------------------------------- streams

  function EncodeStream(spec: Spec, position: Position, s: Bytes): Bytes
    decreases |s|
  {
    if s == [] then [] else [Encode(spec, position, s[0])] + EncodeStream(spec, position + 1, s[1..])
  }

  function DecodeStream(spec: Spec, position: Position, s: Bytes): Bytes
    decreases |s|
  {
    if s == [] then [] else [Decode(spec, position, s[0])] + DecodeStream(spec, position + 1, s[1..])
  }

  /** Streams come back whole when both ends count from the same position, also past the end of the counter. */
  lemma {:induction false} StreamInverse(spec: Spec, position: Position, s: Bytes)
    ensures DecodeStream(spec, position, EncodeStream(spec, position, s)) == s
    ensures EncodeStream(spec, position, DecodeStream(spec, position, s)) == s
    decreases |s|
  {
    hide Encode, Decode;
    if s != [] {
      SpecInverse(spec, position, s[0]);
      StreamInverse(spec, position + 1, s[1..]);
      assert s == [s[0]] + s[1..];
    }
  }

  // ------------------------------------------------------ no-op detection

  const CHECK_PHRASE: Bytes := [0x68, 0x65, 0x6c, 0x6c, 0x6f]

  function PositionOf(i: nat): Position
    requires i < 5
  {
    if i == 0 then 0 else if i == 1 then 1 else if i == 2 then 2 else if i == 3 then 3 else 4
  }

  /** A spec is accepted if it changes the check phrase. */
  predicate IsValid(spec: Spec) {
    exists i :: 0 <= i < 5 && Encode(spec, PositionOf(i), CHECK_PHRASE[i]) != CHECK_PHRASE[i]
  }

  lemma StreamOne(spec: Spec, position: Position, s: Bytes)
    requires s != []
    ensures EncodeStream(spec, position, s) == [Encode(spec, position, s[0])] + EncodeStream(spec, position + 1, s[1..])
  {
  }

  /** The first five bytes of a stream. */
  lemma FirstFive(spec: Spec, s: Bytes)
    requires |s| == 5
    ensures EncodeStream(spec, 0, s) ==
            [Encode(spec, 0, s[0]), Encode(spec, 1, s[1]), Encode(spec, 2, s[2]), Encode(spec, 3, s[3]), Encode(spec, 4, s[4])]
  {
    hide Encode, EncodeStream;
    StreamOne(spec, 0, s);
    StreamOne(spec, 1, s[1..]);
    StreamOne(spec, 2, s[2..]);
    StreamOne(spec, 3, s[3..]);
    StreamOne(spec, 4, s[4..]);
    assert s[1..][1..] == s[2..] && s[2..][1..] == s[3..] && s[3..][1..] == s[4..] && s[4..][1..] == [];
    StreamEnds(spec, 5);
  }

  lemma StreamEnds(spec: Spec, position: Position)
    ensures EncodeStream(spec, position, []) == []
  {
  }

  /** A spec is accepted if and only if it does not send "hello" as it is. */
  lemma ValidIff(spec: Spec)
    ensures IsValid(spec) <==> EncodeStream(spec, 0, [0x68, 0x65, 0x6c, 0x6c, 0x6f]) != [0x68, 0x65, 0x6c, 0x6c, 0x6f]
  {
    hide Encode, EncodeStream;
    FirstFive(spec, [0x68, 0x65, 0x6c, 0x6c, 0x6f]);
    Letters(spec);
  }

  lemma Letters(spec: Spec)
    ensures !IsValid(spec) <==>
      && Encode(spec, 0, 0x68) == 0x68 && Encode(spec, 1, 0x65) == 0x65 && Encode(spec, 2, 0x6c) == 0x6c
      && Encode(spec, 3, 0x6c) == 0x6c && Encode(spec, 4, 0x6f) == 0x6f
  {
    hide Encode;
    if !IsValid(spec) {
      assert Encode(spec, PositionOf(0), CHECK_PHRASE[0]) == CHECK_PHRASE[0];
      assert Encode(spec, PositionOf(1), CHECK_PHRASE[1]) == CHECK_PHRASE[1];
      assert Encode(spec, PositionOf(2), CHECK_PHRASE[2]) == CHECK_PHRASE[2];
      assert Encode(spec, PositionOf(3), CHECK_PHRASE[3]) == CHECK_PHRASE[3];
      assert Encode(spec, PositionOf(4), CHECK_PHRASE[4]) == CHECK_PHRASE[4];
    }
  }

  /** A spec that leaves every byte at every position unchanged. */
  ghost predicate NoOp(spec: Spec) {
    forall position: Position, v: bv8 :: Encode(spec, position, v) == v
  }

  /** Every no-op is refused. */
  lemma NoOpIsRefused(spec: Spec)
    requires NoOp(spec)
    ensures !IsValid(spec)
  {
    hide Encode;
  }

  /** A spec that is no no-op, and is refused all the same: it spares all letters of the check phrase. */
  lemma RefusedForNothing()
    ensures var spec := [Add(0x10), Xor(0x10)]; !IsValid(spec) && !NoOp(spec)
  {
    var spec := [Add(0x10), Xor(0x10)];
    forall i | 0 <= i < 5 ensures Encode(spec, PositionOf(i), CHECK_PHRASE[i]) == CHECK_PHRASE[i] {
      AddThenXor(PositionOf(i), CHECK_PHRASE[i], 0x10);
    }
    AddThenXor(0, 0x10, 0x10);
    assert Encode(spec, 0, 0x10) == 0x30;
  }

  lemma AddThenXor(position: Position, v: bv8, n: bv8)
    ensures Encode([Add(n), Xor(n)], position, v) == BitXor(WrappingAdd(v, n), n)
  {
    hide WrappingAdd, BitXor, Low, Reversed;
    var v' := WrappingAdd(v, n);
    assert [Add(n), Xor(n)][1..] == [Xor(n)] && [Xor(n)][1..] == [];
    assert Encode([Xor(n)], position, v') == Encode([], position, BitXor(v', n));
  }

  /** The operations that do not carry from bit to bit. */
  predicate Carryless(spec: Spec) {
    forall op <- spec :: !op.Add? && !op.AddPos?
  }

  /** What a spec without carries does: perhaps a reversal, and an exclusive or that depends on the position. */
  datatype Linear = Linear(reverse: bool, c: bv8, forward: bool, backward: bool)

  function Term(on: bool, p: bv8): bv8 {
    if on then p else 0
  }

  function Apply(l: Linear, p: bv8, v: bv8): bv8 {
    BitXor(BitXor(if l.reverse then Reversed(v) else v, l.c), BitXor(Term(l.forward, p), Term(l.backward, Reversed(p))))
  }

  function Then(l: Linear, op: Operation): Linear
    requires !op.Add? && !op.AddPos?
  {
    match op
    case ReverseBits => Linear(!l.reverse, Reversed(l.c), l.backward, l.forward)
    case Xor(n) => l.(c := BitXor(l.c, n))
    case XorPos => l.(forward := !l.forward)
  }

  lemma ReversedXor(a: bv8, b: bv8)
    ensures Reversed(BitXor(a, b)) == BitXor(Reversed(a), Reversed(b))
  {
  }

  lemma ReversedTerm(on: bool, p: bv8)
    ensures Reversed(Term(on, p)) == Term(on, Reversed(p))
  {
  }

  lemma XorShuffle(a: bv8, b: bv8, c: bv8)
    ensures BitXor(a, b) == BitXor(b, a)
    ensures BitXor(BitXor(a, b), c) == BitXor(a, BitXor(b, c))
    ensures BitXor(a, a) == 0 && BitXor(a, 0) == a
  {
  }

  lemma ThenReverse(l: Linear, p: bv8, v: bv8)
    ensures Apply(Then(l, ReverseBits), p, v) == Reversed(Apply(l, p, v))
  {
    hide BitXor, Reversed, Term;
    var w := if l.reverse then Reversed(v) else v;
    var f, b := Term(l.forward, p), Term(l.backward, Reversed(p));
    ReversedXor(BitXor(w, l.c), BitXor(f, b));
    ReversedXor(w, l.c);
    ReversedXor(f, b);
    ReversedTerm(l.forward, p);
    ReversedTerm(l.backward, Reversed(p));
    ReversedTwice(v);
    ReversedTwice(p);
    XorShuffle(Reversed(f), Reversed(b), 0);
  }

  lemma ThenXor(l: Linear, n: bv8, p: bv8, v: bv8)
    ensures Apply(Then(l, Xor(n)), p, v) == BitXor(Apply(l, p, v), n)
  {
    hide BitXor, Reversed, Term;
    var w := if l.reverse then Reversed(v) else v;
    var t := BitXor(Term(l.forward, p), Term(l.backward, Reversed(p)));
    XorSwap(BitXor(w, l.c), t, n);
    XorShuffle(w, l.c, n);
  }

  lemma XorSwap(a: bv8, b: bv8, c: bv8)
    ensures BitXor(BitXor(a, b), c) == BitXor(BitXor(a, c), b)
  {
  }

  lemma ThenXorPos(l: Linear, p: bv8, v: bv8)
    ensures Apply(Then(l, XorPos), p, v) == BitXor(Apply(l, p, v), p)
  {
    hide BitXor, Reversed;
    var w := BitXor(if l.reverse then Reversed(v) else v, l.c);
    var f, b := Term(l.forward, p), Term(l.backward, Reversed(p));
    XorShuffle(w, BitXor(f, b), p);
    XorSwap(f, b, p);
    XorShuffle(p, p, 0);
    XorShuffle(0, p, 0);
  }

  /** A spec without carries has a form that gives all it does. */
  lemma {:induction false} LinearForm(spec: Spec, l: Linear) returns (r: Linear)
    requires Carryless(spec)
    ensures forall position: Position, v: bv8 :: Encode(spec, position, Apply(l, Low(position), v)) == Apply(r, Low(position), v)
  {
    hide EncodeOne, Apply, Low, Then;
    if spec == [] {
      r := l;
    } else {
      assert forall op <- spec[1..] :: op in spec;
      r := LinearForm(spec[1..], Then(l, spec[0]));
      forall position: Position, v: bv8
        ensures Encode(spec, position, Apply(l, Low(position), v)) == Apply(r, Low(position), v)
      {
        ThenOne(l, spec[0], position, v);
      }
    }
  }

  lemma ThenOne(l: Linear, op: Operation, position: Position, v: bv8)
    requires !op.Add? && !op.AddPos?
    ensures EncodeOne(op, position, Apply(l, Low(position), v)) == Apply(Then(l, op), Low(position), v)
  {
    hide Apply, Low, EncodeOne, Then, BitXor, Reversed;
    OnlyLow(op, position, Apply(l, Low(position), v));
    match op
    case ReverseBits => ThenReverse(l, Low(position), v);
    case Xor(n) => ThenXor(l, n, Low(position), v);
    case XorPos => ThenXorPos(l, Low(position), v);
  }

  const NOTHING: Linear := Linear(false, 0, false, false)

  /** A form that spares the check phrase does nothing at all. */
  lemma SparesAll(l: Linear)
    requires Apply(l, 0, 0x68) == 0x68 && Apply(l, 1, 0x65) == 0x65 && Apply(l, 2, 0x6c) == 0x6c
    ensures l == NOTHING
  {
  }

  lemma NothingApplied(p: bv8, v: bv8)
    ensures Apply(NOTHING, p, v) == v
  {
    hide Reversed;
  }

  lemma CarrylessIff(spec: Spec)
    requires Carryless(spec) && !IsValid(spec)
    ensures NoOp(spec)
  {
    hide Encode, Apply, Low;
    var l := LinearForm(spec, NOTHING);
    LowLetters();
    forall position: Position, v: bv8
      ensures Encode(spec, position, v) == Apply(l, Low(position), v)
    {
      NothingApplied(Low(position), v);
    }
    Spared(spec);
    SparesAll(l);
    forall position: Position, v: bv8 ensures Encode(spec, position, v) == v {
      NothingApplied(Low(position), v);
    }
  }

  /** The letters of the check phrase that decide. */
  lemma Spared(spec: Spec)
    requires !IsValid(spec)
    ensures Encode(spec, PositionOf(0), 0x68) == 0x68
    ensures Encode(spec, PositionOf(1), 0x65) == 0x65
    ensures Encode(spec, PositionOf(2), 0x6c) == 0x6c
  {
    hide Encode;
    assert Encode(spec, PositionOf(0), CHECK_PHRASE[0]) == CHECK_PHRASE[0];
    assert Encode(spec, PositionOf(1), CHECK_PHRASE[1]) == CHECK_PHRASE[1];
    assert Encode(spec, PositionOf(2), CHECK_PHRASE[2]) == CHECK_PHRASE[2];
  }

  // Specs of additions only.

  predicate Additive(spec: Spec) {
    forall op <- spec :: op.Add? || op.AddPos?
  }

  /** A spec of additions adds `c`, and the position `k` times. */
  datatype Growth = Growth(c: bv8, k: bv8)

  function Times(k: bv8, p: bv8): bv8 {
    k * p
  }

  function Grow(g: Growth, p: bv8, v: bv8): bv8 {
    WrappingAdd(WrappingAdd(v, g.c), Times(g.k, p))
  }

  function Grown(g: Growth, op: Operation): Growth
    requires op.Add? || op.AddPos?
  {
    match op
    case Add(n) => g.(c := WrappingAdd(g.c, n))
    case AddPos => g.(k := WrappingAdd(g.k, 1))
  }

  // Sums of three bytes, one addition at a time: each step is an identity of bit-vectors or a replacement.

  lemma AddIs(a: bv8, b: bv8)
    ensures WrappingAdd(a, b) == a + b
  {
  }

  lemma LeftSum(a: bv8, b: bv8, c: bv8)
    ensures WrappingAdd(WrappingAdd(a, b), c) == WrappingAdd(a + b, c)
  {
    hide WrappingAdd;
    AddIs(a, b);
  }

  lemma RightSum(a: bv8, b: bv8, c: bv8)
    ensures WrappingAdd(a, WrappingAdd(b, c)) == WrappingAdd(a, b + c)
  {
    hide WrappingAdd;
    AddIs(b, c);
  }

  lemma SumOfThree(a: bv8, b: bv8, c: bv8)
    ensures WrappingAdd(a + b, c) == a + b + c
    ensures WrappingAdd(a, b + c) == a + b + c
    ensures WrappingAdd(a + c, b) == a + b + c
  {
  }

  lemma AddAssociative(a: bv8, b: bv8, c: bv8)
    ensures WrappingAdd(WrappingAdd(a, b), c) == WrappingAdd(a, WrappingAdd(b, c))
  {
    hide WrappingAdd;
    LeftSum(a, b, c);
    RightSum(a, b, c);
    SumOfThree(a, b, c);
  }

  lemma AddSwap(a: bv8, b: bv8, c: bv8)
    ensures WrappingAdd(WrappingAdd(a, b), c) == WrappingAdd(WrappingAdd(a, c), b)
  {
    hide WrappingAdd;
    LeftSum(a, b, c);
    LeftSum(a, c, b);
    SumOfThree(a, b, c);
  }

  lemma NextMultiple(k: bv8, p: bv8)
    ensures Times(k, p) == k * p && Times(k + 1, p) == k * p + p && WrappingAdd(k * p, p) == k * p + p
  {
  }

  lemma OneMoreTime(k: bv8, p: bv8)
    ensures Times(WrappingAdd(k, 1), p) == WrappingAdd(Times(k, p), p)
  {
    hide WrappingAdd, Times;
    AddIs(k, 1);
    NextMultiple(k, p);
  }

  lemma GrownOne(g: Growth, op: Operation, position: Position, v: bv8)
    requires op.Add? || op.AddPos?
    ensures EncodeOne(op, position, Grow(g, Low(position), v)) == Grow(Grown(g, op), Low(position), v)
  {
    hide Low, EncodeOne, WrappingAdd, Times;
    var p := Low(position);
    OnlyLow(op, position, Grow(g, p, v));
    if op.Add? {
      AddSwap(WrappingAdd(v, g.c), Times(g.k, p), op.n);
      AddAssociative(v, g.c, op.n);
    } else {
      AddAssociative(WrappingAdd(v, g.c), Times(g.k, p), p);
      OneMoreTime(g.k, p);
    }
  }

  lemma {:induction false} GrowthOf(spec: Spec, g: Growth) returns (r: Growth)
    requires Additive(spec)
    ensures forall position: Position, v: bv8 :: Encode(spec, position, Grow(g, Low(position), v)) == Grow(r, Low(position), v)
  {
    hide EncodeOne, Grow, Low, Grown;
    if spec == [] {
      r := g;
    } else {
      assert forall op <- spec[1..] :: op in spec;
      r := GrowthOf(spec[1..], Grown(g, spec[0]));
      forall position: Position, v: bv8
        ensures Encode(spec, position, Grow(g, Low(position), v)) == Grow(r, Low(position), v)
      {
        GrownOne(g, spec[0], position, v);
      }
    }
  }

  const NO_GROWTH: Growth := Growth(0, 0)

  /** Sparing two letters is enough to know that nothing is added anywhere. */
  lemma SparesGrowth(g: Growth)
    requires Grow(g, 0, 0x68) == 0x68 && Grow(g, 1, 0x65) == 0x65
    ensures g == NO_GROWTH
  {
  }

  lemma NothingGrown(p: bv8, v: bv8)
    ensures Grow(NO_GROWTH, p, v) == v
  {
  }

  lemma AdditiveIff(spec: Spec)
    requires Additive(spec) && !IsValid(spec)
    ensures NoOp(spec)
  {
    hide Encode, Grow, Low;
    var g := GrowthOf(spec, NO_GROWTH);
    LowLetters();
    forall position: Position, v: bv8
      ensures Encode(spec, position, v) == Grow(g, Low(position), v)
    {
      NothingGrown(Low(position), v);
    }
    Spared(spec);
    SparesGrowth(g);
    forall position: Position, v: bv8 ensures Encode(spec, position, v) == v {
      NothingGrown(Low(position), v);
    }
  }

  /** A spec without additions, or of nothing but additions, is refused exactly if it is a no-op. */
  lemma ValidIffNotNoOp(spec: Spec)
    requires Carryless(spec) || Additive(spec)
    ensures IsValid(spec) <==> !NoOp(spec)
  {
    hide IsValid, NoOp, Carryless, Additive;
    if NoOp(spec) {
      NoOpIsRefused(spec);
    }
    if !IsValid(spec) {
      if Carryless(spec) {
        CarrylessIff(spec);
      } else {
        AdditiveIff(spec);
      }
    }
  }

  lemma LowLetters()
    ensures Low(PositionOf(0)) == 0 && Low(PositionOf(1)) == 1 && Low(PositionOf(2)) == 2
  {
  }
}
