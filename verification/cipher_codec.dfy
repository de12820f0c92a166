/** The codec of the obfuscation layer: it reads the spec first, then both streams with a counter each. */
module CipherCodec {
  import opened Wrappers
  import opened Cipher

  datatype SpecError = InvalidOpcode(opcode: bv8) | Invalid(spec: Spec) | Previous | NotYet

  datatype State =
    | Incomplete(operations: Spec)
    | Complete(spec: Spec, upstream: Position, downstream: Position)
    | Broken(error: SpecError)

  // --------------------------------------------------------- reading a spec

  /** The outcome of one pass over the buffered bytes of a spec. */
  datatype Pass =
    | Done(spec: Spec, rest: Bytes)
    | Bad(opcode: bv8, rest: Bytes)
    | Cut(operations: Spec)
    | Through(operations: Spec)

  function Scan(operations: Spec, src: Bytes): Pass
    decreases |src|
  {
    if src == [] then Through(operations)
    else if src[0] == 0x00 then Done(operations, src[1..])
    else if src[0] == 0x01 then Scan(operations + [ReverseBits], src[1..])
    else if src[0] == 0x02 then (if |src| > 1 then Scan(operations + [Xor(src[1])], src[2..]) else Cut(operations))
    else if src[0] == 0x03 then Scan(operations + [XorPos], src[1..])
    else if src[0] == 0x04 then (if |src| > 1 then Scan(operations + [Add(src[1])], src[2..]) else Cut(operations))
    else if src[0] == 0x05 then Scan(operations + [AddPos], src[1..])
    else Bad(src[0], src[1..])
  }

  /** The pass ends in a way that lets the decoder go on or return. */
  predicate Returns(state: State, src: Bytes) {
    state.Incomplete? && src != [] ==> !Scan(state.operations, src).Through?
  }

  datatype Outcome = Outcome(state: State, result: Result<Option<bv8>, SpecError>, rest: Bytes)

  function DecodeByteOf(spec: Spec, up: Position, down: Position, src: Bytes): Outcome {
    if src == [] then Outcome(Complete(spec, up, down), Ok(None), [])
    else Outcome(Complete(spec, up + 1, down), Ok(Some(Decode(spec, up, src[0]))), src[1..])
  }

  /** One call of the decoder. */
  function DecodeCall(state: State, src: Bytes): Outcome
    requires Returns(state, src)
  {
    match state
    case Broken(_) => Outcome(state, Err(Previous), src)
    case Complete(spec, up, down) => DecodeByteOf(spec, up, down, src)
    case Incomplete(operations) =>
      if src == [] then Outcome(state, Ok(None), [])
      else match Scan(operations, src)
        case Done(spec, rest) =>
          if IsValid(spec) then DecodeByteOf(spec, 0, 0, rest) else Outcome(Broken(Invalid(spec)), Err(Invalid(spec)), rest)
        case Bad(opcode, rest) => Outcome(Broken(InvalidOpcode(opcode)), Err(InvalidOpcode(opcode)), rest)
        case Cut(more) => Outcome(Incomplete(more), Ok(None), [])
        case Through(more) => Outcome(Incomplete(more), Ok(None), src)
  }

  class Codec {
    var state: State

    constructor ()
      ensures state == Incomplete([])
    {
      state := Incomplete([]);
    }

    method DecodeNext(src: Bytes) returns (r: Result<Option<bv8>, SpecError>, rest: Bytes)
      requires Returns(state, src)
      modifies this
      ensures Outcome(state, r, rest) == DecodeCall(old(state), src)
    {
      hide IsValid, Decode;
      match state
      case Broken(_) =>
        return Err(Previous), src;
      case Complete(spec, up, down) =>
        r, rest := DecodeNow(src);
      case Incomplete(operations) =>
        if src == [] {
          return Ok(None), [];
        }
        var pass := ScanBuffer(operations, src);
        match pass
        case Done(spec, more) =>
          if !IsValid(spec) {
            state := Broken(Invalid(spec));
            return Err(Invalid(spec)), more;
          }
          state := Complete(spec, 0, 0);
          r, rest := DecodeNow(more);
        case Bad(opcode, more) =>
          state := Broken(InvalidOpcode(opcode));
          return Err(InvalidOpcode(opcode)), more;
        case Cut(more) =>
          state := Incomplete(more);
          return Ok(None), [];
    }

    method DecodeNow(src: Bytes) returns (r: Result<Option<bv8>, SpecError>, rest: Bytes)
      requires state.Complete?
      modifies this
      ensures Outcome(state, r, rest) == DecodeByteOf(old(state).spec, old(state).upstream, old(state).downstream, src)
    {
      hide Decode;
      if src == [] {
        return Ok(None), [];
      }
      var value := DecodeValue(state.spec, state.upstream, src[0]);
      state := state.(upstream := state.upstream + 1);
      return Ok(Some(value)), src[1..];
    }

    method EncodeNext(value: bv8) returns (r: Result<bv8, SpecError>)
      modifies this
      ensures if old(state).Complete? then
                r == Ok(Encode(old(state).spec, old(state).downstream, value))
                && state == old(state).(downstream := old(state).downstream + 1)
              else r.Err? && state == old(state)
    {
      hide Encode;
      match state
      case Broken(_) => return Err(Previous);
      case Incomplete(_) => return Err(NotYet);
      case Complete(spec, up, down) =>
        var encoded := EncodeValue(spec, down, value);
        state := Complete(spec, up, down + 1);
        return Ok(encoded);
    }
  }

  method ScanBuffer(operations: Spec, src: Bytes) returns (pass: Pass)
    ensures pass == Scan(operations, src)
  {
    var pushed, i := operations, 0;
    while i < |src|
      invariant 0 <= i <= |src|
      invariant Scan(pushed, src[i..]) == Scan(operations, src)
    {
      var opcode := src[i];
      var advance := src[i + 1..];
      assert src[i..][0] == opcode && src[i..][1..] == advance;
      if opcode == 0x00 {
        return Done(pushed, advance);
      } else if opcode == 0x01 {
        pushed, i := pushed + [ReverseBits], i + 1;
      } else if opcode == 0x02 || opcode == 0x04 {
        if i + 1 == |src| {
          return Cut(pushed);
        }
        assert src[i..][2..] == src[i + 2..];
        pushed, i := pushed + [if opcode == 0x02 then Xor(src[i + 1]) else Add(src[i + 1])], i + 2;
      } else if opcode == 0x03 {
        pushed, i := pushed + [XorPos], i + 1;
      } else if opcode == 0x05 {
        pushed, i := pushed + [AddPos], i + 1;
      } else {
        return Bad(opcode, advance);
      }
    }
    pass := Through(pushed);
  }

  // ------------------------------------------------------- specs on the wire

  function WireOf(op: Operation): (r: Bytes)
    ensures r != []
  {
    match op
    case ReverseBits => [0x01]
    case Xor(n) => [0x02, n]
    case XorPos => [0x03]
    case Add(n) => [0x04, n]
    case AddPos => [0x05]
  }

  function Wire(spec: Spec): Bytes {
    if spec == [] then [] else WireOf(spec[0]) + Wire(spec[1..])
  }

  lemma ScanOne(operations: Spec, op: Operation, src: Bytes)
    ensures Scan(operations, WireOf(op) + src) == Scan(operations + [op], src)
  {
    var all := WireOf(op) + src;
    assert all[|WireOf(op)|..] == src;
  }

  /** A whole spec is read as what it says, and the bytes behind its end are left. */
  lemma {:induction false} ScanWire(operations: Spec, spec: Spec, behind: Bytes)
    ensures Scan(operations, Wire(spec) + behind) == Scan(operations + spec, behind)
    decreases |spec|
  {
    hide WireOf, Scan;
    if spec == [] {
      assert Wire(spec) + behind == behind && operations + spec == operations;
    } else {
      var more := Wire(spec[1..]) + behind;
      assert Wire(spec) + behind == WireOf(spec[0]) + more;
      ScanOne(operations, spec[0], more);
      ScanWire(operations + [spec[0]], spec[1..], behind);
      assert operations + [spec[0]] + spec[1..] == operations + spec;
    }
  }

  /** All opcodes of the format, with their operands. */
  lemma EveryOpcode(x: bv8, y: bv8, behind: Bytes)
    ensures Scan([], [0x01, 0x02, x, 0x03, 0x04, y, 0x05, 0x00] + behind) ==
            Done([ReverseBits, Xor(x), XorPos, Add(y), AddPos], behind)
  {
    hide Scan;
    var end := [0x00] + behind;
    var four, five := [0x04, y] + ([0x05] + end), [0x05] + end;
    var two, three := [0x02, x] + ([0x03] + four), [0x03] + four;
    var a := [] + [ReverseBits];
    var b, c := a + [Xor(x)], a + [Xor(x)] + [XorPos];
    var d := c + [Add(y)];
    ScanOne([], ReverseBits, two);
    ScanOne(a, Xor(x), three);
    ScanOne(b, XorPos, four);
    ScanOne(c, Add(y), five);
    ScanOne(d, AddPos, end);
    ScanEnd(d + [AddPos], behind);
    assert d + [AddPos] == [ReverseBits, Xor(x), XorPos, Add(y), AddPos];
    assert [0x01, 0x02, x, 0x03, 0x04, y, 0x05, 0x00] + behind == [0x01] + two;
  }

  lemma ScanEnd(operations: Spec, behind: Bytes)
    ensures Scan(operations, [0x00] + behind) == Done(operations, behind)
  {
  }

  /** The beginning of a spec: whole operations, and perhaps an opcode whose operand is still to come. */
  lemma {:induction false} PrefixOfWire(spec: Spec, k: nat) returns (i: nat)
    requires k <= |Wire(spec)|
    ensures i <= |spec|
    ensures Wire(spec)[..k] == Wire(spec[..i])
         || (i < |spec| && |WireOf(spec[i])| == 2 && Wire(spec)[..k] == Wire(spec[..i]) + [WireOf(spec[i])[0]])
    decreases |spec|
  {
    hide WireOf;
    if k == 0 {
      i := 0;
      assert Wire(spec)[..0] == Wire(spec[..0]);
    } else {
      var one := WireOf(spec[0]);
      WireLength(spec[0]);
      if k < |one| {
        i := 0;
        assert Wire(spec)[..k] == Wire(spec[..0]) + [one[0]];
      } else {
        var j := PrefixOfWire(spec[1..], k - |one|);
        i := j + 1;
        assert Wire(spec)[..k] == one + Wire(spec[1..])[..k - |one|];
        assert spec[..i][1..] == spec[1..][..j];
        assert Wire(spec[..i]) == one + Wire(spec[1..][..j]);
      }
    }
  }

  lemma WireLength(op: Operation)
    ensures |WireOf(op)| <= 2
  {
  }

  /**
    The first pass over a mere beginning of a spec: if the cut is between two operations, the pass comes to the end and
    starts over on the same bytes; if it is before an operand, all bytes are consumed and the operation is forgotten.
   */
  lemma SplitSpecIsLost(spec: Spec, k: nat) returns (i: nat)
    requires 0 < k <= |Wire(spec)|
    ensures var pass, chunk := Scan([], Wire(spec)[..k]), Wire(spec)[..k];
      || pass.Through?
      || (i < |spec| && HasOperand(spec[i]) && pass == Cut(spec[..i]) && chunk == Wire(spec[..i]) + [WireOf(spec[i])[0]])
  {
    i := PrefixOfWire(spec, k);
    assert [] + spec[..i] == spec[..i];
    if Wire(spec)[..k] == Wire(spec[..i]) {
      assert Wire(spec[..i]) + [] == Wire(spec[..i]);
      ScanWire([], spec[..i], []);
    } else {
      ScanWire([], spec[..i], [WireOf(spec[i])[0]]);
    }
  }

  predicate HasOperand(op: Operation) {
    op.Xor? || op.Add?
  }

  predicate HasOperandCode(opcode: bv8) {
    opcode == 0x02 || opcode == 0x04
  }

  /** The operation at the front of the bytes. */
  function OperationOf(src: Bytes): Operation
    requires BeginsWithOperation(src)
  {
    if src[0] == 0x01 then ReverseBits
    else if src[0] == 0x02 then Xor(src[1])
    else if src[0] == 0x03 then XorPos
    else if src[0] == 0x04 then Add(src[1])
    else AddPos
  }

  /** The bytes begin with an operation, operand included. */
  predicate BeginsWithOperation(src: Bytes) {
    src != [] && 0x01 <= src[0] <= 0x05 && (HasOperandCode(src[0]) ==> |src| > 1)
  }

  lemma ScanFront(operations: Spec, src: Bytes)
    ensures if BeginsWithOperation(src) then
              src == WireOf(OperationOf(src)) + src[|WireOf(OperationOf(src))|..]
            else
              var pass := Scan(operations, src);
              && (pass.Done? ==> pass.spec == operations && src == [0x00] + pass.rest)
              && (pass.Cut? ==> pass.operations == operations && (src == [0x02] || src == [0x04]))
              && (pass.Bad? ==> pass.opcode > 0x05 && src == [pass.opcode] + pass.rest)
  {
    if src != [] && !(0x01 <= src[0] <= 0x05) {
      assert src == [src[0]] + src[1..];
    } else if |src| == 1 {
      assert src == [src[0]];
    }
  }

  /** What a pass has read is what the bytes before its end say. */
  predicate Spelled(operations: Spec, src: Bytes, more: Spec, pass: Pass) {
    && (pass.Done? ==> pass.spec == operations + more && src == Wire(more) + [0x00] + pass.rest)
    && (pass.Cut? ==> pass.operations == operations + more && (src == Wire(more) + [0x02] || src == Wire(more) + [0x04]))
    && (pass.Bad? ==> pass.opcode > 0x05 && src == Wire(more) + [pass.opcode] + pass.rest)
  }

  lemma SpelledFirst(operations: Spec, op: Operation, src: Bytes, more: Spec, pass: Pass)
    requires Spelled(operations + [op], src, more, pass)
    ensures Spelled(operations, WireOf(op) + src, [op] + more, pass)
  {
    hide WireOf;
    assert ([op] + more)[1..] == more;
    assert operations + [op] + more == operations + ([op] + more);
    var one, w := WireOf(op), Wire(more);
    if pass.Done? {
      assert one + (w + [0x00] + pass.rest) == (one + w) + [0x00] + pass.rest;
    }
    if pass.Bad? {
      assert one + (w + [pass.opcode] + pass.rest) == (one + w) + [pass.opcode] + pass.rest;
    }
    assert one + (w + [0x02]) == (one + w) + [0x02];
    assert one + (w + [0x04]) == (one + w) + [0x04];
  }

  lemma {:induction false} ScanSound(operations: Spec, src: Bytes) returns (more: Spec)
    ensures Spelled(operations, src, more, Scan(operations, src))
    decreases |src|
  {
    hide Scan, WireOf, OperationOf;
    ScanFront(operations, src);
    if BeginsWithOperation(src) {
      hide Spelled;
      var op := OperationOf(src);
      var rest := src[|WireOf(op)|..];
      ScanOne(operations, op, rest);
      var tail := ScanSound(operations + [op], rest);
      SpelledFirst(operations, op, rest, tail, Scan(operations + [op], rest));
      more := [op] + tail;
    } else {
      more := [];
      assert operations + [] == operations;
    }
  }

  /** Passes one after the other over bytes that do not change. */
  function Passes(operations: Spec, src: Bytes, n: nat): Spec
    requires Scan(operations, src).Through?
    decreases n
  {
    if n == 0 then operations else (AgainThrough(operations, src); Passes(Scan(operations, src).operations, src, n - 1))
  }

  lemma {:induction false} SamePass(a: Spec, b: Spec, src: Bytes)
    ensures Scan(a, src).Through? <==> Scan(b, src).Through?
    decreases |src|
  {
    if src != [] && 0x01 <= src[0] <= 0x05 {
      if src[0] == 0x02 || src[0] == 0x04 {
        if |src| > 1 {
          var op := if src[0] == 0x02 then Xor(src[1]) else Add(src[1]);
          SamePass(a + [op], b + [op], src[2..]);
        }
      } else {
        var op := if src[0] == 0x01 then ReverseBits else if src[0] == 0x03 then XorPos else AddPos;
        SamePass(a + [op], b + [op], src[1..]);
      }
    }
  }

  lemma AgainThrough(operations: Spec, src: Bytes)
    requires Scan(operations, src).Through?
    ensures Scan(Scan(operations, src).operations, src).Through?
  {
    hide Scan;
    SamePass(operations, Scan(operations, src).operations, src);
  }

  /** Once a pass has come to the end of its bytes, no number of passes gets anywhere: the call never returns. */
  lemma {:induction false} NeverReturns(operations: Spec, src: Bytes, n: nat)
    requires src != [] && Scan(operations, src).Through?
    ensures !Returns(Incomplete(Passes(operations, src, n)), src)
    decreases n
  {
    hide Scan;
    if n > 0 {
      AgainThrough(operations, src);
      NeverReturns(Scan(operations, src).operations, src, n - 1);
    }
  }

  // ---------------------------------------------------------- the first call

  /** The first call on a whole spec with bytes behind it: the spec is taken and the first byte decoded. */
  lemma FirstCall(spec: Spec, data: Bytes)
    requires IsValid(spec)
    ensures var src := Wire(spec) + [0x00] + data;
      && Returns(Incomplete([]), src)
      && DecodeCall(Incomplete([]), src) == DecodeByteOf(spec, 0, 0, data)
  {
    hide IsValid, Decode;
    var src := Wire(spec) + [0x00] + data;
    assert src == Wire(spec) + ([0x00] + data);
    ScanWire([], spec, [0x00] + data);
    assert [] + spec == spec;
    assert ([0x00] + data)[1..] == data;
  }

  /** The first call takes a spec if and only if it is buffered whole, its end included, and valid. */
  lemma FirstCallIff(spec: Spec, src: Bytes)
    ensures Wire(spec) + [0x00] <= src && IsValid(spec) <==>
      && Returns(Incomplete([]), src)
      && var state := DecodeCall(Incomplete([]), src).state; state.Complete? && state.spec == spec
  {
    hide IsValid, Decode, Scan;
    if Wire(spec) + [0x00] <= src && IsValid(spec) {
      var data := src[|Wire(spec)| + 1..];
      assert src == Wire(spec) + [0x00] + data;
      FirstCall(spec, data);
    }
    if src != [] && Scan([], src).Done? && Scan([], src).spec == spec {
      var more := ScanSound([], src);
      assert [] + more == more;
    }
  }

  /** The bytes are operations and then an unknown opcode, or a whole spec that is not accepted. */
  ghost predicate Refusable(src: Bytes) {
    exists spec: Spec, b: bv8, rest: Bytes ::
      src == Wire(spec) + [b] + rest && (b > 0x05 || (b == 0x00 && !IsValid(spec)))
  }

  /** The first call refuses exactly these bytes, and the decoder is then broken. */
  lemma FirstCallRefusesIff(src: Bytes)
    requires Returns(Incomplete([]), src)
    ensures DecodeCall(Incomplete([]), src).result.Err? <==> Refusable(src)
    ensures DecodeCall(Incomplete([]), src).state.Broken? <==> Refusable(src)
  {
    hide IsValid, Decode, Scan;
    if src != [] && (Scan([], src).Done? || Scan([], src).Bad?) {
      var more := ScanSound([], src);
      assert [] + more == more;
    }
    if spec: Spec, b: bv8, rest: Bytes :| src == Wire(spec) + [b] + rest && (b > 0x05 || (b == 0x00 && !IsValid(spec))) {
      ScanUpTo(spec, b, rest);
    }
  }

  lemma ScanUpTo(spec: Spec, b: bv8, rest: Bytes)
    requires b > 0x05 || b == 0x00
    ensures Scan([], Wire(spec) + [b] + rest) == if b > 0x05 then Bad(b, rest) else Done(spec, rest)
  {
    hide Scan, Wire;
    assert Wire(spec) + [b] + rest == Wire(spec) + ([b] + rest);
    ScanWire([], spec, [b] + rest);
    assert [] + spec == spec;
    if b > 0x05 { ScanBad(spec, b, rest); } else { ScanEnd(spec, rest); }
  }

  lemma ScanBad(operations: Spec, b: bv8, rest: Bytes)
    requires b > 0x05
    ensures Scan(operations, [b] + rest) == Bad(b, rest)
  {
    assert b != 0 && b != 1 && b != 2 && b != 3 && b != 4 && b != 5;
  }
}
