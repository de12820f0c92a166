/** A spec that arrives in several chunks, each of them followed by a call of the decoder. */
module CipherSplit {
  import opened Seqs
  import opened Cipher
  import opened CipherCodec

  /** Where the calls lead: to a state, or into a call that never returns. */
  datatype Reading = Reading(state: State) | Stuck

  /** The calls until the spec is complete or refused; between them nothing stays in the buffer. */
  function ReadSpec(operations: Spec, chunks: seq<Bytes>): Reading
    decreases |chunks|
  {
    if chunks == [] then Reading(Incomplete(operations))
    else if !Returns(Incomplete(operations), chunks[0]) then Stuck
    else
      var o := DecodeCall(Incomplete(operations), chunks[0]);
      if o.state.Incomplete? then ReadSpec(o.state.operations, chunks[1..]) else Reading(o.state)
  }

  lemma NothingKept(operations: Spec, chunk: Bytes)
    requires Returns(Incomplete(operations), chunk)
    ensures var o := DecodeCall(Incomplete(operations), chunk); o.state.Incomplete? ==> o.rest == []
  {
    hide Scan, IsValid, Decode;
  }

  /** The spec has been read as what it is, and is now in use or refused as invalid. */
  predicate Takes(r: Reading, spec: Spec) {
    r.Reading? && ((r.state.Complete? && r.state.spec == spec) || r.state == Broken(Invalid(spec)))
  }

  /** One step of `ReadSpec`, by the pass over the chunk. */
  lemma ReadOne(operations: Spec, chunks: seq<Bytes>, spec: Spec)
    requires chunks != [] && chunks[0] != []
    ensures var pass, r := Scan(operations, chunks[0]), ReadSpec(operations, chunks);
      && (pass.Done? ==> (Takes(r, spec) <==> pass.spec == spec))
      && (pass.Cut? ==> r == ReadSpec(pass.operations, chunks[1..]))
      && (pass.Bad? || pass.Through? ==> !Takes(r, spec))
  {
    hide Scan, IsValid, Decode;
  }

  lemma SkipEmpty(operations: Spec, chunks: seq<Bytes>)
    requires chunks != [] && chunks[0] == []
    ensures ReadSpec(operations, chunks) == ReadSpec(operations, chunks[1..])
    ensures Concat(chunks) == Concat(chunks[1..])
  {
    hide Scan, IsValid, Decode;
  }

  // ---------------------------------------------------- behind, for ever

  predicate OperandCodes(s: Bytes) {
    forall i :: 0 <= i < |s| ==> HasOperandCode(s[i])
  }

  /** A piece that stands at two places, one shifted by operand opcodes against the other, consists of them. */
  lemma {:induction false} Shifted(y: Bytes, lag: Bytes, r: Bytes, k: nat)
    requires y <= r && y <= lag + r && lag != [] && OperandCodes(lag) && k <= |y|
    ensures OperandCodes(y[..k])
    decreases k
  {
    if k > 0 {
      Shifted(y, lag, r, k - 1);
      var t := k - 1;
      if t < |lag| {
        assert y[t] == (lag + r)[t] == lag[t];
      } else {
        assert y[t] == (lag + r)[t] == r[t - |lag|] == y[t - |lag|] == y[..t][t - |lag|];
      }
      assert y[..k] == y[..t] + [y[t]];
    }
  }

  /** What is still to be read of the spec lies in the stream before `r`: its first bytes are gone already. */
  predicate Behind(remaining: Spec, lag: Bytes, r: Bytes) {
    lag != [] && OperandCodes(lag) && Wire(remaining) + [0x00] <= lag + r
  }

  lemma BehindIsNotHere(remaining: Spec, lag: Bytes, r: Bytes)
    requires Behind(remaining, lag, r)
    ensures !(Wire(remaining) + [0x00] <= r)
  {
    hide Wire;
    var y := Wire(remaining) + [0x00];
    assert y[..|y|] == y;
    assert y[|y| - 1] == 0x00 && !OperandCodes(y);
    if y <= r {
      Shifted(y, lag, r, |y|);
    }
  }

  lemma {:induction false} WireAppend(a: Spec, b: Spec)
    ensures Wire(a + b) == Wire(a) + Wire(b)
  {
    hide WireOf;
    if a == [] {
      assert a + b == b;
    } else {
      assert (a + b)[1..] == a[1..] + b;
      WireAppend(a[1..], b);
    }
  }

  /** After a further cut the reader is behind by one byte more. */
  lemma FurtherBehind(remaining: Spec, lag: Bytes, more: Spec, b: bv8, r: Bytes) returns (lag': Bytes)
    requires Behind(remaining, lag, Wire(more) + [b] + r) && more <= remaining && HasOperandCode(b)
    ensures Behind(remaining[|more|..], lag', r)
  {
    hide Wire, OperandCodes;
    var w, left := Wire(more), Wire(remaining[|more|..]) + [0x00];
    WireAppend(more, remaining[|more|..]);
    assert more + remaining[|more|..] == remaining;
    assert Wire(remaining) + [0x00] == w + left;
    assert lag + (w + [b] + r) == (lag + w + [b]) + r;
    DropPiece(w, left, lag + w + [b], r);
    assert OperandCodes([b]) by { OneCode(b); }
    PieceIsCodes(w, left, lag, [b] + r);
    assert w + ([b] + r) == w + [b] + r;
    OperandCodesAppend(lag, w);
    OperandCodesAppend(lag + w, [b]);
    lag' := (lag + w + [b])[|w|..];
    CodesOfTail(lag + w + [b], |w|);
  }

  lemma OneCode(b: bv8)
    requires HasOperandCode(b)
    ensures OperandCodes([b])
  {
  }

  lemma CodesOfTail(s: Bytes, k: nat)
    requires OperandCodes(s) && k <= |s|
    ensures OperandCodes(s[k..])
  {
  }

  lemma DropPiece(w: Bytes, left: Bytes, read: Bytes, r: Bytes)
    requires w + left <= read + r && |w| <= |read|
    ensures left <= read[|w|..] + r
  {
    assert (w + left)[|w|..] == left;
    assert (read + r)[|w|..] == read[|w|..] + r;
  }

  lemma PieceIsCodes(w: Bytes, left: Bytes, lag: Bytes, r: Bytes)
    requires w + left <= lag + (w + r) && lag != [] && OperandCodes(lag)
    ensures OperandCodes(w)
  {
    hide OperandCodes;
    assert (w + left)[..|w|] == w;
    assert w <= w + r && w <= lag + (w + r);
    Shifted(w, lag, w + r, |w|);
    assert w[..|w|] == w;
  }

  lemma OperandCodesAppend(a: Bytes, b: Bytes)
    requires OperandCodes(a) && OperandCodes(b)
    ensures OperandCodes(a + b)
  {
  }

  /** A reader that is behind never reads the spec, however the rest arrives. */
  lemma {:induction false} NeverCatchesUp(operations: Spec, spec: Spec, lag: Bytes, chunks: seq<Bytes>)
    requires operations <= spec ==> Behind(spec[|operations|..], lag, Concat(chunks))
    ensures !Takes(ReadSpec(operations, chunks), spec)
    decreases |chunks|
  {
    hide Scan, Wire, Behind, DecodeCall, Returns;
    if chunks == [] {
    } else if chunks[0] == [] {
      SkipEmpty(operations, chunks);
      NeverCatchesUp(operations, spec, lag, chunks[1..]);
    } else {
      var chunk, rest := chunks[0], Concat(chunks[1..]);
      ReadOne(operations, chunks, spec);
      var more := ScanSound(operations, chunk);
      var pass := Scan(operations, chunk);
      if pass.Done? && pass.spec == spec {
        assert spec[|operations|..] == more;
        assert Concat(chunks) == (Wire(more) + [0x00]) + (pass.rest + rest);
        BehindIsNotHere(more, lag, Concat(chunks));
      } else if pass.Cut? {
        var lag' := lag;
        if pass.operations <= spec {
          assert operations <= spec;
          var remaining := spec[|operations|..];
          assert more <= remaining by { assert spec[..|operations + more|] == operations + more; }
          var b := chunk[|chunk| - 1];
          assert Concat(chunks) == Wire(more) + [b] + rest;
          lag' := FurtherBehind(remaining, lag, more, b, rest);
          assert remaining[|more|..] == spec[|pass.operations|..];
        }
        NeverCatchesUp(pass.operations, spec, lag', chunks[1..]);
      }
    }
  }

  // ------------------------------------------------------------ the theorem

  /** The first bytes to arrive. */
  function FirstArrival(chunks: seq<Bytes>): Bytes {
    if chunks == [] then [] else if chunks[0] != [] then chunks[0] else FirstArrival(chunks[1..])
  }

  /**
    A spec that arrives in any chunks, with anything behind it, is read as what it is if and only if its first chunk
    holds all of it, its end included. On any other cut the decoder stays in a call for ever, refuses it, or reads
    something else.
   */
  lemma {:induction false} ReadIffWhole(spec: Spec, data: Bytes, chunks: seq<Bytes>)
    requires Concat(chunks) == Wire(spec) + [0x00] + data
    ensures Takes(ReadSpec([], chunks), spec) <==> Wire(spec) + [0x00] <= FirstArrival(chunks)
    decreases |chunks|
  {
    hide Scan, Wire, ReadSpec, Behind;
    if chunks[0] == [] {
      SkipEmpty([], chunks);
      ReadIffWhole(spec, data, chunks[1..]);
    } else {
      ReadOne([], chunks, spec);
      var chunk, whole := chunks[0], Wire(spec) + [0x00];
      if whole <= chunk {
        var behind := chunk[|whole|..];
        assert chunk == Wire(spec) + ([0x00] + behind);
        ScanWire([], spec, [0x00] + behind);
        assert [] + spec == spec;
        DoneAtEnd(spec, behind);
      } else {
        SplitIsNotRead(spec, data, chunks);
      }
    }
  }

  lemma DoneAtEnd(spec: Spec, behind: Bytes)
    ensures Scan(spec, [0x00] + behind) == Done(spec, behind)
  {
    assert ([0x00] + behind)[1..] == behind;
  }

  lemma SplitIsNotRead(spec: Spec, data: Bytes, chunks: seq<Bytes>)
    requires Concat(chunks) == Wire(spec) + [0x00] + data
    requires chunks != [] && chunks[0] != [] && !(Wire(spec) + [0x00] <= chunks[0])
    ensures !Takes(ReadSpec([], chunks), spec)
  {
    hide Scan, Wire, WireOf, ReadSpec, Behind;
    var chunk, rest := chunks[0], Concat(chunks[1..]);
    var k := |chunk|;
    var stream := Wire(spec) + [0x00] + data;
    assert stream[..k] == chunk;
    assert k <= |Wire(spec)|;
    assert Wire(spec)[..k] == chunk;
    ReadOne([], chunks, spec);
    var i := SplitSpecIsLost(spec, k);
    if Scan([], chunk).Cut? {
      var opcode := WireOf(spec[i])[0];
      CutBehind(spec, i, data, chunk, rest);
      NeverCatchesUp(spec[..i], spec, [opcode], chunks[1..]);
    }
  }

  /** Right after the first cut the reader is behind by the opcode that it has forgotten. */
  lemma CutBehind(spec: Spec, i: nat, data: Bytes, chunk: Bytes, rest: Bytes)
    requires i < |spec| && HasOperand(spec[i])
    requires chunk == Wire(spec[..i]) + [WireOf(spec[i])[0]] && chunk + rest == Wire(spec) + [0x00] + data
    ensures Behind(spec[i..], [WireOf(spec[i])[0]], rest)
  {
    hide Wire, WireOf;
    var w, opcode := Wire(spec[..i]), WireOf(spec[i])[0];
    var left := Wire(spec[i..]) + [0x00];
    WireAppend(spec[..i], spec[i..]);
    assert spec[..i] + spec[i..] == spec;
    Regrouped(w, Wire(spec[i..]), [0x00], data);
    Regrouped(w, [opcode], rest, []);
    assert rest + [] == rest;
    SameFront(w, [opcode] + rest, left + data);
    OperandFirst(spec[i]);
  }

  lemma OperandFirst(op: Operation)
    requires HasOperand(op)
    ensures OperandCodes([WireOf(op)[0]])
  {
  }

  lemma Regrouped(a: Bytes, b: Bytes, c: Bytes, d: Bytes)
    ensures (a + b) + c + d == a + ((b + c) + d)
  {
  }

  lemma SameFront(a: Bytes, b: Bytes, c: Bytes)
    requires a + b == a + c
    ensures b == c
  {
    assert (a + b)[|a|..] == b && (a + c)[|a|..] == c;
  }
}
