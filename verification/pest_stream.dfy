/** Streams of pest control packets, cut into chunks in any way. */
module PestStreams {
  import opened ByteTypes
  import opened Seqs
  import opened PestPackets
  import opened PestWire
  import opened PestRoundTrip

  // ----------------------------------------------------- more bytes to come

  lemma ValueExtends(data: Bytes, more: Bytes, cursor: nat, d: Declared, kind: Kind)
    requires !CheckValue(data, cursor, d, kind).NeedMore?
    ensures CheckValue(data + more, cursor, d, kind) == CheckValue(data, cursor, d, kind)
  {
    hide FromBE, IsUtf8;
    if kind.ActionKind? {
    } else {
      U32Extends(data, more, cursor, d);
      if kind.TextKind? && CheckU32(data, cursor, d).Continue? {
        var end := cursor + 4 + CheckU32(data, cursor, d).value;
        if end < |data| {
          assert (data + more)[cursor + 4..end] == data[cursor + 4..end];
        }
      }
    }
  }

  lemma U32Extends(data: Bytes, more: Bytes, cursor: nat, d: Declared)
    requires !CheckU32(data, cursor, d).NeedMore?
    ensures CheckU32(data + more, cursor, d) == CheckU32(data, cursor, d)
  {
    hide FromBE;
    if cursor + 4 < |data| {
      assert (data + more)[cursor..cursor + 4] == data[cursor..cursor + 4];
    }
  }

  lemma {:induction false} AllExtends(data: Bytes, more: Bytes, cursor: nat, d: Declared, kinds: seq<Kind>)
    requires !CheckAll(data, cursor, d, kinds).NeedMore?
    ensures CheckAll(data + more, cursor, d, kinds) == CheckAll(data, cursor, d, kinds)
    decreases |kinds|
  {
    hide CheckValue, ValueBytes;
    if kinds != [] {
      ValueExtends(data, more, cursor, d, kinds[0]);
      var v := CheckValue(data, cursor, d, kinds[0]);
      if v.Continue? {
        AllExtends(data, more, cursor + |ValueBytes(v.value)|, d, kinds[1..]);
      }
    }
  }

  lemma BodyExtends(data: Bytes, more: Bytes, t: Byte, d: Declared)
    requires !CheckBody(data, t, d).NeedMore?
    ensures CheckBody(data + more, t, d) == CheckBody(data, t, d)
  {
    hide CheckAll, AllBytes, Head, Element, Repeat, Count;
    AllExtends(data, more, 5, d, Head(t));
    var head := CheckAll(data, 5, d, Head(t));
    if head.Continue? {
      AllExtends(data, more, 5 + |AllBytes(head.value)|, d, Repeat(Element(t), Count(t, head.value)));
    }
  }

  lemma EndExtends(data: Bytes, more: Bytes, cursor: nat, length: nat)
    requires !CheckEnd(data, cursor, length).NeedMore?
    ensures CheckEnd(data, cursor, length).Failed? ==> CheckEnd(data + more, cursor, length).Failed?
  {
    hide Sum;
    if length <= |data| {
      assert (data + more)[..length] == data[..length];
    }
  }

  /** A packet stays what it is when more bytes arrive, and bytes once refused are refused for good. */
  lemma DecodeExtends(data: Bytes, more: Bytes)
    ensures Decode(data).Continue? ==> Decode(data + more) == Decode(data)
    ensures Decode(data).Failed? ==> Decode(data + more).Failed?
  {
    hide CheckU32, CheckBody, CheckEnd, AllBytes, PacketOf, Sendable, Encode;
    if Decode(data).Continue? {
      DecodeIff(data, Decode(data).value);
      DecodeIff(data + more, Decode(data).value);
    } else if Decode(data).Failed? && IsType(data[0]) {
      var length := CheckU32(data, 1, Unknown);
      U32Extends(data, more, 1, Unknown);
      if length.Continue? {
        BodyExtends(data, more, data[0], Known(length.value));
        var body := CheckBody(data, data[0], Known(length.value));
        if body.Continue? {
          EndExtends(data, more, 5 + |AllBytes(body.value)|, length.value);
        }
      }
    }
  }

  /** A packet that is not all there yet is waited for, and nothing is consumed. */
  lemma ProperPrefixWaits(p: Packet, k: nat)
    requires Sendable(p) && k < |Encode(p)|
    ensures Decode(Encode(p)[..k]) == NeedMore
  {
    hide Decode, Sendable, Encode;
    var whole := Encode(p);
    assert whole[..k] + whole[k..] == whole;
    DecodeExtends(whole[..k], whole[k..]);
    DecodeIff(whole, p);
    if Decode(whole[..k]).Continue? {
      DecodeIff(whole[..k], p);
    }
  }

  /** No encoding is the beginning of another. */
  lemma PrefixFree(p: Packet, q: Packet)
    ensures Sendable(p) && Sendable(q) && Encode(p) <= Encode(q) ==> p == q
  {
    hide Decode, Sendable, Encode;
    DecodeIff(Encode(q), p);
    DecodeIff(Encode(q), q);
  }

  // --------------------------------------------------------------- streams

  /** The packets read so far, the bytes kept, and whether a fault has ended the stream. */
  datatype Run = Run(packets: seq<Packet>, rest: Bytes, ended: bool)

  /** Decodes until more bytes are needed or a fault ends the stream. */
  function Drain(buffer: Bytes): Run
    decreases |buffer|
  {
    match Decode(buffer)
    case NeedMore => Run([], buffer, false)
    case Failed(_) => Run([], [], true)
    case Continue(p) =>
      DecodeIff(buffer, p);
      var more := Drain(buffer[|Encode(p)|..]);
      more.(packets := [p] + more.packets)
  }

  /** Feeds the chunks one after the other into the decoder. */
  function Feed(before: Run, chunks: seq<Bytes>): Run
    decreases |chunks|
  {
    if chunks == [] || before.ended then before
    else
      var run := Drain(before.rest + chunks[0]);
      Feed(run.(packets := before.packets + run.packets), chunks[1..])
  }

  /** What is left over after draining waits for more. */
  lemma {:induction false} DrainedWaits(buffer: Bytes)
    ensures var run := Drain(buffer); !run.ended ==> Drain(run.rest) == Run([], run.rest, false)
    ensures Drain(buffer).ended ==> Drain(buffer).rest == []
    decreases |buffer|
  {
    hide Decode, Encode;
    if Decode(buffer).Continue? {
      DecodeIff(buffer, Decode(buffer).value);
      DrainedWaits(buffer[|Encode(Decode(buffer).value)|..]);
    }
  }

  function Onward(before: Run, after: Run): Run {
    if before.ended then before else after.(packets := before.packets + after.packets)
  }

  /** The first decoding of a drain. */
  lemma DrainOne(buffer: Bytes)
    ensures match Decode(buffer) {
      case NeedMore => Drain(buffer) == Run([], buffer, false)
      case Failed(_) => Drain(buffer) == Run([], [], true)
      case Continue(p) => true
    }
  {
    hide Decode, Encode;
  }

  lemma DrainFirst(buffer: Bytes, p: Packet, rest: Bytes)
    requires Sendable(p) && buffer == Encode(p) + rest
    ensures Decode(buffer) == Continue(p) && Drain(buffer) == Before(p, Drain(rest))
  {
    hide Decode, Encode;
    DecodeIff(buffer, p);
    assert buffer[|Encode(p)|..] == rest;
  }

  function Before(p: Packet, run: Run): Run {
    run.(packets := [p] + run.packets)
  }

  lemma OnwardFirst(p: Packet, first: Run, last: Run)
    ensures Onward(Before(p, first), last) == Before(p, Onward(first, last))
  {
    assert ([p] + first.packets) + last.packets == [p] + (first.packets + last.packets);
  }

  /** Draining a stream in two parts is draining it at once. */
  lemma {:induction false} DrainInParts(a: Bytes, b: Bytes)
    ensures Drain(a + b) == Onward(Drain(a), Drain(Drain(a).rest + b))
    decreases |a|
  {
    hide Decode, Encode, Drain, Sendable, Before;
    DecodeExtends(a, b);
    DrainOne(a);
    DrainOne(a + b);
    if Decode(a).Continue? {
      var p := Decode(a).value;
      DecodeIff(a, p);
      var rest := a[|Encode(p)|..];
      assert a == Encode(p) + rest && a + b == Encode(p) + (rest + b);
      DrainFirst(a, p, rest);
      DrainFirst(a + b, p, rest + b);
      DrainInParts(rest, b);
      OnwardFirst(p, Drain(rest), Drain(Drain(rest).rest + b));
      assert Drain(a).rest == Drain(rest).rest by { BeforeKeepsRest(p, Drain(rest)); }
    } else if Decode(a).NeedMore? {
      NothingBefore(Drain(a + b));
    }
  }

  lemma BeforeKeepsRest(p: Packet, run: Run)
    ensures Before(p, run).rest == run.rest && Before(p, run).ended == run.ended
  {
  }

  lemma NothingBefore(run: Run)
    ensures run.(packets := [] + run.packets) == run
  {
    assert [] + run.packets == run.packets;
  }

  /** However a stream is cut, the same packets come out, and it ends in a fault or not. */
  lemma {:induction false} AnyChunking(before: Run, chunks: seq<Bytes>)
    requires before.ended || Drain(before.rest) == Run([], before.rest, false)
    ensures Feed(before, chunks) == Onward(before, Drain(before.rest + Concat(chunks)))
    decreases |chunks|
  {
    hide Drain;
    if chunks == [] {
      assert before.rest + [] == before.rest;
      assert before.packets + [] == before.packets;
    } else if !before.ended {
      var buffer, rest := before.rest + chunks[0], Concat(chunks[1..]);
      var run := Drain(buffer);
      DrainedWaits(buffer);
      AnyChunking(run.(packets := before.packets + run.packets), chunks[1..]);
      DrainInParts(buffer, rest);
      assert before.rest + Concat(chunks) == buffer + rest;
      var last := Drain(run.rest + rest).packets;
      assert (before.packets + run.packets) + last == before.packets + (run.packets + last);
    }
  }

  function EncodeAll(packets: seq<Packet>): Bytes {
    if packets == [] then [] else Encode(packets[0]) + EncodeAll(packets[1..])
  }

  lemma {:induction false} DrainEncoded(packets: seq<Packet>, rest: Bytes)
    requires (forall p <- packets :: Sendable(p)) && Decode(rest) == NeedMore
    ensures Drain(EncodeAll(packets) + rest) == Run(packets, rest, false)
    decreases |packets|
  {
    hide Decode, Encode, Sendable, Drain;
    if packets == [] {
      assert EncodeAll(packets) + rest == rest;
      DrainOne(rest);
    } else {
      var more := EncodeAll(packets[1..]) + rest;
      assert EncodeAll(packets) + rest == Encode(packets[0]) + more;
      assert forall p <- packets[1..] :: p in packets;
      DrainEncoded(packets[1..], rest);
      DrainFirst(EncodeAll(packets) + rest, packets[0], more);
      assert packets == [packets[0]] + packets[1..];
    }
  }

  /**
    A stream of packets comes out as it was sent, in however many chunks it arrives, and also when it stops short
    inside one more packet.
   */
  lemma PacketsComeBack(packets: seq<Packet>, next: Packet, k: nat, chunks: seq<Bytes>)
    requires (forall p <- packets :: Sendable(p)) && Sendable(next) && k < |Encode(next)|
    requires Concat(chunks) == EncodeAll(packets) + Encode(next)[..k]
    ensures Feed(Run([], [], false), chunks) == Run(packets, Encode(next)[..k], false)
  {
    hide Encode, Sendable, EncodeAll;
    ProperPrefixWaits(next, k);
    DrainEncoded(packets, Encode(next)[..k]);
    assert [] + Concat(chunks) == Concat(chunks);
    AnyChunking(Run([], [], false), chunks);
    assert [] + packets == packets;
  }
}
