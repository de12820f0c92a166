/** One LRCP handler as a sender, whatever its peer says: acknowledgements of any kind, in any order, true or not. */
module LrcpAlone {
  import opened LrcpPackets
  import opened LrcpProtocol

  datatype Deed = Turns(e: Event) | Writes(bytes: Bytes)

  /** A handler, what its stream has accepted, and what it has sent. */
  datatype Story = Story(h: State, written: Bytes, sent: seq<Packet>)

  predicate Can(s: Story, d: Deed) {
    match d
    case Turns(e) => Enabled(s.h, e)
    case Writes(bytes) => |s.written| + |bytes| < NUMERIC_LIMIT
  }

  function Do(s: Story, d: Deed): Story
    requires Can(s, d)
  {
    match d
    case Turns(e) => var t := Step(s.h, e); Story(t.state, s.written, s.sent + t.sent)
    case Writes(bytes) => Story(WriteStep(s.h, bytes), if s.h.upstreamClosed then s.written else s.written + bytes, s.sent)
  }

  predicate Runs(s: Story, deeds: seq<Deed>)
    decreases |deeds|
  {
    deeds == [] || (Can(s, deeds[0]) && Runs(Do(s, deeds[0]), deeds[1..]))
  }

  function After(s: Story, deeds: seq<Deed>): Story
    requires Runs(s, deeds)
    decreases |deeds|
  {
    if deeds == [] then s else After(Do(s, deeds[0]), deeds[1..])
  }

  /** A packet that a sender of this stream may send: of data, only pieces of the stream in their place. */
  predicate Faithful(p: Packet, written: Bytes) {
    p.Data? ==> SliceOf(p, written) && p.data != []
  }

  predicate AllFaithful(packets: seq<Packet>, written: Bytes) {
    forall i :: 0 <= i < |packets| ==> Faithful(packets[i], written)
  }

  predicate Window(h: State, written: Bytes) {
    && h.senderOffset <= h.senderLength <= |written| < NUMERIC_LIMIT
    && (!h.needAck ==> h.senderOffset == h.senderLength)
    && h.upstream == written[h.senderOffset..]
    && (h.sendPacket.Some? ==> Faithful(h.sendPacket.value, written))
    && (h.lastPacketSent.Some? ==> Faithful(h.lastPacketSent.value, written))
  }

  /** What an acknowledgement does to an open handler: it counts if it is new and not more than was sent. */
  lemma AckMovesIff(h: State, written: Bytes, length: Numeric)
    requires Window(h, written) && !h.closed && !h.closing
    ensures var h' := OnAck(h, length).state;
      && h'.senderOffset == (if h.senderOffset <= length <= h.senderLength then length else h.senderOffset)
      && h'.upstream == written[h'.senderOffset..]
      && (h'.closing <==> length > h.senderLength)
  {
    hide Faithful, Drain;
    if h.senderOffset <= length <= h.senderLength {
      DrainedTo(h.upstream, written, h.senderOffset, length);
    }
  }

  lemma DrainedTo(buffer: Bytes, written: Bytes, from: nat, to: nat)
    requires from <= to <= |written| && buffer == written[from..]
    ensures Drain(buffer, to - from) == written[to..]
  {
  }

  lemma AckKeepsWindow(h: State, written: Bytes, length: Numeric)
    requires Window(h, written)
    ensures var t := OnAck(h, length);
      Window(t.state, written) && h.senderOffset <= t.state.senderOffset && AllFaithful(t.sent, written)
  {
    hide SliceOf, Drain;
    if !h.closed && !h.closing {
      AckMovesIff(h, written, length);
    }
  }

  lemma ReactKeepsWindow(h: State, written: Bytes, e: Event)
    requires Window(h, written) && Enabled(h, e)
    ensures var t := React(h, e);
      Window(t.state, written) && h.senderOffset <= t.state.senderOffset && AllFaithful(t.sent, written)
  {
    hide OnData, OnAck, SliceOf;
    if e.Receive? && e.packet.Ack? {
      AckKeepsWindow(h, written, e.packet.length);
    }
  }

  lemma PrepareKeepsWindow(h: State, written: Bytes)
    requires Window(h, written)
    ensures Window(Prepare(h), written) && Prepare(h).senderOffset == h.senderOffset
  {
    if h.running && !h.needAck && h.sendPacket.None? && !h.closing && h.upstream != [] {
      PayloadIsLongestPrefix(h.upstream);
      var data := TakePayload(h.upstream).value;
      assert data == written[h.senderOffset..h.senderOffset + |data|];
    }
  }

  lemma StillFaithful(packets: seq<Packet>, written: Bytes, more: Bytes)
    requires AllFaithful(packets, written)
    ensures AllFaithful(packets, written + more)
  {
    forall i | 0 <= i < |packets| ensures Faithful(packets[i], written + more) {
      assert Faithful(packets[i], written);
    }
  }

  predicate Good(s: Story) {
    Window(s.h, s.written) && AllFaithful(s.sent, s.written)
  }

  lemma WriteKeepsWindow(h: State, written: Bytes, bytes: Bytes)
    requires Window(h, written) && |written| + |bytes| < NUMERIC_LIMIT && !h.upstreamClosed
    ensures Window(WriteStep(h, bytes), written + bytes)
  {
    assert (written + bytes)[h.senderOffset..] == written[h.senderOffset..] + bytes;
  }

  lemma DoKeeps(s: Story, d: Deed)
    requires Good(s) && Can(s, d)
    ensures Good(Do(s, d)) && s.h.senderOffset <= Do(s, d).h.senderOffset
  {
    hide Window, Faithful, React, Prepare;
    match d
    case Turns(e) =>
      ReactKeepsWindow(s.h, s.written, e);
      PrepareKeepsWindow(React(s.h, e).state, s.written);
    case Writes(bytes) =>
      if !s.h.upstreamClosed {
        WriteKeepsWindow(s.h, s.written, bytes);
        StillFaithful(s.sent, s.written, bytes);
      }
  }

  lemma {:induction false} RunKeeps(s: Story, deeds: seq<Deed>)
    requires Good(s) && Runs(s, deeds)
    ensures Good(After(s, deeds)) && s.h.senderOffset <= After(s, deeds).h.senderOffset
    decreases |deeds|
  {
    hide Can, Do, Good;
    if deeds != [] {
      DoKeeps(s, deeds[0]);
      RunKeeps(Do(s, deeds[0]), deeds[1..]);
    }
  }

  /**
    Whatever arrives, an honest writer is never misquoted: every data packet a handler has sent is a piece of what was
    written, in its place; its buffer is always exactly what was written from its offset on; and the offset never
    moves back.
   */
  lemma SenderAgainstAnyPeer(startConnection: bool, session: Numeric, deeds: seq<Deed>, more: seq<Deed>)
    requires var s := Story(Initial(startConnection, session), [], []); Runs(s, deeds) && Runs(After(s, deeds), more)
    ensures var s := After(Story(Initial(startConnection, session), [], []), deeds);
      && s.h.senderOffset <= s.h.senderLength <= |s.written|
      && s.h.upstream == s.written[s.h.senderOffset..]
      && (forall p <- s.sent :: p.Data? ==> SliceOf(p, s.written))
      && s.h.senderOffset <= After(s, more).h.senderOffset
  {
    hide Runs, After;
    var start := Story(Initial(startConnection, session), [], []);
    RunKeeps(start, deeds);
    RunKeeps(After(start, deeds), more);
    var s := After(start, deeds);
    forall p <- s.sent | p.Data? ensures SliceOf(p, s.written) {
      var i :| 0 <= i < |s.sent| && s.sent[i] == p;
      assert Faithful(s.sent[i], s.written);
    }
  }
}
