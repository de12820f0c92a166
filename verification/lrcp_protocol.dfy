/**
  One LRCP session handler: a stop-and-wait sender and a cumulative-ack receiver
  in one state machine, together with the byte stream it serves.

  `Step` is the specification of one turn of the handler's loop over values;
  class `Handler` is the handler itself, updated in place, and every method is
  proved to take exactly that step.
 */
module LrcpProtocol {
  import opened Wrappers
  import opened LrcpPackets

  datatype State = State(
    startConnection: bool,
    session: Numeric,
    running: bool,
    closing: bool,
    closed: bool,
    receiverPosition: Numeric,
    sendPacket: Option<Packet>,
    lastPacketSent: Option<Packet>,
    senderOffset: Numeric,
    senderLength: Numeric,
    needAck: bool,
    upstreamClosed: bool,
    upstream: Bytes,
    downstream: Bytes)

  /** What can wake the handler's loop. */
  datatype Event =
    | Exit
    | Wakeup
    | Shutdown
    | Send
    | Receive(packet: Packet)
    | Timeout(expired: bool)

  /** A turn of the loop: the new state and the packets handed to the network. */
  datatype Turn = Turn(state: State, sent: seq<Packet>)

  function Initial(startConnection: bool, session: Numeric): State {
    var first := if startConnection then Some(Connect(session)) else None;
    State(startConnection, session, true, false, false, 0, first, first, 0, 0, startConnection, false, [], [])
  }

  /** Events the loop can see: guards of the select, and an idle sender for a timeout. */
  predicate Enabled(s: State, e: Event) {
    && s.running
    && match e
       case Exit => true
       case Wakeup => !s.closed
       case Shutdown => !s.closed
       case Send => s.sendPacket.Some? && !s.closed
       case Receive(p) => p.session == s.session
       case Timeout(_) => s.sendPacket.None? || s.closed
  }

  /** The bytes of a data packet from `skip` on. */
  function Unread(data: Bytes, skip: nat): Bytes {
    if skip <= |data| then data[skip..] else []
  }

  function OnData(s: State, pos: Numeric, data: Bytes): (t: Turn)
    ensures t.state == s.(receiverPosition := t.state.receiverPosition, downstream := t.state.downstream)
    ensures t.sent == [] || t.sent == [Close(s.session)] || t.sent == [Ack(s.session, t.state.receiverPosition)]
  {
    if s.closed || s.closing then Turn(s, [Close(s.session)])
    else if pos == s.receiverPosition then
      var position := U32(s.receiverPosition + U32(|data|));
      Turn(s.(downstream := s.downstream + data, receiverPosition := position), [Ack(s.session, position)])
    else if pos < s.receiverPosition then
      if U32(pos + U32(|data|)) > s.receiverPosition then
        var skip := s.receiverPosition - pos;
        var position := U32(s.receiverPosition + U32(U32(|data|) + U32_LIMIT - skip));
        Turn(s.(downstream := s.downstream + Unread(data, skip), receiverPosition := position), [Ack(s.session, position)])
      else
        Turn(s, [Ack(s.session, s.receiverPosition)])
    else Turn(s, [])
  }

  /** Drops acknowledged bytes from the upstream buffer, unless there are fewer than that. */
  function Drain(buffer: Bytes, n: nat): Bytes {
    if n > |buffer| then buffer else buffer[n..]
  }

  function OnAck(s: State, length: Numeric): Turn {
    if s.closed || s.closing then Turn(s, [Close(s.session)])
    else if length == s.senderLength then
      var buffer := if s.senderLength > s.senderOffset then Drain(s.upstream, s.senderLength - s.senderOffset) else s.upstream;
      Turn(s.(upstream := buffer, senderOffset := s.senderLength, needAck := false), [])
    else if length < s.senderLength then
      if length > s.senderOffset then
        Turn(s.(upstream := Drain(s.upstream, length - s.senderOffset),
                senderLength := length, senderOffset := length, needAck := false), [])
      else
        Turn(s, [])
    else Turn(s.(closing := true), [])
  }

  function OnClose(s: State): Turn {
    if s.closing then
      if s.closed then Turn(s, []) else Turn(s.(closed := true), [Close(s.session)])
    else
      Turn(s.(upstreamClosed := true, running := false), [Close(s.session)])
  }

  function OnConnect(s: State): Turn {
    Turn(s, if s.startConnection then [] else [Ack(s.session, 0)])
  }

  function OnTimeout(s: State, expired: bool): Turn {
    if expired then
      Turn(s.(upstreamClosed := true, running := false), [Close(s.session)])
    else if s.needAck && s.lastPacketSent.Some? then
      Turn(s.(sendPacket := s.lastPacketSent, lastPacketSent := None), [])
    else
      Turn(s, [])
  }

  function OnSend(s: State): Turn
    requires s.sendPacket.Some?
  {
    Turn(s.(lastPacketSent := s.sendPacket, sendPacket := None, closed := s.closed || s.closing), [s.sendPacket.value])
  }

  /** The event itself, before the end of the turn. */
  function React(s: State, e: Event): (t: Turn)
    requires Enabled(s, e)
    ensures t.state.startConnection == s.startConnection && t.state.session == s.session
  {
    match e
    case Exit => Turn(s.(running := false), [])
    case Wakeup => Turn(s, [])
    case Shutdown => Turn(s.(closing := true), [])
    case Send => OnSend(s)
    case Receive(Data(_, pos, data)) => OnData(s, pos, data)
    case Receive(Ack(_, length)) => OnAck(s, length)
    case Receive(Close(_)) => OnClose(s)
    case Receive(Connect(_)) => OnConnect(s)
    case Timeout(expired) => OnTimeout(s, expired)
  }

  /** The end of a turn: with nothing outstanding, the next packet is prepared. */
  function Prepare(s: State): (s': State)
    ensures s'.startConnection == s.startConnection && s'.session == s.session
  {
    if !s.running || s.needAck || s.sendPacket.Some? then s
    else if s.closing then
      if s.closed then s.(upstreamClosed := true) else s.(sendPacket := Some(Close(s.session)))
    else
      match TakePayload(s.upstream)
      case None => s
      case Some(data) =>
        s.(senderLength := U32(s.senderLength + U32(|data|)),
           sendPacket := Some(Data(s.session, s.senderOffset, data)),
           needAck := true)
  }

  function Step(s: State, e: Event): Turn
    requires Enabled(s, e)
  {
    var t := React(s, e);
    t.(state := Prepare(t.state))
  }

  // The stream served by the handler.

  function WriteStep(s: State, bytes: Bytes): State {
    if s.upstreamClosed then s else s.(upstream := s.upstream + bytes)
  }

  function Min(a: nat, b: nat): nat {
    if a < b then a else b
  }

  function ReadStep(s: State, size: nat): State {
    s.(downstream := s.downstream[Min(size, |s.downstream|)..])
  }

  predicate FlushReady(s: State) {
    s.upstream == [] || s.upstreamClosed
  }

  // -------------------------------------------------------------- in place

  class Handler {
    const startConnection: bool
    const session: Numeric
    var running: bool
    var closing: bool
    var closed: bool
    var receiverPosition: Numeric
    var sendPacket: Option<Packet>
    var lastPacketSent: Option<Packet>
    var senderOffset: Numeric
    var senderLength: Numeric
    var needAck: bool
    var upstreamClosed: bool
    var upstream: Bytes
    var downstream: Bytes

    ghost function Snapshot(): State
      reads this
    {
      State(startConnection, session, running, closing, closed, receiverPosition, sendPacket, lastPacketSent,
            senderOffset, senderLength, needAck, upstreamClosed, upstream, downstream)
    }

    constructor (startConnection: bool, session: Numeric)
      ensures Snapshot() == Initial(startConnection, session)
    {
      this.startConnection, this.session := startConnection, session;
      running, closing, closed := true, false, false;
      receiverPosition, senderOffset, senderLength := 0, 0, 0;
      upstreamClosed, upstream, downstream := false, [], [];
      if startConnection {
        sendPacket, lastPacketSent, needAck := Some(Connect(session)), Some(Connect(session)), true;
      } else {
        sendPacket, lastPacketSent, needAck := None, None, false;
      }
    }

    /** Appends the payload from `skip` on to the reader's buffer and returns its 32-bit length. */
    method Deliver(data: Bytes, skip: Numeric) returns (len: Numeric)
      requires skip == 0 || skip <= U32(|data|)
      modifies this`downstream
      ensures downstream == old(downstream) + Unread(data, skip)
      ensures len == U32(U32(|data|) + U32_LIMIT - skip)
    {
      for i := 0 to |data|
        invariant downstream == old(downstream) + (if i <= skip then [] else data[skip..i])
      {
        if i >= skip {
          downstream := downstream + [data[i]];
        }
      }
      len := U32(U32(|data|) + U32_LIMIT - skip);
    }

    method ReceiveData(pos: Numeric, data: Bytes) returns (sent: seq<Packet>)
      modifies this
      ensures Turn(Snapshot(), sent) == OnData(old(Snapshot()), pos, data)
    {
      sent := [];
      if closed || closing {
        sent := [Close(session)];
      } else if pos == receiverPosition {
        var len := Deliver(data, 0);
        receiverPosition := U32(receiverPosition + len);
        sent := [Ack(session, receiverPosition)];
      } else if pos < receiverPosition {
        if U32(pos + U32(|data|)) > receiverPosition {
          var len := Deliver(data, receiverPosition - pos);
          receiverPosition := U32(receiverPosition + len);
        }
        sent := [Ack(session, receiverPosition)];
      }
    }

    method DrainUpstream(n: nat)
      modifies this`upstream
      ensures upstream == Drain(old(upstream), n)
    {
      if n <= |upstream| {
        upstream := upstream[n..];
      }
    }

    method ReceiveAck(length: Numeric) returns (sent: seq<Packet>)
      modifies this
      ensures Turn(Snapshot(), sent) == OnAck(old(Snapshot()), length)
    {
      sent := [];
      if closed || closing {
        sent := [Close(session)];
      } else if length == senderLength {
        if senderLength > senderOffset {
          DrainUpstream(senderLength - senderOffset);
        }
        senderOffset := senderLength;
        needAck := false;
      } else if length < senderLength {
        if length > senderOffset {
          DrainUpstream(length - senderOffset);
          senderLength := length;
          senderOffset := senderLength;
          needAck := false;
        }
      } else {
        closing := true;
      }
    }

    method ReceiveClose() returns (sent: seq<Packet>)
      modifies this
      ensures Turn(Snapshot(), sent) == OnClose(old(Snapshot()))
    {
      sent := [];
      if closing {
        if !closed {
          sent := [Close(session)];
          closed := true;
        }
      } else {
        sent := [Close(session)];
        upstreamClosed := true;
        running := false;
      }
    }

    method ReceivePacket(packet: Packet) returns (sent: seq<Packet>)
      requires Enabled(Snapshot(), Receive(packet))
      modifies this
      ensures Turn(Snapshot(), sent) == React(old(Snapshot()), Receive(packet))
    {
      match packet
      case Data(_, pos, data) => sent := ReceiveData(pos, data);
      case Ack(_, length) => sent := ReceiveAck(length);
      case Close(_) => sent := ReceiveClose();
      case Connect(_) => sent := if startConnection then [] else [Ack(session, 0)];
    }

    method TimeOut(expired: bool) returns (sent: seq<Packet>)
      modifies this
      ensures Turn(Snapshot(), sent) == OnTimeout(old(Snapshot()), expired)
    {
      sent := [];
      if expired {
        sent := [Close(session)];
        upstreamClosed := true;
        running := false;
      } else if needAck {
        match lastPacketSent
        case Some(packet) => lastPacketSent, sendPacket := None, Some(packet);
        case None =>
      }
    }

    method PrepareNext()
      modifies this
      ensures Snapshot() == Prepare(old(Snapshot()))
    {
      if !running || needAck || sendPacket.Some? {
        return;
      }
      if closing {
        if closed {
          upstreamClosed := true;
        } else {
          sendPacket := Some(Close(session));
        }
      } else {
        var payload := NewPayload(upstream);
        match payload
        case None =>
        case Some(data) =>
          senderLength := U32(senderLength + U32(|data|));
          sendPacket := Some(Data(session, senderOffset, data));
          needAck := true;
      }
    }

    /** One turn of the handler's loop. */
    method TakeTurn(event: Event) returns (sent: seq<Packet>)
      requires Enabled(Snapshot(), event)
      modifies this
      ensures Turn(Snapshot(), sent) == Step(old(Snapshot()), event)
    {
      sent := [];
      match event {
        case Exit => running := false;
        case Wakeup =>
        case Shutdown => closing := true;
        case Send =>
          sent := [sendPacket.value];
          lastPacketSent, sendPacket := sendPacket, None;
          if closing {
            closed := true;
          }
        case Receive(packet) => sent := ReceivePacket(packet);
        case Timeout(expired) => sent := TimeOut(expired);
      }
      PrepareNext();
    }

    method PollWrite(bytes: Bytes) returns (accepted: nat)
      modifies this`upstream
      ensures Snapshot() == WriteStep(old(Snapshot()), bytes)
      ensures accepted == if upstreamClosed then 0 else |bytes|
    {
      if upstreamClosed {
        return 0;
      }
      for i := 0 to |bytes|
        invariant upstream == old(upstream) + bytes[..i]
      {
        upstream := upstream + [bytes[i]];
      }
      accepted := |bytes|;
    }

    /** Reads up to `size` bytes; nothing to read means the reader has to wait. */
    method PollRead(size: nat) returns (bytes: Option<Bytes>)
      modifies this`downstream
      ensures Snapshot() == ReadStep(old(Snapshot()), size)
      ensures bytes.None? <==> old(downstream) == []
      ensures bytes.Some? ==> bytes.value + downstream == old(downstream) && |bytes.value| == Min(size, |old(downstream)|)
    {
      if |downstream| > 0 {
        var len := Min(size, |downstream|);
        bytes := Some(downstream[..len]);
        downstream := downstream[len..];
      } else {
        bytes := None;
      }
    }

    method PollFlush() returns (ready: bool)
      ensures ready == FlushReady(Snapshot())
    {
      ready := upstream == [] || upstreamClosed;
    }
  }

  // ------------------------------------------------- receiver, any sender

  /** A data packet that carries a piece of `stream`. */
  predicate SliceOf(p: Packet, stream: Bytes) {
    p.Data? && p.pos + |p.data| <= |stream| && p.data == stream[p.pos..p.pos + |p.data|]
  }

  function ReceiveAll(s: State, packets: seq<Packet>): State
    requires forall p <- packets :: p.Data?
  {
    if packets == [] then s
    else OnData(ReceiveAll(s, packets[..|packets| - 1]), packets[|packets| - 1].pos, packets[|packets| - 1].data).state
  }

  /** What `taken` bytes already read and the buffer hold is the stream up to the receiver's position. */
  predicate Received(s: State, taken: Bytes, stream: Bytes) {
    s.receiverPosition <= |stream| && taken + s.downstream == stream[..s.receiverPosition]
  }

  /** Appending at the receiver's position keeps the delivered bytes a prefix. */
  lemma PrefixGrows(stream: Bytes, have: Bytes, buffer: Bytes, taken: Bytes, more: Bytes)
    requires |have| + |more| <= |stream| && have == stream[..|have|] && taken + buffer == have
    requires more == stream[|have|..|have| + |more|]
    ensures taken + (buffer + more) == stream[..|have| + |more|]
  {
    assert taken + (buffer + more) == have + more;
  }

  lemma SubtractWraps(len: nat, skip: nat)
    requires skip <= len < U32_LIMIT
    ensures U32(len + U32_LIMIT - skip) == len - skip
  {
  }

  /** Below 2^31 no addition of the receiver wraps around: this is what an open handler does. */
  lemma OnDataBelowLimit(s: State, pos: Numeric, data: Bytes)
    requires !s.closed && !s.closing
    requires pos + |data| < NUMERIC_LIMIT && s.receiverPosition < NUMERIC_LIMIT
    ensures var rp, end := s.receiverPosition, pos + |data|;
      OnData(s, pos, data) ==
      if pos <= rp < end then
        Turn(s.(downstream := s.downstream + data[rp - pos..], receiverPosition := end), [Ack(s.session, end)])
      else if end <= rp then Turn(s, [Ack(s.session, rp)])
      else Turn(s, [])
  {
    if pos <= s.receiverPosition {
      if s.receiverPosition < pos + |data| {
        SubtractWraps(|data|, s.receiverPosition - pos);
      } else if pos == s.receiverPosition {
        assert data == [] && s.downstream + data == s.downstream;
      }
    }
  }

  /** An open handler acknowledges a data packet if and only if it has received everything before it. */
  lemma AnsweredIff(s: State, pos: Numeric, data: Bytes)
    requires !s.closed && !s.closing
    requires pos + |data| < NUMERIC_LIMIT && s.receiverPosition < NUMERIC_LIMIT
    ensures OnData(s, pos, data).sent == [Ack(s.session, OnData(s, pos, data).state.receiverPosition)] <==>
            pos <= s.receiverPosition
  {
    OnDataBelowLimit(s, pos, data);
    hide OnData;
  }

  /** A connect is answered, as if nothing had been received yet, except by the end that opened the session. */
  lemma ConnectIsAnsweredIff(s: State)
    requires s.running
    ensures var t := Step(s, Receive(Connect(s.session)));
      && (t.sent == [Ack(s.session, 0)] <==> !s.startConnection)
      && (t.sent == [] <==> s.startConnection)
      && t.state.receiverPosition == s.receiverPosition && t.state.downstream == s.downstream
  {
  }

  /** For instance, the byte at position 5 is met with silence when nothing has arrived yet. */
  lemma GapExample(session: Numeric)
    ensures OnData(Initial(false, session), 5, "x").sent == []
  {
  }

  lemma SliceReceived(s: State, p: Packet, taken: Bytes, stream: Bytes)
    requires |stream| < NUMERIC_LIMIT && SliceOf(p, stream)
    requires Received(s, taken, stream)
    ensures Received(OnData(s, p.pos, p.data).state, taken, stream)
    ensures s.receiverPosition <= OnData(s, p.pos, p.data).state.receiverPosition
    ensures !s.closed && !s.closing && p.pos <= s.receiverPosition ==>
              var t := OnData(s, p.pos, p.data);
              t.state.receiverPosition >= p.pos + |p.data|
              && t.sent == [Ack(s.session, t.state.receiverPosition)]
  {
    if s.closed || s.closing {
    } else {
      hide OnData, Received;
      OpenSliceReceived(s, p, taken, stream);
    }
  }

  lemma OpenSliceReceived(s: State, p: Packet, taken: Bytes, stream: Bytes)
    requires |stream| < NUMERIC_LIMIT && SliceOf(p, stream) && Received(s, taken, stream) && !s.closed && !s.closing
    ensures var t := OnData(s, p.pos, p.data);
      && Received(t.state, taken, stream) && s.receiverPosition <= t.state.receiverPosition
      && (p.pos <= s.receiverPosition ==>
            t.state.receiverPosition >= p.pos + |p.data| && t.sent == [Ack(s.session, t.state.receiverPosition)])
  {
    hide OnData;
    OnDataBelowLimit(s, p.pos, p.data);
    var rp, end := s.receiverPosition, p.pos + |p.data|;
    if p.pos <= rp < end {
      var more := p.data[rp - p.pos..];
      assert more == stream[rp..end];
      PrefixGrows(stream, stream[..rp], s.downstream, taken, more);
    }
  }

  /**
    Whatever data packets arrive, in whatever order, overlap and number, as long as they are
    pieces of one stream: the bytes delivered are always a prefix of the stream, ending at the
    receiver's position, which never moves back.
   */
  lemma {:induction false} ReceiverAgainstAnySender(s: State, packets: seq<Packet>, taken: Bytes, stream: Bytes)
    requires |stream| < NUMERIC_LIMIT
    requires forall p <- packets :: SliceOf(p, stream)
    requires Received(s, taken, stream)
    ensures (forall p <- packets :: p.Data?)
    ensures var s' := ReceiveAll(s, packets);
      Received(s', taken, stream) && s.receiverPosition <= s'.receiverPosition
  {
    if packets != [] {
      var init, last := packets[..|packets| - 1], packets[|packets| - 1];
      ReceiverAgainstAnySender(s, init, taken, stream);
      SliceReceived(ReceiveAll(s, init), last, taken, stream);
    }
  }
}
