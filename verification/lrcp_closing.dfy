/** How LRCP sessions end: when a handler begins to close and when it stops, what it answers, and that both ends finish. */
module LrcpClosing {
  import opened Wrappers
  import opened LrcpPackets
  import opened LrcpProtocol
  import opened LrcpNetwork
  import opened LrcpProgress

  // ------------------------------------------------------------ one handler

  predicate HearsClose(e: Event) {
    e.Receive? && e.packet.Close?
  }

  /** An acknowledgement of more than was sent. */
  predicate Excessive(s: State, e: Event) {
    e.Receive? && e.packet.Ack? && e.packet.length > s.senderLength
  }

  /** A handler that has stopped, or has closed and only waits for its peer. */
  predicate Over(s: State) {
    !s.running || s.closed
  }

  /** The stages of a handler: what makes it begin to close, what makes it closed, and what stops it. */
  lemma StagesIff(s: State, e: Event)
    requires Enabled(s, e) && (s.closed ==> s.closing)
    ensures var h := Step(s, e).state;
      && (h.closing <==> s.closing || e == Shutdown || Excessive(s, e))
      && (h.closed <==> s.closed || (s.closing && (e == Send || HearsClose(e))))
      && (!h.running <==> e == Exit || e == Timeout(true) || (HearsClose(e) && !s.closing))
  {
    hide Prepare, OnData;
    PrepareKeepsStage(React(s, e).state);
    if e.Receive? && e.packet.Data? {
      DataKeepsStage(s, e.packet.pos, e.packet.data);
    }
  }

  lemma PrepareKeepsStage(s: State)
    ensures var h := Prepare(s); h.closing == s.closing && h.closed == s.closed && h.running == s.running
    ensures Prepare(s).upstreamClosed ==> s.upstreamClosed || s.closing
  {
  }

  lemma DataKeepsStage(s: State, pos: Numeric, data: Bytes)
    ensures var h := OnData(s, pos, data).state; h.closing == s.closing && h.closed == s.closed && h.running == s.running
  {
  }

  /** A handler that is closing answers data and acknowledgements with a close, and takes nothing from them. */
  lemma ClosingTakesNothing(s: State, p: Packet)
    requires Enabled(s, Receive(p)) && s.closing && (p.Data? || p.Ack?)
    ensures var t := Step(s, Receive(p));
      && t.sent == [Close(s.session)]
      && t.state.downstream == s.downstream && t.state.receiverPosition == s.receiverPosition
      && t.state.upstream == s.upstream && t.state.senderOffset == s.senderOffset
  {
  }

  // What a handler does of its own accord.

  predicate Own(e: Event) {
    e == Wakeup || e == Shutdown || e == Send || e == Timeout(false)
  }

  /** Among what the handler sends of its own accord in these turns is a close. */
  predicate SaysClose(s: State, events: seq<Event>)
    decreases |events|
  {
    events != [] && Own(events[0]) && Enabled(s, events[0]) &&
    var t := Step(s, events[0]);
    Close(s.session) in t.sent || SaysClose(t.state, events[1..])
  }

  /** A handler that closes on another packet than a close. */
  predicate Mute(s: State) {
    && s.closing
    && !(s.sendPacket.Some? && s.sendPacket.value.Close?)
    && !(s.lastPacketSent.Some? && s.lastPacketSent.value.Close?)
    && (s.closed || s.needAck || s.sendPacket.Some?)
  }

  lemma MuteStays(s: State, e: Event)
    requires Mute(s) && Own(e) && Enabled(s, e)
    ensures Mute(Step(s, e).state) && Close(s.session) !in Step(s, e).sent
  {
  }

  lemma {:induction false} MuteSaysNothing(s: State, events: seq<Event>)
    requires Mute(s)
    ensures !SaysClose(s, events)
    decreases |events|
  {
    hide Mute, Step, Own;
    if events != [] && Own(events[0]) && Enabled(s, events[0]) {
      MuteStays(s, events[0]);
      MuteSaysNothing(Step(s, events[0]).state, events[1..]);
    }
  }

  lemma SaysCloseAtOnce(s: State)
    requires s.running && !s.closed && s.sendPacket == Some(Close(s.session))
    ensures exists events: seq<Event> :: SaysClose(s, events)
  {
    var events: seq<Event> := [Send];
    assert Step(s, Send).sent[0] == Close(s.session);
    assert Own(events[0]) && Enabled(s, events[0]);
    assert SaysClose(s, events);
  }

  /**
    A handler that is shut down says so of its own accord if and only if nothing is waiting to be sent or to be
    acknowledged: otherwise it is closed by sending what waits, and only an answer can tell the peer.
   */
  lemma ShutdownIsSaidIff(s: State)
    requires OpenSide(s)
    ensures (exists events: seq<Event> :: SaysClose(Step(s, Shutdown).state, events)) <==> s.sendPacket.None? && !s.needAck
  {
    var h := Step(s, Shutdown).state;
    if s.sendPacket.None? && !s.needAck {
      SaysCloseAtOnce(h);
    } else {
      forall events: seq<Event> ensures !SaysClose(h, events) { MuteSaysNothing(h, events); }
    }
  }

  // -------------------------------------------------------- the two of them

  /**
    A handler whose stream was closed from outside has stopped and has sent a close; one that is closed has sent
    something that its peer must answer.
   */
  predicate Parted(x: Side, toY: set<Packet>) {
    && (x.h.upstreamClosed && !x.h.closing ==> !x.h.running && Close(x.h.session) in toY)
    && (x.h.closed ==> x.h.closing && exists p <- toY :: !p.Ack?)
  }

  predicate EndInv(n: Net) {
    MannersInv(n) && Parted(n.left, n.toRight) && Parted(n.right, n.toLeft)
  }

  lemma TurnKeepsParted(n: Net, e: Event)
    requires EndInv(n) && CanLeft(n, Turns(true, e))
    ensures Parted(ActLeft(n, Turns(true, e)).left, ActLeft(n, Turns(true, e)).toRight)
  {
    var x, m := n.left, ActLeft(n, Turns(true, e));
    TurnParts(x.h, e);
    var t := Step(x.h, e);
    assert forall p <- t.sent :: p in m.toRight;
    if t.state.closed {
      if x.h.closed {
        var p :| p in n.toRight && !p.Ack?;
        assert p in m.toRight;
      } else {
        assert t.sent[0] in m.toRight && !t.sent[0].Ack?;
      }
    }
  }

  lemma TurnParts(s: State, e: Event)
    requires Enabled(s, e) && (s.closed ==> s.closing) && (s.upstreamClosed ==> s.closing)
    requires s.sendPacket.Some? ==> !s.sendPacket.value.Ack?
    ensures var t := Step(s, e);
      && (t.state.upstreamClosed && !t.state.closing ==> !t.state.running && t.sent == [Close(s.session)])
      && (t.state.closed ==> t.state.closing)
      && (t.state.closed && !s.closed ==> t.sent != [] && !t.sent[0].Ack?)
  {
    hide Prepare, OnData, OnAck;
    PrepareKeepsStage(React(s, e).state);
    if e.Receive? && e.packet.Ack? {
      AckKeepsStream(s, e.packet.length);
    }
  }

  lemma AckKeepsStream(s: State, length: Numeric)
    ensures var h := OnAck(s, length).state;
      h.closed == s.closed && (s.closing ==> h.closing) && h.upstreamClosed == s.upstreamClosed
  {
  }

  lemma ActKeepsEnd(n: Net, a: Action)
    requires EndInv(n) && Can(n, a)
    ensures EndInv(Act(n, a))
  {
    ActKeepsManners(n, a);
    if a.Turns? {
      TurnKeepsParted(End(n, a.left), a.event);
    }
  }

  lemma {:induction false} RunKeepsEnd(n: Net, actions: seq<Action>)
    requires EndInv(n) && Runs(n, actions)
    ensures EndInv(After(n, actions))
    decreases |actions|
  {
    hide Can, Act, EndInv;
    if actions != [] {
      ActKeepsEnd(n, actions[0]);
      RunKeepsEnd(Act(n, actions[0]), actions[1..]);
    }
  }

  lemma ReachableEnd(n: Net)
    requires Reachable(n)
    ensures EndInv(n)
  {
    var session: Numeric, actions: seq<Action> :| Runs(Start(session), actions) && After(Start(session), actions) == n;
    StartInv(session);
    RunKeepsEnd(Start(session), actions);
  }

  /**
    A handler that is not yet closed answers a close with a close, after which it is closed, if it was closing, or
    has stopped with its stream closed; a closed one stays silent.
   */
  lemma CloseIsAnswered(n: Net, left: bool)
    requires Reachable(n)
    requires var x := End(n, left).left; x.h.running && Close(x.h.session) in End(n, left).toLeft
    ensures var s := End(n, left).left.h;
      var t := Step(s, Receive(Close(s.session)));
      && Over(t.state)
      && if s.closed then t.sent == [] && t.state.running
         else t.sent == [Close(s.session)] && (if s.closing then t.state.closed else !t.state.running && t.state.upstreamClosed)
  {
    ReachableEnd(n);
  }

  lemma {:induction false} NothingIsUnsent(n: Net, actions: seq<Action>)
    requires Runs(n, actions)
    ensures n.toLeft <= After(n, actions).toLeft && n.toRight <= After(n, actions).toRight
    ensures After(n, actions).left.h.session == n.left.h.session && After(n, actions).right.h.session == n.right.h.session
    decreases |actions|
  {
    if actions != [] {
      NothingIsUnsent(Act(n, actions[0]), actions[1..]);
    }
  }

  /** Once a handler has heard a close, its own close is in flight, whatever happens afterwards. */
  lemma AnswerStays(n: Net, left: bool, actions: seq<Action>)
    requires Reachable(n)
    requires var x := End(n, left).left; x.h.running && !x.h.closed && Close(x.h.session) in End(n, left).toLeft
    requires var a := Turns(left, Receive(Close(n.left.h.session))); Can(n, a) && Runs(Act(n, a), actions)
    ensures var a := Turns(left, Receive(Close(n.left.h.session)));
      Close(n.left.h.session) in End(After(Act(n, a), actions), left).toRight
  {
    hide Runs, After;
    ReachableInv(n);
    CloseIsAnswered(n, left);
    var a := Turns(left, Receive(Close(n.left.h.session)));
    var s := End(n, left).left.h;
    assert Step(s, Receive(Close(s.session))).sent[0] in End(Act(n, a), left).toRight;
    NothingIsUnsent(Act(n, a), actions);
  }

  /** A stream that was closed from outside, by the peer or by expiry, belongs to a stopped handler that has said so. */
  lemma ClosedFromOutside(n: Net, left: bool)
    requires Reachable(n)
    ensures var m := End(n, left);
      m.left.h.upstreamClosed && !m.left.h.closing ==> !m.left.h.running && Close(m.left.h.session) in m.toRight
  {
    ReachableEnd(n);
  }

  // ------------------------------------------------------ both ends finish

  lemma LeftEndTurn(n: Net, e: Event) returns (m: Net)
    requires EndInv(n) && CanLeft(n, Turns(true, e)) && Spontaneous(Turns(true, e))
    ensures m == ActLeft(n, Turns(true, e)) && Reaches(n, m) && EndInv(m)
  {
    m := ActLeft(n, Turns(true, e));
    ReachesOne(n, Turns(true, e));
    ActKeepsEnd(n, Turns(true, e));
  }

  lemma RightEndTurn(n: Net, e: Event) returns (m: Net)
    requires EndInv(n) && CanLeft(n.Swap(), Turns(false, e)) && Spontaneous(Turns(false, e))
    ensures m == ActLeft(n.Swap(), Turns(true, e)).Swap() && Reaches(n, m) && EndInv(m)
  {
    m := ActLeft(n.Swap(), Turns(true, e)).Swap();
    ReachesOne(n, Turns(false, e));
    ActKeepsEnd(n, Turns(false, e));
  }

  /** What a closing handler needs to have something to send. */
  lemma ReadyToClose(x: Side, y: Side, toX: set<Packet>, toY: set<Packet>) returns (e: Event)
    requires Flow(x, y, toX, toY) && x.h.running && x.h.closing && !x.h.closed && x.h.sendPacket.None?
    ensures Own(e) && !e.Shutdown? && Enabled(x.h, e)
    ensures var t := Step(x.h, e); t.sent == [] && t.state.sendPacket.Some? && t.state.running && t.state.closing && !t.state.closed
  {
    e := if x.h.needAck then Timeout(false) else Wakeup;
  }

  lemma SendCloses(s: State)
    requires s.running && s.closing && !s.closed && s.sendPacket.Some?
    ensures Enabled(s, Send)
    ensures var h := Step(s, Send).state; h.running && h.closing && h.closed
  {
  }

  /** A closing handler becomes closed on its own. */
  lemma ClosesItself(n: Net) returns (m: Net)
    requires EndInv(n) && n.left.h.running && n.left.h.closing
    ensures Reaches(n, m) && EndInv(m) && m.right == n.right
    ensures m.left.h.running && m.left.h.closing && m.left.h.closed
  {
    hide Step, Flow, Reaches;
    m := n;
    ReachesSelf(n);
    if !n.left.h.closed {
      var ready := n;
      if n.left.h.sendPacket.None? {
        var e := ReadyToClose(n.left, n.right, n.toLeft, n.toRight);
        ready := LeftEndTurn(n, e);
      }
      SendCloses(ready.left.h);
      m := LeftEndTurn(ready, Send);
      ReachesTrans(n, ready, m);
    }
  }

  /** What a closed handler has sent, its open peer answers by an acknowledgement, unless it is a close. */
  lemma OpenPeerAnswers(x: Side, y: Side, toX: set<Packet>, toY: set<Packet>, p: Packet)
    requires Flow(x, y, toX, toY) && p in toY && !p.Ack? && !p.Close?
    requires y.h.running && !y.h.closing && !y.h.closed && x.h.startConnection != y.h.startConnection
    ensures Enabled(y.h, Receive(p))
    ensures var t := Step(y.h, Receive(p));
      |t.sent| == 1 && t.sent[0].Ack? && t.sent[0].session == x.h.session
      && t.state.running && !t.state.closing && t.state.session == x.h.session
  {
    assert OfferOk(x, p);
    if p.Data? {
      AnsweredIff(y.h, p.pos, p.data);
    }
  }

  lemma OpenPeerStops(n: Net) returns (m: Net)
    requires EndInv(n) && n.right.h.running && !n.right.h.closing && Close(n.right.h.session) in n.toRight
    ensures Reaches(n, m) && EndInv(m) && m.left == n.left && !m.right.h.running
  {
    hide MannersInv, Parted, Reaches;
    m := RightEndTurn(n, Receive(Close(n.right.h.session)));
  }

  /** A closed handler gets its open peer to stop. */
  lemma StopsPeer(n: Net) returns (m: Net)
    requires EndInv(n) && n.left.h.running && n.left.h.closing && n.left.h.closed
    requires n.right.h.running && !n.right.h.closing
    ensures Reaches(n, m) && EndInv(m) && m.left.h.closed && !m.right.h.running
  {
    hide Flow, Reaches, Step;
    SameSession(n);
    var p :| p in n.toRight && !p.Ack?;
    if p.Close? {
      SessionOf(n.left, n.right, n.toLeft, n.toRight, p);
      m := OpenPeerStops(n);
    } else {
      OpenPeerAnswers(n.left, n.right, n.toLeft, n.toRight, p);
      var heard := RightEndTurn(n, Receive(p));
      var ack := Step(n.right.h, Receive(p)).sent[0];
      assert ack in heard.toLeft && heard.left == n.left;
      ClosingTakesNothing(n.left.h, ack);
      StagesIff(n.left.h, Receive(ack));
      var told := LeftEndTurn(heard, Receive(ack));
      assert Step(n.left.h, Receive(ack)).sent[0] in told.toRight;
      m := OpenPeerStops(told);
      ReachesTrans(n, heard, told);
      ReachesTrans(n, told, m);
    }
  }

  lemma SameSession(n: Net)
    requires EndInv(n)
    ensures n.left.h.session == n.right.h.session && n.left.h.startConnection != n.right.h.startConnection
    ensures n.right.h.running && !n.right.h.closing ==> !n.right.h.closed
  {
  }

  lemma SessionOf(x: Side, y: Side, toX: set<Packet>, toY: set<Packet>, p: Packet)
    requires Flow(x, y, toX, toY) && p in toY
    ensures p.session == x.h.session == y.h.session
  {
  }

  /**
    Closing comes to its end: from every reachable state in which a running handler is closing, a finite run of
    spontaneous actions, without expiry, closes it and closes or stops its peer.
   */
  lemma SessionEnds(n: Net, left: bool) returns (m: Net)
    requires Reachable(n)
    requires var h := End(n, left).left.h; h.running && h.closing
    ensures Reaches(n, m) && Over(m.left.h) && Over(m.right.h)
  {
    ReachableEnd(n);
    if left {
      m := EndsBoth(n);
    } else {
      var o := EndsBoth(n.Swap());
      m := o.Swap();
      ReachesSwap(n.Swap(), o);
    }
  }

  lemma SwapKeepsEnd(n: Net)
    requires EndInv(n)
    ensures EndInv(n.Swap())
  {
  }

  lemma EndsBoth(n: Net) returns (m: Net)
    requires EndInv(n) && n.left.h.running && n.left.h.closing
    ensures Reaches(n, m) && Over(m.left.h) && Over(m.right.h)
  {
    hide Reaches, MannersInv, Parted;
    var closed := ClosesItself(n);
    m := closed;
    if n.right.h.running {
      if n.right.h.closing {
        SwapKeepsEnd(closed);
        var o := ClosesItself(closed.Swap());
        m := o.Swap();
        ReachesSwap(closed.Swap(), o);
      } else {
        m := StopsPeer(closed);
      }
      ReachesTrans(n, closed, m);
    }
  }
}
