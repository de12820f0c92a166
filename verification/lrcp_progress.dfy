/**
  An open LRCP session never wedges: from every reachable state some finite run of
  wake-ups, sends, arrivals and retransmission timeouts delivers everything written.
 */
module LrcpProgress {
  import opened Wrappers
  import opened LrcpPackets
  import opened LrcpProtocol
  import opened LrcpNetwork

  /** A handler that nobody has shut down. */
  predicate OpenSide(h: State) {
    && h.running && !h.closing && !h.closed && !h.upstreamClosed
    && !(h.sendPacket.Some? && h.sendPacket.value.Close?)
    && !(h.lastPacketSent.Some? && h.lastPacketSent.value.Close?)
  }

  predicate NoClose(packets: set<Packet>) {
    forall p <- packets :: !p.Close?
  }

  predicate Open(n: Net) {
    && Inv(n)
    && OpenSide(n.left.h) && OpenSide(n.right.h)
    && NoClose(n.toLeft) && NoClose(n.toRight)
  }

  /** A side that has offered or sent a close is itself closing or has stopped. */
  predicate Mannered(x: Side, toY: set<Packet>) {
    && (x.h.closed ==> x.h.closing)
    && (x.h.running && x.h.upstreamClosed ==> x.h.closing)
    && (x.h.running && !x.h.closing ==> OpenSide(x.h) && NoClose(toY))
  }

  predicate MannersInv(n: Net) {
    Inv(n) && Mannered(n.left, n.toRight) && Mannered(n.right, n.toLeft)
  }

  lemma TurnKeepsManners(n: Net, e: Event)
    requires MannersInv(n) && CanLeft(n, Turns(true, e))
    ensures Mannered(ActLeft(n, Turns(true, e)).left, ActLeft(n, Turns(true, e)).toRight)
  {
    var t := React(n.left.h, e);
    if e.Receive? && e.packet.Ack? {
      assert AckOk(n.left, n.right, e.packet);
    }
    ReactManners(n.left.h, e);
  }

  lemma ReactManners(s: State, e: Event)
    requires Enabled(s, e) && (s.closed ==> s.closing) && (s.upstreamClosed ==> s.closing)
    requires !s.closing ==> OpenSide(s)
    ensures var t := React(s, e);
      && (t.state.closed ==> t.state.closing)
      && (t.state.running && t.state.upstreamClosed ==> t.state.closing)
      && (t.state.running && !t.state.closing ==> OpenSide(t.state) && forall p <- t.sent :: !p.Close?)
      && (t.state.running && !t.state.closing ==> s.running && !s.closing)
  {
  }

  lemma ActKeepsManners(n: Net, a: Action)
    requires MannersInv(n) && Can(n, a)
    ensures MannersInv(Act(n, a))
  {
    ActKeepsInv(n, a);
    if a.Turns? {
      TurnKeepsManners(End(n, a.left), a.event);
    }
  }

  lemma {:induction false} RunKeepsManners(n: Net, actions: seq<Action>)
    requires MannersInv(n) && Runs(n, actions)
    ensures MannersInv(After(n, actions))
    decreases |actions|
  {
    hide Can, Act, MannersInv;
    if actions != [] {
      ActKeepsManners(n, actions[0]);
      RunKeepsManners(Act(n, actions[0]), actions[1..]);
    }
  }

  /** Neither handler has stopped or is closing. */
  predicate Alive(n: Net) {
    n.left.h.running && n.right.h.running && !n.left.h.closing && !n.right.h.closing
  }

  lemma ReachableOpen(n: Net)
    requires Reachable(n) && Alive(n)
    ensures Open(n)
  {
    var session: Numeric, actions: seq<Action> :| Runs(Start(session), actions) && After(Start(session), actions) == n;
    StartInv(session);
    RunKeepsManners(Start(session), actions);
  }

  /** What the two handlers and the network do on their own. */
  predicate Spontaneous(a: Action) {
    a.Turns? && match a.event
      case Exit => false
      case Shutdown => false
      case Timeout(expired) => !expired
      case _ => true
  }

  /** One spontaneous action keeps the session open and moves no position back. */
  predicate Forward(n: Net, m: Net) {
    && Open(m)
    && m.left.written == n.left.written && m.right.written == n.right.written
    && m.left.h.startConnection == n.left.h.startConnection
    && m.left.read == n.left.read && m.right.read == n.right.read
    && n.left.h.senderOffset <= m.left.h.senderOffset && n.right.h.senderOffset <= m.right.h.senderOffset
    && n.left.h.receiverPosition <= m.left.h.receiverPosition && n.right.h.receiverPosition <= m.right.h.receiverPosition
    && n.toLeft <= m.toLeft && n.toRight <= m.toRight
  }

  lemma OpenTurn(n: Net, e: Event)
    requires Open(n) && CanLeft(n, Turns(true, e)) && Spontaneous(Turns(true, e))
    ensures Forward(n, ActLeft(n, Turns(true, e)))
  {
    TurnKeepsInv(n, e);
    if e.Receive? {
      OpenHears(n, e.packet);
    }
  }

  lemma OpenHears(n: Net, p: Packet)
    requires Open(n) && CanLeft(n, Turns(true, Receive(p)))
    ensures var t := React(n.left.h, Receive(p));
      OpenSide(t.state) && (forall q <- t.sent :: !q.Close?)
      && n.left.h.senderOffset <= t.state.senderOffset && n.left.h.receiverPosition <= t.state.receiverPosition
  {
    assert AckOk(n.left, n.right, p);
    if p.Data? {
      assert OfferOk(n.right, p);
      OnDataBelowLimit(n.left.h, p.pos, p.data);
    }
  }

  /** `m` can be reached from `n` by spontaneous actions alone. */
  ghost predicate Reaches(n: Net, m: Net) {
    exists actions: seq<Action> :: (forall a <- actions :: Spontaneous(a)) && Runs(n, actions) && After(n, actions) == m
  }

  lemma {:induction false} RunsTogether(n: Net, first: seq<Action>, second: seq<Action>)
    requires Runs(n, first) && Runs(After(n, first), second)
    ensures Runs(n, first + second) && After(n, first + second) == After(After(n, first), second)
    decreases |first|
  {
    hide Can, Act;
    if first == [] {
      assert first + second == second;
    } else {
      RunsTogether(Act(n, first[0]), first[1..], second);
      assert (first + second)[1..] == first[1..] + second;
    }
  }

  lemma ReachesTrans(n: Net, m: Net, o: Net)
    requires Reaches(n, m) && Reaches(m, o)
    ensures Reaches(n, o)
  {
    var first: seq<Action> :| (forall a <- first :: Spontaneous(a)) && Runs(n, first) && After(n, first) == m;
    var second: seq<Action> :| (forall a <- second :: Spontaneous(a)) && Runs(m, second) && After(m, second) == o;
    RunsTogether(n, first, second);
    var both := first + second;
    assert forall a <- both :: Spontaneous(a);
  }

  lemma ReachesSelf(n: Net)
    ensures Reaches(n, n)
  {
    var actions: seq<Action> := [];
    assert Runs(n, actions) && After(n, actions) == n;
  }

  lemma ReachesOne(n: Net, a: Action)
    requires Can(n, a) && Spontaneous(a)
    ensures Reaches(n, Act(n, a))
  {
    var actions := [a];
    assert actions[1..] == [];
    assert Runs(Act(n, a), actions[1..]);
    assert After(n, actions) == After(Act(n, a), actions[1..]) == Act(n, a);
  }

  lemma ReachesSwap(n: Net, m: Net)
    requires Reaches(n, m)
    ensures Reaches(n.Swap(), m.Swap())
  {
    var actions: seq<Action> :| (forall a <- actions :: Spontaneous(a)) && Runs(n, actions) && After(n, actions) == m;
    SwapRuns(n, actions);
    forall i | 0 <= i < |actions|
      ensures Spontaneous(Mirror(actions)[i])
    {
      assert Spontaneous(actions[i]) && Mirror(actions)[i] == MirrorOne(actions[i]);
    }
  }

  // ------------------------------------------------------------ single steps

  /** The left side takes a spontaneous turn. */
  lemma LeftTurn(n: Net, e: Event) returns (m: Net)
    requires Open(n) && CanLeft(n, Turns(true, e)) && Spontaneous(Turns(true, e))
    ensures m == ActLeft(n, Turns(true, e)) && Reaches(n, m) && Forward(n, m)
  {
    m := ActLeft(n, Turns(true, e));
    ReachesOne(n, Turns(true, e));
    OpenTurn(n, e);
  }

  lemma RightTurn(n: Net, e: Event) returns (m: Net)
    requires Open(n) && CanLeft(n.Swap(), Turns(false, e)) && Spontaneous(Turns(false, e))
    ensures m == ActLeft(n.Swap(), Turns(true, e)).Swap() && Reaches(n, m) && Forward(n, m)
  {
    m := ActLeft(n.Swap(), Turns(true, e)).Swap();
    ReachesOne(n, Turns(false, e));
    OpenTurn(n.Swap(), e);
  }

  // ------------------------------------------------------- the sender's part

  /** With something outstanding, the left side can put it on the network. */
  lemma PutOut(n: Net) returns (m: Net)
    requires Open(n) && n.left.h.needAck
    ensures Reaches(n, m) && Forward(n, m)
    ensures Outstanding(n.left) in m.toRight
    ensures m.left.h.senderOffset == n.left.h.senderOffset && m.left.h.senderLength == n.left.h.senderLength
    ensures m.left.h.needAck
  {
    var p := Outstanding(n.left);
    var ready := n;
    if n.left.h.sendPacket == None {
      ready := LeftTurn(n, Timeout(false));
    } else {
      ReachesSelf(n);
    }
    assert ready.left.h.sendPacket == Some(p);
    m := LeftTurn(ready, Send);
    ReachesTrans(n, ready, m);
  }

  /** What the peer knows of an outstanding packet: a connect at the very start, or data at or before its position. */
  lemma OutstandingAtPeer(n: Net)
    requires Inv(n) && n.left.h.needAck && Outstanding(n.left) in n.toRight
    ensures n.left.h.senderOffset <= n.left.h.senderLength <= |n.left.written|
    ensures var p, x, y := Outstanding(n.left), n.left.h, n.right.h;
      && p.session == y.session == x.session
      && (p.Connect? ==> x.senderLength == 0 && !y.startConnection)
      && (p.Data? ==> p.pos <= y.receiverPosition <= p.pos + |p.data| == x.senderLength < NUMERIC_LIMIT)
      && (p.Connect? || p.Data?)
  {
    assert OfferOk(n.left, Outstanding(n.left));
  }

  lemma AnswersData(h: State, pos: Numeric, data: Bytes, end: Numeric)
    requires OpenSide(h) && pos <= h.receiverPosition <= pos + |data| == end < NUMERIC_LIMIT
    ensures OnData(h, pos, data).sent == [Ack(h.session, end)]
  {
    hide OnData;
    OnDataBelowLimit(h, pos, data);
  }

  lemma PeerReplies(n: Net)
    requires Open(n) && n.left.h.needAck && Outstanding(n.left) in n.toRight
    ensures Enabled(n.right.h, Receive(Outstanding(n.left)))
    ensures React(n.right.h, Receive(Outstanding(n.left))).sent == [Ack(n.left.h.session, n.left.h.senderLength)]
  {
    hide Inv, OnData;
    OutstandingAtPeer(n);
    var p := Outstanding(n.left);
    if p.Data? {
      AnswersData(n.right.h, p.pos, p.data, n.left.h.senderLength);
    }
  }

  /** The peer answers the outstanding packet by acknowledging everything sent. */
  lemma PeerAnswers(n: Net) returns (m: Net)
    requires Open(n) && n.left.h.needAck && Outstanding(n.left) in n.toRight
    ensures Reaches(n, m) && Forward(n, m) && m.left == n.left
    ensures Ack(n.left.h.session, n.left.h.senderLength) in m.toLeft
  {
    PeerReplies(n);
    m := RightTurn(n, Receive(Outstanding(n.left)));
    assert [Ack(n.left.h.session, n.left.h.senderLength)][0] in m.toLeft;
  }

  lemma AckClears(h: State)
    requires OpenSide(h)
    ensures Prepare(OnAck(h, h.senderLength).state).senderOffset == h.senderLength
    ensures Prepare(OnAck(h, h.senderLength).state).needAck ==> Prepare(OnAck(h, h.senderLength).state).sendPacket.Some?
  {
  }

  lemma HearsAck(n: Net) returns (m: Net)
    requires Open(n) && Ack(n.left.h.session, n.left.h.senderLength) in n.toLeft
    ensures Reaches(n, m) && Forward(n, m)
    ensures m.left.h.senderOffset == n.left.h.senderLength
    ensures m.left.h.needAck ==> m.left.h.senderLength > m.left.h.senderOffset
  {
    m := LeftTurn(n, Receive(Ack(n.left.h.session, n.left.h.senderLength)));
    AckClears(n.left.h);
    assert m.left.h == Prepare(OnAck(n.left.h, n.left.h.senderLength).state);
  }

  /** From an outstanding packet to its acknowledgement. */
  lemma Acknowledged(n: Net) returns (m: Net)
    requires Open(n) && n.left.h.needAck
    ensures Reaches(n, m) && Forward(n, m)
    ensures m.left.h.senderOffset == n.left.h.senderLength
    ensures m.left.h.needAck ==> m.left.h.senderLength > m.left.h.senderOffset
  {
    var sent := PutOut(n);
    var answered := PeerAnswers(sent);
    m := HearsAck(answered);
    ReachesTrans(n, sent, answered);
    ReachesTrans(n, answered, m);
  }

  /** No connect is waiting for its acknowledgement. */
  lemma Connected(n: Net) returns (m: Net)
    requires Open(n)
    ensures Reaches(n, m) && Forward(n, m)
    ensures m.left.h.needAck ==> m.left.h.senderLength > m.left.h.senderOffset
  {
    if n.left.h.needAck && n.left.h.senderOffset == n.left.h.senderLength {
      m := Acknowledged(n);
    } else {
      ReachesSelf(n);
      m := n;
    }
  }

  lemma LoadsWhenIdle(h: State, e: Event)
    requires OpenSide(h) && Enabled(h, e) && !h.needAck && h.upstream != [] && h.senderLength + |h.upstream| < NUMERIC_LIMIT
    requires if h.sendPacket.Some? then e == Send else e == Wakeup
    ensures var h' := Step(h, e).state; h'.needAck && h'.senderLength > h.senderLength && h'.senderOffset == h.senderOffset
  {
    PayloadIsLongestPrefix(h.upstream);
  }

  /** Data becomes outstanding. */
  lemma Loaded(n: Net) returns (m: Net)
    requires Open(n) && n.left.h.senderOffset < |n.left.written|
    ensures Reaches(n, m) && Forward(n, m)
    ensures (m.left.h.needAck && m.left.h.senderLength > m.left.h.senderOffset)
       || m.left.h.senderOffset > n.left.h.senderOffset
  {
    var idle := Connected(n);
    if idle.left.h.needAck || idle.left.h.senderOffset > n.left.h.senderOffset {
      m := idle;
    } else {
      var e := if idle.left.h.sendPacket.Some? then Send else Wakeup;
      m := LeftTurn(idle, e);
      LoadsWhenIdle(idle.left.h, e);
      ReachesTrans(n, idle, m);
    }
  }

  /** Some unacknowledged byte becomes acknowledged. */
  lemma SomeProgress(n: Net) returns (m: Net)
    requires Open(n) && n.left.h.senderOffset < |n.left.written|
    ensures Reaches(n, m) && Forward(n, m)
    ensures n.left.h.senderOffset < m.left.h.senderOffset
  {
    var loaded := Loaded(n);
    if loaded.left.h.senderOffset > n.left.h.senderOffset {
      m := loaded;
    } else {
      m := Acknowledged(loaded);
      ReachesTrans(n, loaded, m);
    }
  }

  // ------------------------------------------------------------- the theorem

  lemma {:induction false} LeftDelivers(n: Net) returns (m: Net)
    requires Open(n)
    ensures Reaches(n, m) && Forward(n, m)
    ensures m.left.h.senderOffset == |n.left.written|
    decreases |n.left.written| - n.left.h.senderOffset
  {
    if n.left.h.senderOffset == |n.left.written| {
      ReachesSelf(n);
      m := n;
    } else {
      var next := SomeProgress(n);
      m := LeftDelivers(next);
      ReachesTrans(n, next, m);
    }
  }

  /**
    From every reachable state in which neither side is closing or has stopped, a finite run of spontaneous
    actions delivers everything both sides have written: both readers have it, both write buffers are empty
    and every flush completes.
   */
  lemma NeverWedges(n: Net) returns (m: Net)
    requires Reachable(n) && Alive(n)
    ensures Reaches(n, m) && Forward(n, m)
    ensures m.right.Delivered() == n.left.written && m.left.Delivered() == n.right.written
    ensures FlushReady(m.left.h) && FlushReady(m.right.h)
  {
    ReachableOpen(n);
    m := EverythingDelivered(n);
  }

  lemma EverythingDelivered(n: Net) returns (m: Net)
    requires Open(n)
    ensures Reaches(n, m) && Forward(n, m)
    ensures m.right.Delivered() == n.left.written && m.left.Delivered() == n.right.written
    ensures FlushReady(m.left.h) && FlushReady(m.right.h)
  {
    var left := LeftDelivers(n);
    var both := LeftDelivers(left.Swap());
    m := both.Swap();
    ReachesSwap(left.Swap(), both);
    ReachesTrans(n, left, m);
  }
}
