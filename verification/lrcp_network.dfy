/**
  Two LRCP handlers joined by a network that loses, duplicates and reorders
  packets: each direction of the network is the set of packets ever sent, and
  any of them may arrive at any time, any number of times, or never.
 */
module LrcpNetwork {
  import opened Wrappers
  import opened LrcpPackets
  import opened LrcpProtocol

  /** A handler with everything its stream has accepted from the writer and handed to the reader. */
  datatype Side = Side(h: State, written: Bytes, read: Bytes) {

    function Delivered(): Bytes {
      read + h.downstream
    }
  }

  datatype Net = Net(left: Side, right: Side, toLeft: set<Packet>, toRight: set<Packet>) {

    /** The same network seen from the other end. */
    function Swap(): Net {
      Net(right, left, toRight, toLeft)
    }
  }

  /** The client, which opens the connection, on the left; the server on the right. */
  function Start(session: Numeric): Net {
    Net(Side(Initial(true, session), [], []), Side(Initial(false, session), [], []), {}, {})
  }

  datatype Action =
    | Turns(left: bool, event: Event)
    | Writes(left: bool, bytes: Bytes)
    | Reads(left: bool, size: nat)

  predicate CanLeft(n: Net, a: Action) {
    match a
    case Turns(_, e) => Enabled(n.left.h, e) && (e.Receive? ==> e.packet in n.toLeft)
    case Writes(_, bytes) => |n.left.written| + |bytes| < NUMERIC_LIMIT
    case Reads(_, _) => true
  }

  function ActLeft(n: Net, a: Action): Net
    requires CanLeft(n, a)
  {
    var x := n.left;
    match a
    case Turns(_, e) =>
      var t := Step(x.h, e);
      n.(left := x.(h := t.state), toRight := n.toRight + (set p | p in t.sent))
    case Writes(_, bytes) =>
      n.(left := Side(WriteStep(x.h, bytes), if x.h.upstreamClosed then x.written else x.written + bytes, x.read))
    case Reads(_, size) =>
      var len := Min(size, |x.h.downstream|);
      n.(left := Side(ReadStep(x.h, size), x.written, x.read + x.h.downstream[..len]))
  }

  predicate Can(n: Net, a: Action) {
    CanLeft(if a.left then n else n.Swap(), a)
  }

  function Act(n: Net, a: Action): Net
    requires Can(n, a)
  {
    if a.left then ActLeft(n, a) else ActLeft(n.Swap(), a).Swap()
  }

  /** A finite run: every action possible where it happens. */
  predicate Runs(n: Net, actions: seq<Action>)
    decreases |actions|
  {
    actions == [] || (Can(n, actions[0]) && Runs(Act(n, actions[0]), actions[1..]))
  }

  function After(n: Net, actions: seq<Action>): Net
    requires Runs(n, actions)
    decreases |actions|
  {
    if actions == [] then n else After(Act(n, actions[0]), actions[1..])
  }

  // ------------------------------------------------------------- invariant

  /** The packet the sender keeps offering until it is acknowledged. */
  function Outstanding(x: Side): Packet
    requires x.h.senderOffset <= x.h.senderLength <= |x.written|
  {
    if x.h.senderOffset == x.h.senderLength then Connect(x.h.session)
    else Data(x.h.session, x.h.senderOffset, x.written[x.h.senderOffset..x.h.senderLength])
  }

  /** A packet the sender offers: a connect, a close, or data that is either acknowledged or outstanding. */
  predicate OfferOk(x: Side, p: Packet) {
    && p.session == x.h.session
    && !p.Ack?
    && (p.Connect? ==> x.h.startConnection)
    && (p.Data? ==>
          && SliceOf(p, x.written)
          && p.data != []
          && |Escape(p.data)| < BUFFER_SIZE
          && (p.pos + |p.data| <= x.h.senderOffset
              || (p.pos == x.h.senderOffset && p.pos + |p.data| == x.h.senderLength)))
  }

  /** Stop and wait: an acknowledgement is old, or acknowledges everything sent. */
  predicate AckOk(x: Side, y: Side, p: Packet) {
    p.Ack? ==>
      && p.length <= y.h.receiverPosition
      && (p.length <= x.h.senderOffset || p.length == x.h.senderLength)
  }

  predicate OptionOk(x: Side, p: Option<Packet>) {
    p.Some? ==> OfferOk(x, p.value)
  }

  predicate Held(x: Side)
    requires x.h.senderOffset <= x.h.senderLength <= |x.written|
  {
    var p := Some(Outstanding(x));
    x.h.sendPacket == p || (x.h.sendPacket == None && x.h.lastPacketSent == p)
  }

  /** The positions of the stream from `x` to `y`, and the buffers at its ends. */
  predicate Positions(x: Side, y: Side) {
    && x.h.session == y.h.session
    && x.h.senderOffset <= y.h.receiverPosition <= x.h.senderLength <= |x.written| < NUMERIC_LIMIT
    && (y.h.receiverPosition == x.h.senderOffset || y.h.receiverPosition == x.h.senderLength)
    && x.h.upstream == x.written[x.h.senderOffset..]
    && y.Delivered() == x.written[..y.h.receiverPosition]
    && (!x.h.needAck ==> x.h.senderOffset == x.h.senderLength)
    && (x.h.needAck && x.h.senderOffset == x.h.senderLength ==> x.h.senderOffset == 0 && x.h.startConnection)
  }

  predicate Offers(x: Side, toY: set<Packet>) {
    forall p <- toY :: !p.Ack? ==> OfferOk(x, p)
  }

  predicate Acks(x: Side, y: Side, toX: set<Packet>) {
    forall p <- toX :: AckOk(x, y, p)
  }

  predicate OneSession(session: Numeric, packets: set<Packet>) {
    forall p <- packets :: p.session == session
  }

  /** Everything about the stream from `x` to `y`. */
  predicate Flow(x: Side, y: Side, toX: set<Packet>, toY: set<Packet>) {
    && Positions(x, y)
    && OptionOk(x, x.h.sendPacket)
    && OptionOk(x, x.h.lastPacketSent)
    && (x.h.needAck && !x.h.closed ==> Held(x))
    && Offers(x, toY)
    && Acks(x, y, toX)
    && OneSession(x.h.session, toX)
    && OneSession(x.h.session, toY)
  }

  predicate Inv(n: Net) {
    && Flow(n.left, n.right, n.toLeft, n.toRight)
    && Flow(n.right, n.left, n.toRight, n.toLeft)
    && n.left.h.startConnection != n.right.h.startConnection
  }

  lemma StartInv(session: Numeric)
    ensures Inv(Start(session))
  {
  }

  // --------------------------------------------------- steps of the sender

  /** The sender's window either stays or moves past everything sent; what was written stays. */
  predicate Advances(x: Side, x': Side) {
    && x'.h.session == x.h.session
    && x'.h.startConnection == x.h.startConnection
    && x.written <= x'.written
    && ((x'.h.senderOffset == x.h.senderOffset && x'.h.senderLength == x.h.senderLength)
        || (x.h.senderOffset <= x.h.senderLength <= x'.h.senderOffset))
  }

  lemma OfferStays(x: Side, x': Side, p: Packet)
    requires OfferOk(x, p) && Advances(x, x')
    ensures OfferOk(x', p)
  {
  }

  lemma OffersStay(x: Side, x': Side, toY: set<Packet>)
    requires Offers(x, toY) && Advances(x, x')
    ensures Offers(x', toY)
  {
    forall p <- toY | !p.Ack?
      ensures OfferOk(x', p)
    {
      OfferStays(x, x', p);
    }
  }

  /** A turn that moves neither the sender's window nor its buffer. */
  lemma SenderStays(x: Side, y: Side, toX: set<Packet>, toY: set<Packet>, h': State, sent: seq<Packet>)
    requires Flow(x, y, toX, toY)
    requires h'.session == x.h.session && h'.startConnection == x.h.startConnection
    requires h'.senderOffset == x.h.senderOffset && h'.senderLength == x.h.senderLength
    requires h'.needAck == x.h.needAck && h'.upstream == x.h.upstream
    requires OptionOk(x, h'.sendPacket) && OptionOk(x, h'.lastPacketSent)
    requires h'.needAck && !h'.closed ==> Held(x.(h := h'))
    requires forall p <- sent :: p.session == x.h.session && (!p.Ack? ==> OfferOk(x, p))
    ensures Flow(x.(h := h'), y, toX, toY + (set p | p in sent))
  {
    var x' := x.(h := h');
    OffersStay(x, x', toY);
    forall p <- sent | !p.Ack?
      ensures OfferOk(x', p)
    {
      OfferStays(x, x', p);
    }
    assert OptionOk(x', h'.sendPacket) && OptionOk(x', h'.lastPacketSent);
  }

  /** Acknowledgements stay good while the window stays or moves past everything sent. */
  lemma AcksStay(x: Side, x': Side, y: Side, y': Side, toX: set<Packet>)
    requires Acks(x, y, toX) && Advances(x, x')
    requires y.h.receiverPosition <= y'.h.receiverPosition && y.h.receiverPosition <= x.h.senderLength
    ensures Acks(x', y', toX)
  {
    forall p <- toX
      ensures AckOk(x', y', p)
    {
      assert AckOk(x, y, p);
    }
  }

  lemma AllAcknowledged(x: Side, y: Side, toX: set<Packet>, toY: set<Packet>)
    requires Flow(x, y, toX, toY) && !x.h.closed && !x.h.closing
    requires y.h.receiverPosition == x.h.senderLength
    ensures Flow(x.(h := OnAck(x.h, x.h.senderLength).state), y, toX, toY)
  {
    var h := x.h;
    var x' := x.(h := OnAck(h, h.senderLength).state);
    assert x'.h.upstream == x.written[h.senderLength..];
    OffersStay(x, x', toY);
    AcksStay(x, x', y, y, toX);
    if h.sendPacket.Some? {
      OfferStays(x, x', h.sendPacket.value);
    }
    if h.lastPacketSent.Some? {
      OfferStays(x, x', h.lastPacketSent.value);
    }
  }

  lemma AckReceived(x: Side, y: Side, toX: set<Packet>, toY: set<Packet>, p: Packet)
    requires Flow(x, y, toX, toY) && p in toX && p.Ack? && !x.h.closed && !x.h.closing
    ensures Flow(x.(h := OnAck(x.h, p.length).state), y, toX, toY)
  {
    assert AckOk(x, y, p);
    if p.length == x.h.senderLength {
      AllAcknowledged(x, y, toX, toY);
    } else {
      assert x.(h := OnAck(x.h, p.length).state) == x;
    }
  }

  lemma SenderSends(x: Side, y: Side, toX: set<Packet>, toY: set<Packet>)
    requires Flow(x, y, toX, toY) && x.h.sendPacket.Some?
    ensures var t := OnSend(x.h); Flow(x.(h := t.state), y, toX, toY + (set p | p in t.sent))
  {
    SenderStays(x, y, toX, toY, OnSend(x.h).state, OnSend(x.h).sent);
  }

  lemma SenderTimesOut(x: Side, y: Side, toX: set<Packet>, toY: set<Packet>, expired: bool)
    requires Flow(x, y, toX, toY) && (x.h.sendPacket.None? || x.h.closed)
    ensures var t := OnTimeout(x.h, expired); Flow(x.(h := t.state), y, toX, toY + (set p | p in t.sent))
  {
    SenderStays(x, y, toX, toY, OnTimeout(x.h, expired).state, OnTimeout(x.h, expired).sent);
  }

  lemma SenderHearsAck(x: Side, y: Side, toX: set<Packet>, toY: set<Packet>, p: Packet)
    requires Flow(x, y, toX, toY) && p in toX && p.Ack?
    ensures var t := OnAck(x.h, p.length); Flow(x.(h := t.state), y, toX, toY + (set p | p in t.sent))
  {
    var t := OnAck(x.h, p.length);
    if !x.h.closed && !x.h.closing {
      AckReceived(x, y, toX, toY, p);
      assert toY + (set p | p in t.sent) == toY;
    } else {
      SenderStays(x, y, toX, toY, t.state, t.sent);
    }
  }

  lemma SenderHearsData(x: Side, y: Side, toX: set<Packet>, toY: set<Packet>, pos: Numeric, data: Bytes)
    requires Flow(x, y, toX, toY)
    ensures var t := OnData(x.h, pos, data); Flow(x.(h := t.state), y, toX, toY + (set p | p in t.sent))
  {
    var t := OnData(x.h, pos, data);
    SenderStays(x, y, toX, toY, t.state, t.sent);
  }

  lemma SenderHearsClose(x: Side, y: Side, toX: set<Packet>, toY: set<Packet>)
    requires Flow(x, y, toX, toY)
    ensures var t := OnClose(x.h); Flow(x.(h := t.state), y, toX, toY + (set p | p in t.sent))
    ensures var t := OnConnect(x.h); Flow(x.(h := t.state), y, toX, toY + (set p | p in t.sent))
  {
    SenderStays(x, y, toX, toY, OnClose(x.h).state, OnClose(x.h).sent);
    SenderStays(x, y, toX, toY, OnConnect(x.h).state, OnConnect(x.h).sent);
  }

  lemma SenderHears(x: Side, y: Side, toX: set<Packet>, toY: set<Packet>, p: Packet)
    requires Flow(x, y, toX, toY) && Enabled(x.h, Receive(p)) && p in toX
    ensures var t := React(x.h, Receive(p)); Flow(x.(h := t.state), y, toX, toY + (set p | p in t.sent))
  {
    match p
    case Ack(_, _) => SenderHearsAck(x, y, toX, toY, p);
    case Data(_, pos, data) => SenderHearsData(x, y, toX, toY, pos, data);
    case Close(_) => SenderHearsClose(x, y, toX, toY);
    case Connect(_) => SenderHearsClose(x, y, toX, toY);
  }

  lemma SenderReacts(x: Side, y: Side, toX: set<Packet>, toY: set<Packet>, e: Event)
    requires Flow(x, y, toX, toY) && Enabled(x.h, e) && (e.Receive? ==> e.packet in toX)
    ensures var t := React(x.h, e); Flow(x.(h := t.state), y, toX, toY + (set p | p in t.sent))
  {
    match e
    case Send => SenderSends(x, y, toX, toY);
    case Timeout(expired) => SenderTimesOut(x, y, toX, toY, expired);
    case Receive(p) => SenderHears(x, y, toX, toY, p);
    case Exit => SenderStays(x, y, toX, toY, React(x.h, e).state, []);
    case Wakeup => SenderStays(x, y, toX, toY, x.h, []);
    case Shutdown => SenderStays(x, y, toX, toY, React(x.h, e).state, []);
  }

  lemma SenderPrepares(x: Side, y: Side, toX: set<Packet>, toY: set<Packet>)
    requires Flow(x, y, toX, toY)
    ensures Flow(x.(h := Prepare(x.h)), y, toX, toY)
  {
    var h := x.h;
    if h.running && !h.needAck && h.sendPacket.None? && !h.closing && h.upstream != [] {
      SenderLoads(x, y, toX, toY);
    } else {
      SenderStays(x, y, toX, toY, Prepare(h), []);
      assert toY + (set p | p in []) == toY;
    }
  }

  lemma SenderLoads(x: Side, y: Side, toX: set<Packet>, toY: set<Packet>)
    requires Flow(x, y, toX, toY)
    requires x.h.running && !x.h.needAck && x.h.sendPacket.None? && !x.h.closing && x.h.upstream != []
    ensures Flow(x.(h := Prepare(x.h)), y, toX, toY)
  {
    var h := x.h;
    var x' := x.(h := Prepare(h));
    PayloadIsLongestPrefix(h.upstream);
    var data := TakePayload(h.upstream).value;
    assert data == x.written[h.senderOffset..h.senderOffset + |data|];
    assert x'.h.senderLength == h.senderLength + |data|;
    assert Offers(x', toY) by {
      forall p <- toY | !p.Ack? ensures OfferOk(x', p) { assert OfferOk(x, p); }
    }
    assert Acks(x', y, toX) by {
      forall p <- toX ensures AckOk(x', y, p) { assert AckOk(x, y, p); }
    }
    assert OptionOk(x', x'.h.lastPacketSent);
    assert OptionOk(x', x'.h.sendPacket);
  }

  // ------------------------------------------------- steps of the receiver

  /** A turn in which the receiver's position and buffer stay. */
  lemma ReceiverStays(x: Side, y: Side, toX: set<Packet>, toY: set<Packet>, h': State, sent: seq<Packet>)
    requires Flow(x, y, toX, toY)
    requires h'.session == y.h.session && h'.receiverPosition == y.h.receiverPosition && h'.downstream == y.h.downstream
    requires forall p <- sent :: p.session == x.h.session && (p.Ack? ==> p.length == y.h.receiverPosition || p.length == 0)
    ensures Flow(x, y.(h := h'), toX + (set p | p in sent), toY)
  {
    var y' := y.(h := h');
    forall p <- toX
      ensures AckOk(x, y', p)
    {
      assert AckOk(x, y, p);
    }
  }

  lemma DataReceived(x: Side, y: Side, toX: set<Packet>, toY: set<Packet>, p: Packet)
    requires Flow(x, y, toX, toY) && p in toY && p.Data? && !y.h.closed && !y.h.closing
    ensures var t := OnData(y.h, p.pos, p.data);
      Flow(x, y.(h := t.state), toX + (set q | q in t.sent), toY)
  {
    assert OfferOk(x, p);
    SliceReceived(y.h, p, y.read, x.written);
    OnDataBelowLimit(y.h, p.pos, p.data);
    var t := OnData(y.h, p.pos, p.data);
    var y' := y.(h := t.state);
    assert y'.Delivered() == x.written[..y'.h.receiverPosition];
    forall q <- toX
      ensures AckOk(x, y', q)
    {
      assert AckOk(x, y, q);
    }
    forall q <- t.sent
      ensures AckOk(x, y', q)
    {
    }
  }

  lemma ReceiverHears(x: Side, y: Side, toX: set<Packet>, toY: set<Packet>, p: Packet)
    requires Flow(x, y, toX, toY) && Enabled(y.h, Receive(p)) && p in toY
    ensures var t := React(y.h, Receive(p)); Flow(x, y.(h := t.state), toX + (set p | p in t.sent), toY)
  {
    var t := React(y.h, Receive(p));
    if p.Data? && !y.h.closed && !y.h.closing {
      DataReceived(x, y, toX, toY, p);
    } else {
      hide Flow;
      ReceiverStays(x, y, toX, toY, t.state, t.sent);
    }
  }

  lemma ReceiverReacts(x: Side, y: Side, toX: set<Packet>, toY: set<Packet>, e: Event)
    requires Flow(x, y, toX, toY) && Enabled(y.h, e) && (e.Receive? ==> e.packet in toY)
    requires OptionOk(y, y.h.sendPacket)
    ensures var t := React(y.h, e); Flow(x, y.(h := t.state), toX + (set p | p in t.sent), toY)
  {
    assert x.h.session == y.h.session;
    hide Flow;
    if e.Receive? {
      ReceiverHears(x, y, toX, toY, e.packet);
    } else {
      var t := React(y.h, e);
      ReceiverStays(x, y, toX, toY, t.state, t.sent);
    }
  }

  lemma ReceiverPrepares(x: Side, y: Side, toX: set<Packet>, toY: set<Packet>)
    requires Flow(x, y, toX, toY)
    ensures Flow(x, y.(h := Prepare(y.h)), toX, toY)
  {
    ReceiverStays(x, y, toX, toY, Prepare(y.h), []);
    assert toX + (set p | p in []) == toX;
  }

  // ------------------------------------------------------------ every step

  lemma TurnKeepsInv(n: Net, e: Event)
    requires Inv(n) && CanLeft(n, Turns(true, e))
    ensures Inv(ActLeft(n, Turns(true, e)))
  {
    var t := React(n.left.h, e);
    var x, toRight := n.left.(h := t.state), n.toRight + (set p | p in t.sent);
    SenderReacts(n.left, n.right, n.toLeft, n.toRight, e);
    SenderPrepares(x, n.right, n.toLeft, toRight);
    ReceiverReacts(n.right, n.left, n.toRight, n.toLeft, e);
    ReceiverPrepares(n.right, x, toRight, n.toLeft);
  }

  function Wrote(x: Side, bytes: Bytes): Side {
    Side(WriteStep(x.h, bytes), x.written + bytes, x.read)
  }

  lemma WriteKeepsPositions(x: Side, y: Side, bytes: Bytes)
    requires Positions(x, y)
    requires |x.written| + |bytes| < NUMERIC_LIMIT && !x.h.upstreamClosed
    ensures Positions(Wrote(x, bytes), y)
    ensures Outstanding(Wrote(x, bytes)) == Outstanding(x)
  {
    var x' := Wrote(x, bytes);
    var so, sl := x.h.senderOffset, x.h.senderLength;
    assert x'.h.upstream == x'.written[so..];
    assert x.written[so..sl] == x'.written[so..sl];
    assert x.written[..y.h.receiverPosition] == x'.written[..y.h.receiverPosition];
  }

  lemma WriteKeepsSending(x: Side, y: Side, toX: set<Packet>, toY: set<Packet>, bytes: Bytes)
    requires Flow(x, y, toX, toY)
    requires |x.written| + |bytes| < NUMERIC_LIMIT && !x.h.upstreamClosed
    ensures Flow(Wrote(x, bytes), y, toX, toY)
  {
    var x' := Wrote(x, bytes);
    WriteKeepsPositions(x, y, bytes);
    OffersStay(x, x', toY);
    AcksStay(x, x', y, y, toX);
    if x.h.sendPacket.Some? {
      OfferStays(x, x', x.h.sendPacket.value);
    }
    if x.h.lastPacketSent.Some? {
      OfferStays(x, x', x.h.lastPacketSent.value);
    }
  }

  lemma WriteKeepsReceiving(x: Side, y: Side, toX: set<Packet>, toY: set<Packet>, bytes: Bytes)
    requires Flow(y, x, toY, toX) && !x.h.upstreamClosed
    ensures Flow(y, Wrote(x, bytes), toY, toX)
  {
    AcksStay(y, y, x, Wrote(x, bytes), toY);
  }

  function Took(x: Side, size: nat): Side {
    Side(ReadStep(x.h, size), x.written, x.read + x.h.downstream[..Min(size, |x.h.downstream|)])
  }

  lemma TookDelivers(x: Side, size: nat)
    ensures Took(x, size).Delivered() == x.Delivered()
  {
    var len := Min(size, |x.h.downstream|);
    assert x.h.downstream[..len] + x.h.downstream[len..] == x.h.downstream;
  }

  lemma ReadKeepsSending(x: Side, y: Side, toX: set<Packet>, toY: set<Packet>, size: nat)
    requires Flow(x, y, toX, toY)
    ensures Flow(Took(x, size), y, toX, toY)
  {
    hide OfferOk, AckOk;
    OffersStay(x, Took(x, size), toY);
    AcksStay(x, Took(x, size), y, y, toX);
    OptionStays(x, Took(x, size), x.h.sendPacket);
    OptionStays(x, Took(x, size), x.h.lastPacketSent);
  }

  lemma OptionStays(x: Side, x': Side, p: Option<Packet>)
    requires OptionOk(x, p) && Advances(x, x')
    ensures OptionOk(x', p)
  {
    if p.Some? {
      OfferStays(x, x', p.value);
    }
  }

  lemma ReadKeepsReceiving(x: Side, y: Side, toX: set<Packet>, toY: set<Packet>, size: nat)
    requires Flow(y, x, toY, toX)
    ensures Flow(y, Took(x, size), toY, toX)
  {
    hide OfferOk, AckOk, Offers, OptionOk, Held;
    TookDelivers(x, size);
    AcksStay(y, y, x, Took(x, size), toY);
  }

  lemma ActLeftKeepsInv(n: Net, a: Action)
    requires Inv(n) && CanLeft(n, a)
    ensures Inv(ActLeft(n, a))
  {
    match a
    case Turns(_, e) => TurnKeepsInv(n, e);
    case Writes(_, bytes) =>
      if !n.left.h.upstreamClosed {
        WriteKeepsSending(n.left, n.right, n.toLeft, n.toRight, bytes);
        WriteKeepsReceiving(n.left, n.right, n.toLeft, n.toRight, bytes);
      }
    case Reads(_, size) =>
      ReadKeepsSending(n.left, n.right, n.toLeft, n.toRight, size);
      ReadKeepsReceiving(n.left, n.right, n.toLeft, n.toRight, size);
  }

  /** Every action of either side keeps the invariant. */
  lemma ActKeepsInv(n: Net, a: Action)
    requires Inv(n) && Can(n, a)
    ensures Inv(Act(n, a))
  {
    ActLeftKeepsInv(if a.left then n else n.Swap(), a);
  }

  lemma {:induction false} RunKeepsInv(n: Net, actions: seq<Action>)
    requires Inv(n) && Runs(n, actions)
    ensures Inv(After(n, actions))
    decreases |actions|
  {
    if actions != [] {
      ActKeepsInv(n, actions[0]);
      RunKeepsInv(Act(n, actions[0]), actions[1..]);
    }
  }

  // ---------------------------------------------------------------- safety

  ghost predicate Reachable(n: Net) {
    exists session: Numeric, actions: seq<Action> :: Runs(Start(session), actions) && After(Start(session), actions) == n
  }

  lemma ReachableInv(n: Net)
    requires Reachable(n)
    ensures Inv(n)
  {
    var session: Numeric, actions: seq<Action> :| Runs(Start(session), actions) && After(Start(session), actions) == n;
    StartInv(session);
    RunKeepsInv(Start(session), actions);
  }

  /** `y` has delivered exactly the first bytes `x` wrote, as many as its position says. */
  predicate StreamSafe(x: Side, y: Side) {
    && x.h.senderOffset <= y.h.receiverPosition <= x.h.senderLength <= |x.written|
    && y.Delivered() == x.written[..y.h.receiverPosition]
    && x.h.upstream == x.written[x.h.senderOffset..]
  }

  /** Both byte streams are safe in every reachable state, shutdowns and expiries included. */
  lemma StreamSafety(n: Net)
    requires Reachable(n)
    ensures StreamSafe(n.left, n.right) && StreamSafe(n.right, n.left)
    ensures n.right.read <= n.left.written && n.left.read <= n.right.written
  {
    hide Reachable, Positions, Acks, Offers, OneSession, OptionOk, Held, StreamSafe;
    ReachableInv(n);
    PositionsSafe(n.left, n.right);
    PositionsSafe(n.right, n.left);
  }

  lemma PositionsSafe(x: Side, y: Side)
    requires Positions(x, y)
    ensures StreamSafe(x, y) && y.read <= x.written
  {
    assert y.read <= y.Delivered() <= x.written;
  }

  /** The network with the chosen end on the left. */
  function End(n: Net, left: bool): Net {
    if left then n else n.Swap()
  }

  /** A completed flush on an open stream means that the peer holds every byte written. */
  lemma FlushedIsDelivered(n: Net, left: bool)
    requires Reachable(n)
    requires var m := End(n, left); FlushReady(m.left.h) && !m.left.h.upstreamClosed
    ensures var m := End(n, left); m.right.Delivered() == m.left.written
  {
    ReachableInv(n);
    var m := End(n, left);
    assert m.left.h.senderOffset == |m.left.written|;
  }

  /**
    Stop and wait: what can arrive never shows a gap, never overlaps in part, never acknowledges a part of the
    outstanding data and never more than was sent, and the buffer always holds what an acknowledgement releases.
   */
  lemma StopAndWait(n: Net, left: bool, p: Packet)
    requires Reachable(n) && p in End(n, left).toLeft
    ensures var h := End(n, left).left.h;
      && p.session == h.session
      && (p.Ack? ==> p.length <= h.senderOffset || p.length == h.senderLength)
      && (p.Data? ==> p.pos == h.receiverPosition || p.pos + |p.data| <= h.receiverPosition)
      && h.senderLength - h.senderOffset <= |h.upstream|
  {
    ReachableInv(n);
    var m := End(n, left);
    assert AckOk(m.left, m.right, p);
    assert !p.Ack? ==> OfferOk(m.right, p);
  }

  /** Every packet in flight fits a datagram and is read back as itself, for a session below 2^31. */
  lemma PacketsSurviveTheWire(n: Net, left: bool, p: Packet)
    requires Reachable(n) && p in End(n, left).toLeft && n.left.h.session < NUMERIC_LIMIT
    ensures |Print(p)| < MAX_PACKET && ParsePacket(Print(p)) == Ok(p)
  {
    ReachableInv(n);
    var m := End(n, left);
    assert AckOk(m.left, m.right, p);
    assert !p.Ack? ==> OfferOk(m.right, p);
    PacketRoundTrip(p);
  }

  /** The two ends are interchangeable, so each statement about the left side holds of the right one. */
  lemma {:induction false} SwapRuns(n: Net, actions: seq<Action>)
    requires Runs(n, actions)
    ensures Runs(n.Swap(), Mirror(actions)) && After(n.Swap(), Mirror(actions)) == After(n, actions).Swap()
    decreases |actions|
  {
    if actions != [] {
      var a := MirrorOne(actions[0]);
      assert Can(n.Swap(), a) && Act(n.Swap(), a) == Act(n, actions[0]).Swap();
      SwapRuns(Act(n, actions[0]), actions[1..]);
      assert Mirror(actions)[1..] == Mirror(actions[1..]);
    }
  }

  function MirrorOne(a: Action): Action {
    match a
    case Turns(left, e) => Turns(!left, e)
    case Writes(left, bytes) => Writes(!left, bytes)
    case Reads(left, size) => Reads(!left, size)
  }

  function Mirror(actions: seq<Action>): seq<Action> {
    seq(|actions|, i requires 0 <= i < |actions| => MirrorOne(actions[i]))
  }
}
