/** The speed daemon's dispatchers, who receive the tickets of their roads, and its table of cameras. */
module SpeedDispatch {
  import opened Wrappers
  import opened ByteTypes
  import opened SpeedController

  // ----------------------------------------------------------- dispatchers

  type Id = nat

  datatype Dispatcher = Dispatcher(id: Id, roads: set<U16>)

  /** A ticket put into a dispatcher's channel. */
  datatype Sent = Sent(id: Id, ticket: Ticket)

  /** The first dispatcher that covers the road. */
  function Covering(ds: seq<Dispatcher>, road: U16): (r: Option<Dispatcher>)
    ensures r.Some? ==> r.value in ds && road in r.value.roads
    ensures r.None? ==> forall d <- ds :: road !in d.roads
  {
    if ds == [] then None
    else if road in ds[0].roads then Some(ds[0])
    else Covering(ds[1..], road)
  }

  /** The tickets that find a dispatcher, in order, and those that do not. */
  function Delivered(ds: seq<Dispatcher>, tickets: seq<Ticket>): seq<Sent> {
    if tickets == [] then []
    else
      var t := tickets[|tickets| - 1];
      var d := Covering(ds, t.road);
      Delivered(ds, tickets[..|tickets| - 1]) + if d.Some? then [Sent(d.value.id, t)] else []
  }

  function Kept(ds: seq<Dispatcher>, tickets: seq<Ticket>): seq<Ticket> {
    if tickets == [] then []
    else
      var t := tickets[|tickets| - 1];
      Kept(ds, tickets[..|tickets| - 1]) + if Covering(ds, t.road).Some? then [] else [t]
  }

  function Remaining(ds: seq<Dispatcher>, id: Id): seq<Dispatcher> {
    if ds == [] then []
    else (if ds[0].id != id then [ds[0]] else []) + Remaining(ds[1..], id)
  }

  datatype Event = Add(d: Dispatcher) | Remove(id: Id) | Issue(tickets: seq<Ticket>)

  datatype Office = Office(dispatchers: seq<Dispatcher>, pending: seq<Ticket>, sent: seq<Sent>)

  function Deliver(o: Office): Office {
    Office(o.dispatchers, Kept(o.dispatchers, o.pending), o.sent + Delivered(o.dispatchers, o.pending))
  }

  function After(o: Office, e: Event): Office {
    match e
    case Add(d) => Deliver(o.(dispatchers := o.dispatchers + [d]))
    case Remove(id) => o.(dispatchers := Remaining(o.dispatchers, id))
    case Issue(tickets) => Deliver(o.(pending := o.pending + tickets))
  }

  class Dispatchers {
    var dispatchers: seq<Dispatcher>
    var pending: seq<Ticket>
    /** Everything put into a channel so far. */
    var sent: seq<Sent>

    ghost function Snapshot(): Office
      reads this
    {
      Office(dispatchers, pending, sent)
    }

    constructor ()
      ensures Snapshot() == Office([], [], [])
    {
      dispatchers, pending, sent := [], [], [];
    }

    method AddDispatcher(d: Dispatcher)
      modifies this
      ensures Snapshot() == After(old(Snapshot()), Add(d))
    {
      dispatchers := dispatchers + [d];
      SendPending();
    }

    method RemoveDispatcher(id: Id)
      modifies this`dispatchers
      ensures Snapshot() == After(old(Snapshot()), Remove(id))
    {
      var kept: seq<Dispatcher>, i := [], 0;
      assert dispatchers[0..] == dispatchers;
      while i < |dispatchers|
        invariant 0 <= i <= |dispatchers|
        invariant kept + Remaining(dispatchers[i..], id) == Remaining(dispatchers, id)
      {
        assert dispatchers[i..][1..] == dispatchers[i + 1..];
        if dispatchers[i].id != id {
          kept := kept + [dispatchers[i]];
        }
        i := i + 1;
      }
      dispatchers := kept;
    }

    method SendTickets(tickets: seq<Ticket>)
      modifies this`pending, this`sent
      ensures Snapshot() == After(old(Snapshot()), Issue(tickets))
    {
      pending := pending + tickets;
      SendPending();
    }

    method SendPending()
      modifies this`pending, this`sent
      ensures Snapshot() == Deliver(old(Snapshot()))
    {
      var kept: seq<Ticket> := [];
      for i := 0 to |pending|
        invariant pending == old(pending)
        invariant sent == old(sent) + Delivered(dispatchers, pending[..i])
        invariant kept == Kept(dispatchers, pending[..i])
      {
        var t := pending[i];
        assert pending[..i + 1][..i] == pending[..i];
        var d := Covering(dispatchers, t.road);
        if d.Some? {
          sent := sent + [Sent(d.value.id, t)];
        } else {
          kept := kept + [t];
        }
      }
      assert pending[..|pending|] == pending;
      pending := kept;
    }
  }

  // ------------------------------------------------------------ whole runs

  function Run(events: seq<Event>): Office {
    if events == [] then Office([], [], []) else After(Run(events[..|events| - 1]), events[|events| - 1])
  }

  /** All tickets issued, in order. */
  function IssuedIn(events: seq<Event>): seq<Ticket> {
    if events == [] then []
    else
      IssuedIn(events[..|events| - 1])
      + match events[|events| - 1] case Issue(tickets) => tickets case _ => []
  }

  function OfRoad(tickets: seq<Ticket>, road: U16): seq<Ticket> {
    if tickets == [] then []
    else OfRoad(tickets[..|tickets| - 1], road) + if tickets[|tickets| - 1].road == road then [tickets[|tickets| - 1]] else []
  }

  function TicketsOf(sent: seq<Sent>): (r: seq<Ticket>)
    ensures |r| == |sent| && forall i :: 0 <= i < |r| ==> r[i] == sent[i].ticket
  {
    seq(|sent|, i requires 0 <= i < |sent| => sent[i].ticket)
  }

  lemma {:induction false} OfRoadAppend(a: seq<Ticket>, b: seq<Ticket>, road: U16)
    ensures OfRoad(a + b, road) == OfRoad(a, road) + OfRoad(b, road)
  {
    if b == [] {
      assert a + b == a;
    } else {
      assert (a + b)[..|a + b| - 1] == a + b[..|b| - 1];
      OfRoadAppend(a, b[..|b| - 1], road);
    }
  }

  lemma TicketsOfAppend(a: seq<Sent>, b: seq<Sent>)
    ensures TicketsOf(a + b) == TicketsOf(a) + TicketsOf(b)
  {
  }

  /** On one road, either all tickets are delivered or all are kept. */
  lemma {:induction false} DeliveredOrKept(ds: seq<Dispatcher>, tickets: seq<Ticket>, road: U16)
    ensures if Covering(ds, road).Some?
            then OfRoad(TicketsOf(Delivered(ds, tickets)), road) == OfRoad(tickets, road) && OfRoad(Kept(ds, tickets), road) == []
            else OfRoad(TicketsOf(Delivered(ds, tickets)), road) == [] && OfRoad(Kept(ds, tickets), road) == OfRoad(tickets, road)
    decreases |tickets|
  {
    hide Covering, OfRoad, TicketsOf;
    if tickets == [] {
      assert TicketsOf([]) == [];
      NothingIssued(road);
    } else {
      var init, t := tickets[..|tickets| - 1], tickets[|tickets| - 1];
      DeliveredOrKept(ds, init, road);
      assert tickets == init + [t];
      OneTicket(init, t, road);
      OneTicket(Kept(ds, init), t, road);
      SentOne(Delivered(ds, init), Covering(ds, t.road), t, road);
      assert Kept(ds, init) + [] == Kept(ds, init);
    }
  }

  lemma SentOne(sent: seq<Sent>, d: Option<Dispatcher>, t: Ticket, road: U16)
    ensures OfRoad(TicketsOf(sent + if d.Some? then [Sent(d.value.id, t)] else []), road) ==
            OfRoad(TicketsOf(sent), road) + if d.Some? && t.road == road then [t] else []
  {
    hide OfRoad;
    if d.Some? {
      assert TicketsOf(sent + [Sent(d.value.id, t)]) == TicketsOf(sent) + [t];
      OneTicket(TicketsOf(sent), t, road);
    } else {
      assert sent + [] == sent;
    }
  }

  lemma OneTicket(tickets: seq<Ticket>, t: Ticket, road: U16)
    ensures OfRoad(tickets + [t], road) == OfRoad(tickets, road) + if t.road == road then [t] else []
  {
    assert (tickets + [t])[..|tickets|] == tickets;
  }

  lemma DeliverConserves(o: Office, road: U16)
    ensures var o' := Deliver(o);
      OfRoad(TicketsOf(o'.sent), road) + OfRoad(o'.pending, road) == OfRoad(TicketsOf(o.sent), road) + OfRoad(o.pending, road)
  {
    hide Covering, OfRoad, Delivered, Kept, TicketsOf;
    DeliveredOrKept(o.dispatchers, o.pending, road);
    TicketsOfAppend(o.sent, Delivered(o.dispatchers, o.pending));
    OfRoadAppend(TicketsOf(o.sent), TicketsOf(Delivered(o.dispatchers, o.pending)), road);
  }

  /**
    On every road, the tickets sent and then those pending are the tickets issued, in the order of issue: none is
    lost, none is sent twice, none overtakes another.
   */
  lemma {:induction false} TicketsConserved(events: seq<Event>, road: U16)
    ensures var o := Run(events);
      OfRoad(TicketsOf(o.sent), road) + OfRoad(o.pending, road) == OfRoad(IssuedIn(events), road)
  {
    hide OfRoad, Deliver, TicketsOf;
    if events == [] {
      NothingIssued(road);
    } else {
      var init, e := events[..|events| - 1], events[|events| - 1];
      var o := Run(init);
      TicketsConserved(init, road);
      match e
      case Add(d) =>
        DeliverConserves(o.(dispatchers := o.dispatchers + [d]), road);
        assert IssuedIn(init) + [] == IssuedIn(init);
      case Remove(_) =>
        assert IssuedIn(init) + [] == IssuedIn(init);
      case Issue(tickets) =>
        DeliverConserves(o.(pending := o.pending + tickets), road);
        OfRoadAppend(o.pending, tickets, road);
        OfRoadAppend(IssuedIn(init), tickets, road);
        var s, p, t := OfRoad(TicketsOf(o.sent), road), OfRoad(o.pending, road), OfRoad(tickets, road);
        assert s + (p + t) == (s + p) + t;
    }
  }

  lemma NothingIssued(road: U16)
    ensures OfRoad(TicketsOf([]), road) == [] && OfRoad([], road) == []
  {
    assert TicketsOf([]) == [];
  }

  lemma {:induction false} FirstCovers(ds: seq<Dispatcher>, road: U16) returns (i: nat)
    requires Covering(ds, road).Some?
    ensures i < |ds| && ds[i] == Covering(ds, road).value && forall j :: 0 <= j < i ==> road !in ds[j].roads
  {
    i := 0;
    if road !in ds[0].roads {
      i := FirstCovers(ds[1..], road);
      i := i + 1;
    }
  }

  /** The ticket went to the dispatcher of its road that has been connected longest. */
  ghost predicate SentToFirst(ds: seq<Dispatcher>, s: Sent) {
    exists i :: 0 <= i < |ds| && ds[i].id == s.id && s.ticket.road in ds[i].roads
      && forall j :: 0 <= j < i ==> s.ticket.road !in ds[j].roads
  }

  lemma {:induction false} KeptUncovered(ds: seq<Dispatcher>, tickets: seq<Ticket>)
    ensures forall t <- Kept(ds, tickets) :: Covering(ds, t.road).None?
    ensures forall s <- Delivered(ds, tickets) :: SentToFirst(ds, s)
  {
    hide Covering;
    if tickets != [] {
      KeptUncovered(ds, tickets[..|tickets| - 1]);
      var t := tickets[|tickets| - 1];
      if Covering(ds, t.road).Some? {
        var i := FirstCovers(ds, t.road);
        assert SentToFirst(ds, Sent(ds[i].id, t));
      }
    }
  }

  lemma {:induction false} RemainingAreThere(ds: seq<Dispatcher>, id: Id)
    ensures forall d :: d in Remaining(ds, id) <==> d in ds && d.id != id
  {
    if ds != [] {
      RemainingAreThere(ds[1..], id);
      assert ds == [ds[0]] + ds[1..];
    }
  }

  predicate RemovedLater(events: seq<Event>, i: nat, id: Id) {
    exists j :: i <= j < |events| && events[j] == Remove(id)
  }

  /** The dispatchers that came from event `i` on and have not been removed since, in the order in which they came. */
  ghost function Staying(events: seq<Event>, i: nat): seq<Dispatcher>
    requires i <= |events|
    decreases |events| - i
  {
    if i == |events| then [] else StaysFrom(events, i) + Staying(events, i + 1)
  }

  ghost function StaysFrom(events: seq<Event>, i: nat): seq<Dispatcher>
    requires i < |events|
  {
    if events[i].Add? && !RemovedLater(events, i + 1, events[i].d.id) then [events[i].d] else []
  }

  lemma {:induction false} RemainingAppend(a: seq<Dispatcher>, b: seq<Dispatcher>, id: Id)
    ensures Remaining(a + b, id) == Remaining(a, id) + Remaining(b, id)
  {
    if a == [] {
      assert a + b == b;
    } else {
      assert (a + b)[1..] == a[1..] + b;
      RemainingAppend(a[1..], b, id);
    }
  }

  lemma RemovedOrNot(events: seq<Event>, e: Event, i: nat, id: Id)
    requires i <= |events|
    ensures RemovedLater(events + [e], i, id) <==> RemovedLater(events, i, id) || e == Remove(id)
  {
    var all := events + [e];
    if j :| i <= j < |events| && events[j] == Remove(id) {
      assert all[j] == Remove(id);
    }
    if e == Remove(id) {
      assert all[|events|] == Remove(id);
    }
  }

  /** Who is left of these dispatchers after one more event. */
  function Left(ds: seq<Dispatcher>, e: Event): seq<Dispatcher> {
    if e.Remove? then Remaining(ds, e.id) else ds
  }

  lemma StaysFromAfter(events: seq<Event>, e: Event, i: nat)
    requires i < |events|
    ensures StaysFrom(events + [e], i) == Left(StaysFrom(events, i), e)
  {
    hide RemovedLater;
    if events[i].Add? {
      RemovedOrNot(events, e, i + 1, events[i].d.id);
      if e.Remove? {
        RemainingOne(events[i].d, e.id);
      }
    }
  }

  lemma RemainingOne(d: Dispatcher, id: Id)
    ensures Remaining([d], id) == if d.id == id then [] else [d]
  {
    assert [d][1..] == [];
  }

  lemma ComesLast(events: seq<Event>, e: Event)
    ensures StaysFrom(events + [e], |events|) == if e.Add? then [e.d] else []
  {
  }

  lemma LeftAppend(a: seq<Dispatcher>, b: seq<Dispatcher>, e: Event)
    ensures Left(a + b, e) == Left(a, e) + Left(b, e)
  {
    if e.Remove? {
      RemainingAppend(a, b, e.id);
    }
  }

  lemma {:induction false} StayingAfter(events: seq<Event>, e: Event, i: nat)
    requires i <= |events|
    ensures Staying(events + [e], i) == Left(Staying(events, i), e) + if e.Add? then [e.d] else []
    decreases |events| - i
  {
    hide StaysFrom, Left;
    var all := events + [e];
    if i == |events| {
      ComesLast(events, e);
      NobodyLeft(e);
      assert Staying(all, i + 1) == [];
    } else {
      StayingAfter(events, e, i + 1);
      StaysFromAfter(events, e, i);
      LeftAppend(StaysFrom(events, i), Staying(events, i + 1), e);
    }
  }

  lemma NobodyLeft(e: Event)
    ensures Left([], e) == []
  {
  }

  /** Connected are exactly the dispatchers that came and have not been removed since, those who came first in front. */
  lemma {:induction false} ConnectedInOrder(events: seq<Event>)
    ensures Run(events).dispatchers == Staying(events, 0)
  {
    hide Delivered, Kept, Remaining, RemovedLater;
    if events != [] {
      var init, e := events[..|events| - 1], events[|events| - 1];
      ConnectedInOrder(init);
      StayingAfter(init, e, 0);
      assert init + [e] == events;
    }
  }

  /** No ticket waits while a dispatcher of its road is connected. */
  lemma {:induction false} NoneWaitsInVain(events: seq<Event>)
    ensures var o := Run(events); (forall t <- o.pending, d <- o.dispatchers :: t.road !in d.roads)
  {
    hide Covering;
    if events != [] {
      var init, e := events[..|events| - 1], events[|events| - 1];
      var o := Run(init);
      NoneWaitsInVain(init);
      match e
      case Add(d) => KeptUncovered(o.dispatchers + [d], o.pending);
      case Remove(id) => RemainingAreThere(o.dispatchers, id);
      case Issue(tickets) => KeptUncovered(o.dispatchers, o.pending + tickets);
    }
  }

  /** Of what an event sends, each ticket goes to the dispatcher of its road that has been connected longest. */
  lemma SentToTheRoad(events: seq<Event>, e: Event)
    ensures var o, o' := Run(events), Run(events + [e]);
      && o.sent <= o'.sent
      && (forall s <- o'.sent[|o.sent|..] :: SentToFirst(o'.dispatchers, s))
  {
    hide Delivered, Kept, SentToFirst;
    var o := Run(events);
    assert (events + [e])[..|events|] == events;
    match e
    case Add(d) => KeptUncovered(o.dispatchers + [d], o.pending);
    case Remove(_) =>
    case Issue(tickets) => KeptUncovered(o.dispatchers, o.pending + tickets);
  }

  // --------------------------------------------------------------- cameras

  datatype Camera = Camera(road: U16, limit: U16)

  datatype Entry = Entry(limit: U16, count: nat)

  function OnRoad(cameras: seq<Camera>, road: U16): nat {
    if cameras == [] then 0
    else OnRoad(cameras[..|cameras| - 1], road) + if cameras[|cameras| - 1].road == road then 1 else 0
  }

  /** The table holds, for each road that has cameras, their number and the one limit they agree on. */
  ghost predicate TableFor(table: map<U16, Entry>, cameras: seq<Camera>) {
    && (forall road :: road in table <==> OnRoad(cameras, road) > 0)
    && (forall road <- table :: table[road].count == OnRoad(cameras, road))
    && (forall c <- cameras :: c.road in table && table[c.road].limit == c.limit)
  }

  lemma {:induction false} OnRoadOne(cameras: seq<Camera>, i: nat)
    requires i < |cameras|
    ensures OnRoad(cameras, cameras[i].road) > 0
    ensures forall road: U16 :: (OnRoad(cameras, road) ==
              OnRoad(cameras[..i] + cameras[i + 1..], road) + if cameras[i].road == road then 1 else 0)
    decreases |cameras|
  {
    var init, last := cameras[..|cameras| - 1], cameras[|cameras| - 1];
    if i == |cameras| - 1 {
      assert cameras[..i] + cameras[i + 1..] == init;
    } else {
      OnRoadOne(init, i);
      assert (cameras[..i] + cameras[i + 1..])[..|cameras| - 2] == init[..i] + init[i + 1..];
    }
  }

  lemma {:induction false} OnRoadSome(cameras: seq<Camera>, road: U16)
    requires OnRoad(cameras, road) > 0
    ensures exists c <- cameras :: c.road == road
  {
    var init, last := cameras[..|cameras| - 1], cameras[|cameras| - 1];
    assert cameras == init + [last];
    if last.road != road {
      OnRoadSome(init, road);
    }
  }

  class Cameras {
    var table: map<U16, Entry>
    /** The cameras that hold a guard. */
    ghost var guards: seq<Camera>

    ghost predicate Valid()
      reads this
    {
      TableFor(table, guards)
    }

    constructor ()
      ensures Valid() && guards == []
    {
      table, guards := map[], [];
    }

    /** A camera is let in exactly if no camera of its road, connected now, has another limit. */
    method Enter(c: Camera) returns (ok: bool)
      requires Valid()
      modifies this
      ensures Valid()
      ensures ok <==> forall g <- old(guards) :: g.road == c.road ==> g.limit == c.limit
      ensures guards == if ok then old(guards) + [c] else old(guards)
    {
      var entry := if c.road in table then table[c.road] else Entry(c.limit, 0);
      if c.road in table {
        OnRoadSome(guards, c.road);
      } else {
        assert forall g <- guards :: g.road != c.road;
      }
      if entry.limit != c.limit {
        return false;
      }
      table := table[c.road := entry.(count := entry.count + 1)];
      guards := guards + [c];
      assert guards[..|guards| - 1] == old(guards);
      ok := true;
    }

    /** The guard of a camera that has entered is dropped. */
    method Drop(ghost i: nat, road: U16)
      requires Valid() && i < |guards| && guards[i].road == road
      modifies this
      ensures Valid() && guards == old(guards)[..i] + old(guards)[i + 1..]
    {
      OnRoadOne(guards, i);
      ghost var rest := guards[..i] + guards[i + 1..];
      assert forall c <- rest :: c in guards;
      forall c <- rest ensures OnRoad(rest, c.road) > 0 {
        var k :| 0 <= k < |rest| && rest[k] == c;
        OnRoadOne(rest, k);
      }
      if road in table {
        var entry := table[road];
        table := if entry.count == 1 then table - {road} else table[road := entry.(count := entry.count - 1)];
      }
      guards := rest;
    }
  }
}
