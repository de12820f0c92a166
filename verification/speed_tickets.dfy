/** Whole runs of the speed daemon's controller, for any order in which its hash sets are walked. */
module SpeedTickets {
  import opened ByteTypes
  import opened Seqs
  import opened SpeedController

  // ------------------------------------------------------------ one signal

  type Key = (Plate, Day)

  function DayOf(time: U32): Day {
    time / UNIX_DAY
  }

  /** The days of a ticket, from the first sighting to the last. */
  function Days(t: Ticket): set<Key> {
    set d | DayOf(t.first.time) <= d <= DayOf(t.last.time) :: (t.plate, d)
  }

  function TicketFor(s: Sighting, o: Obs): Ticket {
    if s.obs.time > o.time then Ticket(s.plate, s.road, o, s.obs, Speed(s.obs, o))
    else Ticket(s.plate, s.road, s.obs, o, Speed(s.obs, o))
  }

  /** The days that have a ticket, and the tickets made. */
  datatype Issued = Issued(days: set<Key>, tickets: seq<Ticket>)

  function Consider(i: Issued, s: Sighting, o: Obs): Issued {
    var t := TicketFor(s, o);
    if Fast(s.limit, s.obs, o) && Days(t) !! i.days then Issued(i.days + Days(t), i.tickets + [t]) else i
  }

  /** The tickets of a sighting against earlier ones, taken in this order. */
  function Issue(days: set<Key>, s: Sighting, order: seq<Obs>): Issued {
    if order == [] then Issued(days, []) else Consider(Issue(days, s, order[..|order| - 1]), s, order[|order| - 1])
  }

  datatype State = State(observations: map<(Plate, U16), set<Obs>>, days: set<Key>)

  function Seen(st: State, plate: Plate, road: U16): set<Obs> {
    if (plate, road) in st.observations then st.observations[(plate, road)] else {}
  }

  function Signalled(st: State, s: Sighting, order: seq<Obs>): (State, seq<Ticket>) {
    var seen := Seen(st, s.plate, s.road);
    if s.obs in seen then (st, [])
    else
      var i := Issue(st.days, s, order);
      (State(st.observations[(s.plate, s.road) := seen + {s.obs}], i.days), i.tickets)
  }

  /** A sequence that walks a set. */
  ghost predicate Walks(order: seq<Obs>, seen: set<Obs>) {
    Distinct(order) && forall o :: o in order <==> o in seen
  }

  class Controller {
    var observations: map<(Plate, U16), set<Obs>>
    var days: set<Key>

    ghost function Snapshot(): State
      reads this
    {
      State(observations, days)
    }

    constructor ()
      ensures Snapshot() == State(map[], {})
    {
      observations, days := map[], {};
    }

    method AllFree(plate: Plate, low: Day, high: Day) returns (free: bool)
      ensures free <==> forall d :: low <= d <= high ==> (plate, d) !in days
    {
      var d := low;
      while d <= high
        invariant low <= d
        invariant forall e :: low <= e < d ==> (plate, e) !in days
        decreases high + 1 - d
      {
        if (plate, d) in days {
          return false;
        }
        d := d + 1;
      }
      free := true;
    }

    method Mark(plate: Plate, low: Day, high: Day)
      modifies this`days
      ensures days == old(days) + set d | low <= d <= high :: (plate, d)
    {
      var d := low;
      while d <= high
        invariant low <= d && (d == low || d <= high + 1)
        invariant days == old(days) + set e | low <= e < d :: (plate, e)
        decreases high + 1 - d
      {
        days := days + {(plate, d)};
        d := d + 1;
      }
    }

    /** A sighting against all earlier ones of the car on the road, in whatever order the set yields them. */
    method Signal(s: Sighting) returns (tickets: seq<Ticket>, ghost order: seq<Obs>)
      modifies this
      ensures Walks(order, Seen(old(Snapshot()), s.plate, s.road))
      ensures (Snapshot(), tickets) == Signalled(old(Snapshot()), s, order)
    {
      hide Speed, Walks, Days, DayOf;
      var hundredths := s.limit as int * 100 % 0x1_0000;
      var key := (s.plate, s.road);
      var seen: set<Obs> := if key in observations then observations[key] else {};
      tickets, order := [], [];
      if s.obs in seen {
        order := Walk(seen);
        return;
      }
      WalkStarts(seen);
      var rest := seen;
      while rest != {}
        invariant rest <= seen && Walks(order, seen - rest) && observations == old(observations)
        invariant Issue(old(days), s, order) == Issued(days, tickets)
      {
        var o :| o in rest;
        WalkGoesOn(order, seen, rest, o);
        rest := rest - {o};
        assert (order + [o])[..|order|] == order;
        order := order + [o];
        var speed := Speed(s.obs, o);
        if speed > hundredths && speed - hundredths >= 50 {
          var (first, last) := if s.obs.time > o.time then (o, s.obs) else (s.obs, o);
          var t := Ticket(s.plate, s.road, first, last, speed);
          var insert := AllFree(s.plate, DayOf(first.time), DayOf(last.time));
          FreeIsDisjoint(t, days);
          if insert {
            Mark(s.plate, DayOf(first.time), DayOf(last.time));
            tickets := tickets + [t];
          }
        }
      }
      assert seen - rest == seen;
      observations := observations[key := seen + {s.obs}];
    }
  }

  lemma WalkStarts(seen: set<Obs>)
    ensures Walks([], seen - seen)
  {
  }

  lemma WalkGoesOn(order: seq<Obs>, seen: set<Obs>, rest: set<Obs>, o: Obs)
    requires Walks(order, seen - rest) && o in rest && rest <= seen
    ensures Walks(order + [o], seen - (rest - {o}))
  {
    AppendDistinct(order, o);
  }

  lemma FreeIsDisjoint(t: Ticket, days: set<Key>)
    ensures Days(t) !! days <==> forall d :: DayOf(t.first.time) <= d <= DayOf(t.last.time) ==> (t.plate, d) !in days
    ensures Days(t) == set d | DayOf(t.first.time) <= d <= DayOf(t.last.time) :: (t.plate, d)
  {
    forall d | DayOf(t.first.time) <= d <= DayOf(t.last.time)
      ensures (t.plate, d) in Days(t)
    {
    }
  }

  lemma {:induction false} Walk(seen: set<Obs>) returns (order: seq<Obs>)
    ensures Walks(order, seen)
  {
    order := [];
    if seen != {} {
      var o :| o in seen;
      order := Walk(seen - {o});
      AppendDistinct(order, o);
      order := order + [o];
    }
  }

  // ------------------------------------------------------------ whole runs

  datatype Step = Step(s: Sighting, order: seq<Obs>)

  /** The state after these sightings, and all tickets made. */
  function Run(steps: seq<Step>): (State, seq<Ticket>) {
    if steps == [] then (State(map[], {}), [])
    else
      var (st, tickets) := Run(steps[..|steps| - 1]);
      var last := steps[|steps| - 1];
      var (st', more) := Signalled(st, last.s, last.order);
      (st', tickets + more)
  }

  /** Every sighting was compared with the earlier ones in some order, and every road has one limit. */
  ghost predicate Proper(steps: seq<Step>, limits: U16 -> U16) {
    steps == [] ||
    var init, last := steps[..|steps| - 1], steps[|steps| - 1];
    && Proper(init, limits)
    && last.s.limit == limits(last.s.road)
    && Walks(last.order, Seen(Run(init).0, last.s.plate, last.s.road))
  }

  /** The car was seen so. */
  ghost predicate Sighted(steps: seq<Step>, plate: Plate, road: U16, o: Obs) {
    exists x <- steps :: x.s.plate == plate && x.s.road == road && x.s.obs == o
  }

  ghost predicate Covered(days: set<Key>, tickets: seq<Ticket>) {
    forall k: Key :: k in days <==> exists t <- tickets :: k in Days(t)
  }

  /** No day of a car is in two tickets. */
  ghost predicate OnePerDay(tickets: seq<Ticket>) {
    forall i, j :: 0 <= i < j < |tickets| ==> Days(tickets[i]) !! Days(tickets[j])
  }

  /** The ticket is for two of these sightings, in time order, too fast for the limit. */
  ghost predicate Genuine(t: Ticket, seen: set<Obs>, limit: U16) {
    && t.first in seen && t.last in seen && t.first != t.last
    && t.first.time <= t.last.time
    && t.speed == Speed(t.first, t.last) && Fast(limit, t.first, t.last)
  }

  /** Some day from the one sighting to the other has a ticket. */
  ghost predicate Fined(days: set<Key>, plate: Plate, a: Obs, b: Obs) {
    exists d: Day :: (DayOf(a.time) <= d <= DayOf(b.time) || DayOf(b.time) <= d <= DayOf(a.time)) && (plate, d) in days
  }

  ghost predicate AllFined(days: set<Key>, plate: Plate, seen: set<Obs>, limit: U16) {
    forall a <- seen, b <- seen :: a != b && Fast(limit, a, b) ==> Fined(days, plate, a, b)
  }

  ghost predicate Inv(st: State, tickets: seq<Ticket>, limits: U16 -> U16) {
    && Covered(st.days, tickets)
    && OnePerDay(tickets)
    && (forall t <- tickets :: Genuine(t, Seen(st, t.plate, t.road), limits(t.road)))
    && (forall plate: Plate, road: U16 :: AllFined(st.days, plate, Seen(st, plate, road), limits(road)))
  }

  // ----------------------------------------------------- one signal keeps it

  lemma SpeedSymmetric(a: Obs, b: Obs)
    ensures Speed(a, b) == Speed(b, a)
  {
  }

  lemma FastSymmetric(limit: U16, a: Obs, b: Obs)
    ensures Fast(limit, a, b) == Fast(limit, b, a)
  {
    hide Speed;
    SpeedSymmetric(a, b);
  }

  /** After some of the earlier sightings have been considered. */
  ghost predicate Considered(days0: set<Key>, tickets0: seq<Ticket>, s: Sighting, order: seq<Obs>, i: Issued) {
    && days0 <= i.days
    && Covered(i.days, tickets0 + i.tickets)
    && OnePerDay(tickets0 + i.tickets)
    && (forall t <- i.tickets ::
          t.plate == s.plate && t.road == s.road
          && exists o <- order :: t == TicketFor(s, o) && Fast(s.limit, s.obs, o))
    && (forall o <- order :: Fast(s.limit, s.obs, o) ==> Fined(i.days, s.plate, s.obs, o))
  }

  lemma CoveredMore(days: set<Key>, tickets: seq<Ticket>, t: Ticket)
    requires Covered(days, tickets)
    ensures Covered(days + Days(t), tickets + [t])
    ensures Days(t) !! days && OnePerDay(tickets) ==> OnePerDay(tickets + [t])
  {
    hide Days;
    var more := tickets + [t];
    forall k: Key ensures k in days + Days(t) <==> exists u <- more :: k in Days(u) {
      if k in days {
        var u :| u in tickets && k in Days(u);
        assert u in more;
      } else if k in Days(t) {
        assert t in more;
      }
    }
    if Days(t) !! days && OnePerDay(tickets) {
      forall i, j | 0 <= i < j < |more| ensures Days(more[i]) !! Days(more[j]) {
        if j == |tickets| {
          assert forall k <- Days(more[i]) :: more[i] in tickets && k in days;
        }
      }
    }
  }

  /** Either the ticket's days are free, and now taken, or one of them was taken already. */
  lemma FinedNow(days: set<Key>, s: Sighting, o: Obs)
    ensures Fined(days + Days(TicketFor(s, o)), s.plate, s.obs, o)
    ensures !(Days(TicketFor(s, o)) !! days) ==> Fined(days, s.plate, s.obs, o)
  {
    hide Speed;
    var t := TicketFor(s, o);
    assert (s.plate, DayOf(t.first.time)) in Days(t);
    if !(Days(t) !! days) {
      var k :| k in Days(t) && k in days;
      assert (s.plate, k.1) in days;
    }
  }

  lemma FinedGrows(days: set<Key>, more: set<Key>, plate: Plate, a: Obs, b: Obs)
    requires Fined(days, plate, a, b) && days <= more
    ensures Fined(more, plate, a, b)
  {
  }

  lemma ConsiderMore(days0: set<Key>, tickets0: seq<Ticket>, s: Sighting, order: seq<Obs>, i: Issued, o: Obs)
    requires Considered(days0, tickets0, s, order, i)
    ensures Considered(days0, tickets0, s, order + [o], Consider(i, s, o))
  {
    hide Fast, Days, Covered, OnePerDay, Fined, TicketFor;
    var t, i' := TicketFor(s, o), Consider(i, s, o);
    TicketNames(s, o);
    CoveredMore(i.days, tickets0 + i.tickets, t);
    FinedNow(i.days, s, o);
    assert tickets0 + i.tickets + [t] == tickets0 + (i.tickets + [t]);
    forall p <- order + [o] | Fast(s.limit, s.obs, p) ensures Fined(i'.days, s.plate, s.obs, p) {
      if p in order {
        FinedGrows(i.days, i'.days, s.plate, s.obs, p);
      }
    }
    forall u <- i'.tickets ensures exists p <- order + [o] :: u == TicketFor(s, p) && Fast(s.limit, s.obs, p) {
      if u in i.tickets {
        var p :| p in order && u == TicketFor(s, p) && Fast(s.limit, s.obs, p);
        assert p in order + [o];
      } else {
        assert o in order + [o];
      }
    }
  }

  lemma TicketNames(s: Sighting, o: Obs)
    ensures TicketFor(s, o).plate == s.plate && TicketFor(s, o).road == s.road
  {
    hide Speed;
  }

  lemma {:induction false} IssueConsiders(days: set<Key>, tickets: seq<Ticket>, s: Sighting, order: seq<Obs>)
    requires Covered(days, tickets) && OnePerDay(tickets)
    ensures Considered(days, tickets, s, order, Issue(days, s, order))
    decreases |order|
  {
    hide Covered, OnePerDay, Consider;
    if order == [] {
      assert tickets + [] == tickets;
    } else {
      var init, o := order[..|order| - 1], order[|order| - 1];
      IssueConsiders(days, tickets, s, init);
      hide Considered;
      assert order == init + [o];
      ConsiderMore(days, tickets, s, init, Issue(days, s, init), o);
    }
  }

  lemma TicketGenuine(s: Sighting, o: Obs, seen: set<Obs>)
    requires Fast(s.limit, s.obs, o) && s.obs in seen && o in seen && o != s.obs
    ensures Genuine(TicketFor(s, o), seen, s.limit)
  {
    hide Speed;
    SpeedSymmetric(s.obs, o);
    FastSymmetric(s.limit, s.obs, o);
  }

  lemma SignalKeepsInv(st: State, tickets: seq<Ticket>, s: Sighting, order: seq<Obs>, limits: U16 -> U16)
    requires Inv(st, tickets, limits) && s.limit == limits(s.road) && Walks(order, Seen(st, s.plate, s.road))
    ensures var (st', more) := Signalled(st, s, order); Inv(st', tickets + more, limits)
  {
    hide Covered, OnePerDay, Fast, Days, Issue, Genuine, AllFined;
    var seen := Seen(st, s.plate, s.road);
    if s.obs in seen {
      assert tickets + [] == tickets;
      return;
    }
    IssueConsiders(st.days, tickets, s, order);
    var i := Issue(st.days, s, order);
    var st' := Signalled(st, s, order).0;
    var all := tickets + i.tickets;
    forall t <- all ensures Genuine(t, Seen(st', t.plate, t.road), limits(t.road)) {
      if t in i.tickets {
        NewGenuine(s, order, seen, i, t);
      } else {
        StaysGenuine(t, Seen(st, t.plate, t.road), Seen(st', t.plate, t.road), limits(t.road));
      }
    }
    forall plate: Plate, road: U16 ensures AllFined(st'.days, plate, Seen(st', plate, road), limits(road)) {
      if plate == s.plate && road == s.road {
        AllFinedMore(st.days, i.days, s, seen, order);
      } else {
        AllFinedGrows(st.days, i.days, plate, Seen(st, plate, road), limits(road));
      }
    }
  }

  lemma NewGenuine(s: Sighting, order: seq<Obs>, seen: set<Obs>, i: Issued, t: Ticket)
    requires t in i.tickets && Walks(order, seen) && s.obs !in seen
    requires exists o <- order :: t == TicketFor(s, o) && Fast(s.limit, s.obs, o)
    ensures Genuine(t, seen + {s.obs}, s.limit)
  {
    hide Fast, Genuine, TicketFor;
    var o :| o in order && t == TicketFor(s, o) && Fast(s.limit, s.obs, o);
    TicketGenuine(s, o, seen + {s.obs});
  }

  lemma StaysGenuine(t: Ticket, seen: set<Obs>, more: set<Obs>, limit: U16)
    requires Genuine(t, seen, limit) && seen <= more
    ensures Genuine(t, more, limit)
  {
    hide Fast, Speed;
  }

  lemma AllFinedGrows(days: set<Key>, more: set<Key>, plate: Plate, seen: set<Obs>, limit: U16)
    requires AllFined(days, plate, seen, limit) && days <= more
    ensures AllFined(more, plate, seen, limit)
  {
    hide Fast, Fined;
    forall a <- seen, b <- seen | a != b && Fast(limit, a, b) ensures Fined(more, plate, a, b) {
      FinedGrows(days, more, plate, a, b);
    }
  }

  lemma FinedSymmetric(days: set<Key>, plate: Plate, a: Obs, b: Obs)
    requires Fined(days, plate, a, b)
    ensures Fined(days, plate, b, a)
  {
  }

  lemma AllFinedMore(days: set<Key>, more: set<Key>, s: Sighting, seen: set<Obs>, order: seq<Obs>)
    requires AllFined(days, s.plate, seen, s.limit) && days <= more && Walks(order, seen)
    requires forall o <- order :: Fast(s.limit, s.obs, o) ==> Fined(more, s.plate, s.obs, o)
    ensures AllFined(more, s.plate, seen + {s.obs}, s.limit)
  {
    hide Fast, Fined;
    forall a <- seen + {s.obs}, b <- seen + {s.obs} | a != b && Fast(s.limit, a, b)
      ensures Fined(more, s.plate, a, b)
    {
      FastSymmetric(s.limit, a, b);
      if a == s.obs {
        assert b in order;
      } else if b == s.obs {
        assert a in order;
        FinedSymmetric(more, s.plate, b, a);
      } else {
        FinedGrows(days, more, s.plate, a, b);
      }
    }
  }

  // ------------------------------------------------------------------ runs

  lemma {:induction false} RunKeepsInv(steps: seq<Step>, limits: U16 -> U16)
    requires Proper(steps, limits)
    ensures Inv(Run(steps).0, Run(steps).1, limits)
  {
    hide Inv, Signalled;
    if steps == [] {
      NothingYet(limits);
    } else {
      var init, last := steps[..|steps| - 1], steps[|steps| - 1];
      RunKeepsInv(init, limits);
      SignalKeepsInv(Run(init).0, Run(init).1, last.s, last.order, limits);
    }
  }

  lemma NothingYet(limits: U16 -> U16)
    ensures Inv(State(map[], {}), [], limits)
  {
  }

  lemma {:induction false} SeenIsSighted(steps: seq<Step>, plate: Plate, road: U16, o: Obs)
    ensures o in Seen(Run(steps).0, plate, road) <==> Sighted(steps, plate, road, o)
  {
    hide Issue;
    if steps != [] {
      var init, last := steps[..|steps| - 1], steps[|steps| - 1];
      SeenIsSighted(init, plate, road, o);
      assert steps == init + [last];
      assert Sighted(steps, plate, road, o) <==> Sighted(init, plate, road, o) || last.s == Sighting(plate, road, last.s.limit, o);
    }
  }

  /** Distances on a road that the arithmetic can take. */
  ghost predicate ShortRoads(steps: seq<Step>) {
    forall x <- steps, y <- steps :: x.s.road == y.s.road ==> Gap(x.s.obs.mile, y.s.obs.mile) <= TOP_MILES
  }

  /** At least half a mile per hour too fast on average, or in two places at once. */
  ghost predicate TooFast(limit: nat, a: Obs, b: Obs) {
    a.time == b.time || Offends(limit, Gap(a.mile, b.mile), Gap(a.time, b.time))
  }

  /** Day `d` has seconds from the one sighting to the other. */
  predicate OnTheWay(a: Obs, b: Obs, d: Day) {
    var (from, to) := if a.time <= b.time then (a.time, b.time) else (b.time, a.time);
    d * 86400 <= to && from < (d + 1) * 86400
  }

  lemma DaysOnTheWay(a: Obs, b: Obs, d: Day)
    ensures OnTheWay(a, b, d) <==> DayOf(a.time) <= d <= DayOf(b.time) || DayOf(b.time) <= d <= DayOf(a.time)
  {
  }

  lemma DaysOfTicket(t: Ticket, d: Day)
    requires t.first.time <= t.last.time
    ensures (t.plate, d) in Days(t) <==> OnTheWay(t.first, t.last, d)
  {
    DaysOnTheWay(t.first, t.last, d);
    DaysInOrder(t.first.time, t.last.time);
  }

  lemma DaysInOrder(a: U32, b: U32)
    requires a <= b
    ensures DayOf(a) <= DayOf(b)
  {
  }

  /** Some ticket of the car is for a day that lies between the sightings. */
  ghost predicate Ticketed(tickets: seq<Ticket>, plate: Plate, a: Obs, b: Obs) {
    exists t <- tickets, d: Day :: t.plate == plate && OnTheWay(t.first, t.last, d) && OnTheWay(a, b, d)
  }

  lemma FinedIsTicketed(days: set<Key>, tickets: seq<Ticket>, plate: Plate, a: Obs, b: Obs)
    requires Covered(days, tickets) && Fined(days, plate, a, b)
    requires forall t <- tickets :: t.first.time <= t.last.time
    ensures Ticketed(tickets, plate, a, b)
  {
    hide Days, OnTheWay;
    var d: Day :| (DayOf(a.time) <= d <= DayOf(b.time) || DayOf(b.time) <= d <= DayOf(a.time)) && (plate, d) in days;
    var t :| t in tickets && (plate, d) in Days(t);
    DaysOnTheWay(a, b, d);
    DaysOfTicket(t, d);
    OneCar(t, plate, d);
  }

  lemma OneCar(t: Ticket, plate: Plate, d: Day)
    requires (plate, d) in Days(t)
    ensures plate == t.plate
  {
  }

  /** Days and tickets agree after any sightings in any order, whatever limits they come with. */
  lemma {:induction false} RunOnePerDay(steps: seq<Step>)
    ensures Covered(Run(steps).0.days, Run(steps).1) && OnePerDay(Run(steps).1)
  {
    hide Covered, OnePerDay, Issue;
    if steps == [] {
      NoTickets();
    } else {
      var init, last := steps[..|steps| - 1], steps[|steps| - 1];
      var (st, tickets) := Run(init);
      RunOnePerDay(init);
      IssueConsiders(st.days, tickets, last.s, last.order);
      assert tickets + [] == tickets;
    }
  }

  lemma NoTickets()
    ensures Covered({}, []) && OnePerDay([])
  {
  }

  /** Every ticket's sightings are in time order, whatever the limits. */
  lemma {:induction false} RunInOrder(steps: seq<Step>)
    ensures forall t <- Run(steps).1 :: t.first.time <= t.last.time
  {
    hide Issue;
    if steps != [] {
      var init, last := steps[..|steps| - 1], steps[|steps| - 1];
      RunInOrder(init);
      IssueInOrder(Run(init).0.days, last.s, last.order);
    }
  }

  lemma {:induction false} IssueInOrder(days: set<Key>, s: Sighting, order: seq<Obs>)
    ensures forall t <- Issue(days, s, order).tickets :: t.first.time <= t.last.time
  {
    hide Days, Fast, Speed;
    if order != [] {
      IssueInOrder(days, s, order[..|order| - 1]);
    }
  }

  /** No car gets two tickets with seconds of the same day in them. */
  lemma NoDayTwice(steps: seq<Step>, i: nat, j: nat, d: Day)
    ensures var tickets := Run(steps).1;
      i < j < |tickets| && tickets[i].plate == tickets[j].plate && OnTheWay(tickets[i].first, tickets[i].last, d) ==>
        !OnTheWay(tickets[j].first, tickets[j].last, d)
  {
    hide Run, Covered, Days, OnTheWay;
    RunOnePerDay(steps);
    RunInOrder(steps);
    var tickets := Run(steps).1;
    if i < j < |tickets| && tickets[i].plate == tickets[j].plate {
      DaysOfTicket(tickets[i], d);
      DaysOfTicket(tickets[j], d);
      assert Days(tickets[i]) !! Days(tickets[j]);
    }
  }

  /** A ticket comes from two real sightings of the car on the road, in time order, that were too fast for its limit. */
  lemma TicketsAreGenuine(steps: seq<Step>, limits: U16 -> U16, t: Ticket)
    requires Proper(steps, limits)
    ensures t in Run(steps).1 ==>
      && Sighted(steps, t.plate, t.road, t.first) && Sighted(steps, t.plate, t.road, t.last)
      && t.first != t.last && t.first.time <= t.last.time && t.speed == Speed(t.first, t.last)
      && (ShortRoads(steps) && limits(t.road) <= TOP_LIMIT ==> TooFast(limits(t.road), t.first, t.last))
  {
    hide Run, Proper, Fast, Covered, OnePerDay, AllFined, Offends;
    RunKeepsInv(steps, limits);
    if t in Run(steps).1 {
      SeenIsSighted(steps, t.plate, t.road, t.first);
      SeenIsSighted(steps, t.plate, t.road, t.last);
      if ShortRoads(steps) && limits(t.road) <= TOP_LIMIT {
        FastIff(limits(t.road), t.first, t.last);
      }
    }
  }

  /** Every two sightings that were too fast have a ticketed day on the way from the one to the other. */
  lemma OffendersAreTicketed(steps: seq<Step>, limits: U16 -> U16, plate: Plate, road: U16, a: Obs, b: Obs)
    requires Proper(steps, limits) && ShortRoads(steps) && limits(road) <= TOP_LIMIT
    requires Sighted(steps, plate, road, a) && Sighted(steps, plate, road, b) && a != b && TooFast(limits(road), a, b)
    ensures Ticketed(Run(steps).1, plate, a, b)
  {
    hide Run, Proper, Fast, Covered, OnePerDay, Genuine, Offends, Fined;
    RunKeepsInv(steps, limits);
    RunInOrder(steps);
    SeenIsSighted(steps, plate, road, a);
    SeenIsSighted(steps, plate, road, b);
    FastIff(limits(road), a, b);
    assert AllFined(Run(steps).0.days, plate, Seen(Run(steps).0, plate, road), limits(road));
    FinedIsTicketed(Run(steps).0.days, Run(steps).1, plate, a, b);
  }
}
