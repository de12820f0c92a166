/**
  What a job centre promises its clients, stated on a plain table of live jobs, and the proof that the centre
  with its heaps, running list and weak references keeps to it.
 */
module JobCentreSpec {
  import opened Wrappers
  import opened Seqs
  import opened JobCentre

  datatype Status = Waiting | RunningBy(worker: WorkerId)
  datatype Live = Live(info: Info, status: Status)

  /** The promised view: the live jobs, and every id ever given out. */
  datatype Table = Table(live: map<nat, Live>, issued: set<nat>)

  datatype Server = Server(centre: Centre, workers: map<WorkerId, seq<Arc>>)

  datatype Op =
    | Connect(worker: WorkerId)
    | PutJob(worker: WorkerId, queue: QueueName, job: Job, priority: nat)
    | GetJob(worker: WorkerId, names: seq<QueueName>)
    | DeleteJob(worker: WorkerId, id: nat)
    | AbortJob(worker: WorkerId, id: nat)
    | Disconnect(worker: WorkerId)

  datatype Reply = Id(id: nat) | Got(ref: JobRef) | NoJob | Done | Refused

  // ------------------------------------------------------------ the promise

  ghost predicate WaitsIn(t: Table, id: nat, names: seq<QueueName>) {
    id in t.live && t.live[id].status == Waiting && t.live[id].info.queue in names
  }

  function WithStatus(t: Table, id: nat, status: Status): Table
    requires id in t.live
  {
    t.(live := t.live[id := t.live[id].(status := status)])
  }

  function Freed(l: Live, w: WorkerId): Live {
    if l.status == RunningBy(w) then l.(status := Waiting) else l
  }

  /** The reply a client may get to `op`, and the table afterwards. */
  ghost predicate Promised(t: Table, op: Op, reply: Reply, t': Table) {
    match op
    case Connect(_) => reply == Done && t' == t
    case PutJob(_, queue, job, priority) =>
      && reply.Id? && reply.id !in t.issued
      && t' == Table(t.live[reply.id := Live(Info(job, priority, queue), Waiting)], t.issued + {reply.id})
    case GetJob(w, names) =>
      if reply.Got? then
        && var ref := reply.ref;
        && WaitsIn(t, ref.id, names)
        && t.live[ref.id].info == Info(ref.job, ref.priority, ref.queue)
        && (forall id :: WaitsIn(t, id, names) ==> t.live[id].info.priority <= ref.priority)
        && t' == WithStatus(t, ref.id, RunningBy(w))
      else
        reply == NoJob && t' == t && forall id :: !WaitsIn(t, id, names)
    case DeleteJob(_, id) =>
      if id in t.live then reply == Done && t' == t.(live := t.live - {id})
      else reply == NoJob && t' == t
    case AbortJob(w, id) =>
      if id in t.live && t.live[id].status == RunningBy(w) then reply == Done && t' == WithStatus(t, id, Waiting)
      else reply == Refused && t' == t
    case Disconnect(w) =>
      reply == Done && t' == t.(live := map id | id in t.live :: Freed(t.live[id], w))
  }

  // --------------------------------------------------------------- the code

  predicate IsRunning(c: Centre, id: nat) {
    exists a <- c.running :: a.ref.id == id
  }

  predicate Waits(c: Centre, id: nat) {
    id in c.jobs && Entry(c.jobs[id].priority, id) in Queue(c.queues, c.jobs[id].queue)
  }

  /** A queue holds each of its waiting jobs once, with its own priority, and nothing else. */
  ghost predicate QueueOk(c: Centre, name: QueueName) {
    && Distinct(Queue(c.queues, name))
    && forall e <- Queue(c.queues, name) ::
         e.id in c.jobs && c.jobs[e.id].priority == e.priority && c.jobs[e.id].queue == name && !IsRunning(c, e.id)
  }

  ghost predicate RunningOk(c: Centre) {
    && (forall a <- c.running ::
          && a.token < c.nextToken && a.ref.id in c.jobs
          && c.jobs[a.ref.id] == Info(a.ref.job, a.ref.priority, a.ref.queue))
    && (forall a <- c.running, b <- c.running :: a != b ==> a.token != b.token && a.ref.id != b.ref.id)
    && Distinct(c.running)
  }

  /** Every live job is in exactly its own queue, once, or running, once. */
  ghost predicate CentreInv(c: Centre) {
    && 1 <= c.nextJobId
    && (forall id <- c.jobs :: 1 <= id < c.nextJobId)
    && (forall name <- c.queues :: QueueOk(c, name))
    && RunningOk(c)
    && (forall id <- c.jobs :: Waits(c, id) || IsRunning(c, id))
  }

  /** A reference upgrades only to the job it was made for, and each running job has exactly one owner. */
  ghost predicate WorkersInv(s: Server) {
    && (forall w <- s.workers :: forall x <- s.workers[w] ::
          x.token < s.centre.nextToken && forall a <- s.centre.running :: a.token == x.token ==> a == x)
    && (forall a <- s.centre.running :: exists w <- s.workers :: a in s.workers[w])
    && (forall a <- s.centre.running, v <- s.workers, w <- s.workers ::
          a in s.workers[v] && a in s.workers[w] ==> v == w)
  }

  ghost predicate Inv(s: Server) {
    CentreInv(s.centre) && WorkersInv(s)
  }

  predicate Can(s: Server, op: Op) {
    && (if op.Connect? then op.worker !in s.workers else op.worker in s.workers)
    && (op.PutJob? ==> s.centre.nextJobId < ID_LIMIT - 1)
  }

  function Do(s: Server, op: Op): (Server, Reply)
    requires Can(s, op) && EntriesLive(s.centre)
  {
    var c, w := s.centre, op.worker;
    match op
    case Connect(_) => (s.(workers := s.workers[w := []]), Done)
    case PutJob(_, queue, job, priority) =>
      var (c', id) := Put(c, queue, job, priority);
      (s.(centre := c'), Id(id))
    case GetJob(_, names) =>
      var (c', got) := Get(c, names);
      if got.None? then (s.(centre := c'), NoJob)
      else (Server(c', s.workers[w := s.workers[w] + [got.value]]), Got(got.value.ref))
    case DeleteJob(_, id) =>
      var (c', ok) := Delete(c, id);
      (s.(centre := c'), if ok then Done else NoJob)
    case AbortJob(_, id) =>
      var working := WorkingJob(c.running, s.workers[w], id);
      var kept := StillWorking(c.running, s.workers[w], id);
      if working.None? then (s.(workers := s.workers[w := kept]), Refused)
      else (Server(Abort(c, working.value.ref), s.workers[w := kept]), Done)
    case Disconnect(_) =>
      (Server(RemoveWorker(c, s.workers[w]), s.workers - {w}), Done)
  }

  predicate Runs(s: Server, w: WorkerId, id: nat) {
    w in s.workers && exists a <- s.centre.running :: a.ref.id == id && a in s.workers[w]
  }

  ghost predicate StandsAt(s: Server, t: Table, id: nat)
    requires id in t.live
  {
    && id in s.centre.jobs
    && t.live[id].info == s.centre.jobs[id]
    && match t.live[id].status
       case Waiting => Waits(s.centre, id)
       case RunningBy(w) => Runs(s, w, id)
  }

  lemma StillRuns(s: Server, s': Server, w: WorkerId, id: nat)
    requires Runs(s, w, id) && w in s'.workers
    requires forall a <- s.centre.running :: a.ref.id == id && a in s.workers[w] ==> a in s'.centre.running && a in s'.workers[w]
    ensures Runs(s', w, id)
  {
  }

  /** The centre's state stands for the table. */
  ghost predicate Stands(s: Server, t: Table) {
    && t.live.Keys == s.centre.jobs.Keys
    && (forall id :: id in t.issued <==> 1 <= id < s.centre.nextJobId)
    && forall id <- t.live :: StandsAt(s, t, id)
  }

  // -------------------------------------------------------------- the proof

  lemma InvEntriesLive(c: Centre)
    requires CentreInv(c)
    ensures EntriesLive(c)
  {
    forall q <- c.queues, e <- c.queues[q]
      ensures e.id in c.jobs
    {
      assert QueueOk(c, q);
    }
  }

  lemma QueueOkOf(c: Centre, name: QueueName)
    requires CentreInv(c)
    ensures QueueOk(c, name)
  {
    if name !in c.queues {
      assert Queue(c.queues, name) == [];
    }
  }

  lemma WaitsOrRuns(c: Centre, id: nat)
    requires CentreInv(c) && id in c.jobs
    ensures Waits(c, id) <==> !IsRunning(c, id)
  {
    QueueOkOf(c, c.jobs[id].queue);
  }

  lemma OneOwner(s: Server, v: WorkerId, w: WorkerId, id: nat)
    requires Inv(s) && Runs(s, v, id) && Runs(s, w, id)
    ensures v == w
  {
    var a :| a in s.centre.running && a.ref.id == id && a in s.workers[v];
    var b :| b in s.centre.running && b.ref.id == id && b in s.workers[w];
    assert a == b;
  }

  /** A job waits or runs, never both, and has one owner: the table is determined by the state. */
  lemma StatusExact(s: Server, t: Table, id: nat)
    requires Inv(s) && Stands(s, t) && id in t.live
    ensures t.live[id].status == Waiting <==> Waits(s.centre, id)
    ensures forall w :: t.live[id].status == RunningBy(w) <==> Runs(s, w, id)
  {
    assert StandsAt(s, t, id);
    WaitsOrRuns(s.centre, id);
    forall w
      ensures t.live[id].status == RunningBy(w) <==> Runs(s, w, id)
    {
      if Runs(s, w, id) {
        assert IsRunning(s.centre, id);
        OneOwner(s, t.live[id].status.worker, w, id);
      }
    }
  }

  // Put.

  lemma PutCentre(c: Centre, queue: QueueName, job: Job, priority: nat)
    requires CentreInv(c)
    ensures CentreInv(Put(c, queue, job, priority).0)
  {
    var (c', id) := Put(c, queue, job, priority);
    var entry := Entry(priority, id);
    QueueOkOf(c, queue);
    AppendDistinct(Queue(c.queues, queue), entry);
    assert c'.running == c.running;
    forall name <- c'.queues
      ensures QueueOk(c', name)
    {
      QueueOkOf(c, name);
    }
    forall i <- c'.jobs
      ensures Waits(c', i) || IsRunning(c', i)
    {
      if i == id {
        assert Queue(c'.queues, queue)[|Queue(c.queues, queue)|] == entry;
      } else {
        assert Waits(c, i) ==> Waits(c', i);
      }
    }
  }

  /** `Waits` only grows when an entry is pushed. */
  lemma PutWaits(c: Centre, queue: QueueName, job: Job, priority: nat)
    requires CentreInv(c)
    ensures var (c', id) := Put(c, queue, job, priority);
      Waits(c', id) && id !in c.jobs && forall i :: Waits(c, i) ==> Waits(c', i)
  {
    var (c', id) := Put(c, queue, job, priority);
    assert Queue(c'.queues, queue)[|Queue(c.queues, queue)|] == Entry(priority, id);
  }

  lemma PutRefines(s: Server, t: Table, op: Op) returns (t': Table)
    requires Inv(s) && Stands(s, t) && op.PutJob? && Can(s, op) && EntriesLive(s.centre)
    ensures Inv(Do(s, op).0) && Promised(t, op, Do(s, op).1, t') && Stands(Do(s, op).0, t')
  {
    hide CentreInv, Waits, Runs;
    var (s', reply) := Do(s, op);
    PutCentre(s.centre, op.queue, op.job, op.priority);
    PutWaits(s.centre, op.queue, op.job, op.priority);
    t' := Table(t.live[reply.id := Live(Info(op.job, op.priority, op.queue), Waiting)], t.issued + {reply.id});
    forall id <- t'.live
      ensures StandsAt(s', t', id)
    {
      if id != reply.id {
        assert StandsAt(s, t, id);
        if t.live[id].status.RunningBy? {
          RunsKnown(s, t.live[id].status.worker, id);
          SameRuns(s, s', t.live[id].status.worker, id);
        }
      }
    }
  }

  // Get.

  /** The centre after handing out `arc` from the front of queue `name`. */
  function HandOut(c: Centre, name: QueueName, arc: Arc): Centre
    requires name in c.queues && c.queues[name] != []
  {
    c.(nextToken := c.nextToken + 1,
       queues := c.queues[name := RemoveFirst(c.queues[name], Peek(c.queues[name]))],
       running := c.running + [arc])
  }

  predicate FrontOf(c: Centre, name: QueueName, arc: Arc) {
    && name in c.queues && c.queues[name] != []
    && var id := Peek(c.queues[name]).id;
    && id in c.jobs
    && arc == Arc(c.nextToken, JobRef(id, c.jobs[id].job, c.jobs[id].priority, c.jobs[id].queue))
  }

  lemma HandOutQueues(c: Centre, name: QueueName, arc: Arc)
    requires CentreInv(c) && FrontOf(c, name, arc)
    ensures var c' := HandOut(c, name, arc);
      && (forall q <- c'.queues :: QueueOk(c', q))
      && (forall i :: Waits(c, i) && i != arc.ref.id ==> Waits(c', i))
      && (forall i :: IsRunning(c', i) <==> IsRunning(c, i) || i == arc.ref.id)
  {
    var c' := HandOut(c, name, arc);
    var e := Peek(c.queues[name]);
    assert QueueOk(c, name);
    RemoveFirstDistinct(c.queues[name], e);
    assert c'.running[|c.running|] == arc;
    assert forall i :: IsRunning(c', i) <==> IsRunning(c, i) || i == e.id;
    forall q <- c'.queues
      ensures QueueOk(c', q)
    {
      QueueOkOf(c, q);
    }
  }

  lemma HandedOut(c: Centre, name: QueueName, arc: Arc)
    requires CentreInv(c) && FrontOf(c, name, arc)
    ensures CentreInv(HandOut(c, name, arc))
    ensures Waits(c, arc.ref.id) && Peek(c.queues[name]) == Entry(arc.ref.priority, arc.ref.id) && arc.ref.queue == name
    ensures forall i :: Waits(c, i) && i != arc.ref.id ==> Waits(HandOut(c, name, arc), i)
  {
    HandOutQueues(c, name, arc);
    assert QueueOk(c, name);
    assert RunningOk(HandOut(c, name, arc)) by {
      assert arc !in c.running;
      assert forall a <- c.running :: a.ref.id != arc.ref.id;
    }
  }

  lemma NothingWaits(s: Server, t: Table, names: seq<QueueName>)
    requires Inv(s) && Stands(s, t) && BestQueue(s.centre.queues, names).None?
    ensures forall id :: !WaitsIn(t, id, names)
  {
    BestQueueIsBest(s.centre.queues, names);
    forall id
      ensures !WaitsIn(t, id, names)
    {
      if id in t.live {
        assert StandsAt(s, t, id);
      }
    }
  }

  lemma BestWaits(s: Server, t: Table, names: seq<QueueName>)
    requires Inv(s) && Stands(s, t) && BestQueue(s.centre.queues, names).Some?
    ensures var name := BestQueue(s.centre.queues, names).value;
      && name in names && name in s.centre.queues && s.centre.queues[name] != []
      && forall id :: WaitsIn(t, id, names) ==> t.live[id].info.priority <= Peek(s.centre.queues[name]).priority
  {
    BestQueueIsBest(s.centre.queues, names);
    var name := BestQueue(s.centre.queues, names).value;
    forall id | WaitsIn(t, id, names)
      ensures t.live[id].info.priority <= Peek(s.centre.queues[name]).priority
    {
      assert StandsAt(s, t, id);
      var own := Queue(s.centre.queues, t.live[id].info.queue);
      assert Below(Entry(t.live[id].info.priority, id), Peek(own));
    }
  }

  lemma GetRefines(s: Server, t: Table, op: Op) returns (t': Table)
    requires Inv(s) && Stands(s, t) && op.GetJob? && Can(s, op) && EntriesLive(s.centre)
    ensures Inv(Do(s, op).0) && Promised(t, op, Do(s, op).1, t') && Stands(Do(s, op).0, t')
  {
    var c := s.centre;
    match BestQueue(c.queues, op.names)
    case None =>
      NothingWaits(s, t, op.names);
      t' := t;
    case Some(name) =>
      t' := GotRefines(s, t, op, name);
  }

  lemma GotRefines(s: Server, t: Table, op: Op, name: QueueName) returns (t': Table)
    requires Inv(s) && Stands(s, t) && op.GetJob? && Can(s, op) && EntriesLive(s.centre)
    requires BestQueue(s.centre.queues, op.names) == Some(name)
    ensures Inv(Do(s, op).0) && Promised(t, op, Do(s, op).1, t') && Stands(Do(s, op).0, t')
  {
    var c, w := s.centre, op.worker;
    BestWaits(s, t, op.names);
    var arc := Get(c, op.names).1.value;
    var id := arc.ref.id;
    assert FrontOf(c, name, arc) && Get(c, op.names).0 == HandOut(c, name, arc);
    HandedOut(c, name, arc);
    GotWorkers(s, op, arc);
    StatusExact(s, t, id);
    assert StandsAt(s, t, id);
    t' := WithStatus(t, id, RunningBy(w));
    assert WaitsIn(t, id, op.names);
    GotStands(s, t, op, name, arc);
  }

  lemma GotStands(s: Server, t: Table, op: Op, name: QueueName, arc: Arc)
    requires Inv(s) && Stands(s, t) && op.GetJob? && Can(s, op)
    requires FrontOf(s.centre, name, arc) && arc.ref.id in t.live
    requires forall i :: Waits(s.centre, i) && i != arc.ref.id ==> Waits(HandOut(s.centre, name, arc), i)
    ensures var s' := Server(HandOut(s.centre, name, arc), s.workers[op.worker := s.workers[op.worker] + [arc]]);
      Stands(s', WithStatus(t, arc.ref.id, RunningBy(op.worker)))
  {
    var w, id := op.worker, arc.ref.id;
    var s' := Server(HandOut(s.centre, name, arc), s.workers[w := s.workers[w] + [arc]]);
    var t' := WithStatus(t, id, RunningBy(w));
    assert s'.centre.running[|s.centre.running|] == arc && arc in s'.workers[w];
    forall i <- t'.live
      ensures StandsAt(s', t', i)
    {
      assert StandsAt(s, t, i);
      assert forall v :: Runs(s, v, i) ==> Runs(s', v, i);
    }
  }

  lemma GotWorkers(s: Server, op: Op, arc: Arc)
    requires Inv(s) && op.GetJob? && Can(s, op) && EntriesLive(s.centre)
    requires Get(s.centre, op.names).1 == Some(arc)
    ensures WorkersInv(Do(s, op).0)
    ensures Runs(Do(s, op).0, op.worker, arc.ref.id)
  {
    var c, w := s.centre, op.worker;
    var s' := Do(s, op).0;
    assert s'.centre.running == c.running + [arc] && arc.token == c.nextToken;
    assert arc in s'.workers[w] && arc in s'.centre.running;
    forall a <- s'.centre.running
      ensures exists v <- s'.workers :: a in s'.workers[v]
    {
      if a in c.running {
        var v :| v in s.workers && a in s.workers[v];
        assert v in s'.workers && a in s'.workers[v];
      }
    }
    assert forall v <- s.workers :: arc !in s.workers[v];
  }

  // Delete.

  lemma DeleteQueues(c: Centre, id: nat)
    requires CentreInv(c) && id in c.jobs
    ensures var c' := Delete(c, id).0;
      && (forall q <- c'.queues :: QueueOk(c', q))
      && (forall i :: Waits(c, i) && i != id ==> Waits(c', i))
  {
    var c' := Delete(c, id).0;
    var name := c.jobs[id].queue;
    QueueOkOf(c, name);
    FilterDistinct(Queue(c.queues, name), (e: Entry) => e.id != id);
    forall q <- c'.queues
      ensures QueueOk(c', q)
    {
      QueueOkOf(c, q);
    }
  }

  lemma DeleteCentre(c: Centre, id: nat)
    requires CentreInv(c) && id in c.jobs
    ensures var c' := Delete(c, id).0;
      && CentreInv(c')
      && (forall a :: a in c'.running <==> a in c.running && a.ref.id != id)
      && (forall i :: Waits(c, i) && i != id ==> Waits(c', i))
  {
    DeleteQueues(c, id);
    FilterDistinct(c.running, (a: Arc) => a.ref.id != id);
    var c' := Delete(c, id).0;
    forall i <- c'.jobs
      ensures Waits(c', i) || IsRunning(c', i)
    {
      assert Waits(c, i) || IsRunning(c, i);
    }
  }

  /** Fewer running jobs leave every reference and every owner in order. */
  lemma RunningShrinks(s: Server, c': Centre)
    requires WorkersInv(s) && c'.nextToken == s.centre.nextToken
    requires forall a <- c'.running :: a in s.centre.running
    ensures WorkersInv(s.(centre := c'))
  {
  }

  lemma DeleteRefines(s: Server, t: Table, op: Op) returns (t': Table)
    requires Inv(s) && Stands(s, t) && op.DeleteJob? && Can(s, op) && EntriesLive(s.centre)
    ensures Inv(Do(s, op).0) && Promised(t, op, Do(s, op).1, t') && Stands(Do(s, op).0, t')
  {
    var c, id := s.centre, op.id;
    if id !in c.jobs {
      return t;
    }
    var c' := Delete(c, id).0;
    var s' := s.(centre := c');
    DeleteCentre(c, id);
    RunningShrinks(s, c');
    t' := t.(live := t.live - {id});
    forall i <- t'.live
      ensures StandsAt(s', t', i)
    {
      assert StandsAt(s, t, i);
      assert forall v :: Runs(s, v, i) ==> Runs(s', v, i);
    }
  }

  // Abort.

  lemma AbortQueues(c: Centre, arc: Arc)
    requires CentreInv(c) && arc in c.running
    ensures var c' := Abort(c, arc.ref);
      && (forall q <- c'.queues :: QueueOk(c', q))
      && (forall i :: Waits(c, i) ==> Waits(c', i))
      && Waits(c', arc.ref.id)
  {
    var c', ref := Abort(c, arc.ref), arc.ref;
    var entry := Entry(ref.priority, ref.id);
    assert IsRunning(c, ref.id);
    QueueOkOf(c, ref.queue);
    AppendDistinct(Queue(c.queues, ref.queue), entry);
    assert Queue(c'.queues, ref.queue)[|Queue(c.queues, ref.queue)|] == entry;
    assert forall i :: IsRunning(c', i) <==> IsRunning(c, i) && i != ref.id;
    forall q <- c'.queues
      ensures QueueOk(c', q)
    {
      QueueOkOf(c, q);
    }
  }

  lemma AbortCentre(c: Centre, arc: Arc)
    requires CentreInv(c) && arc in c.running
    ensures var c' := Abort(c, arc.ref);
      && CentreInv(c') && c'.jobs == c.jobs && c'.nextJobId == c.nextJobId && c'.nextToken == c.nextToken
      && (forall a :: a in c'.running <==> a in c.running && a != arc)
      && (forall i :: Waits(c, i) ==> Waits(c', i))
      && Waits(c', arc.ref.id)
  {
    hide Waits, QueueOk;
    AbortQueues(c, arc);
    FilterDistinct(c.running, (a: Arc) => a.ref.id != arc.ref.id);
    var c' := Abort(c, arc.ref);
    forall i <- c'.jobs
      ensures Waits(c', i) || IsRunning(c', i)
    {
      assert Waits(c, i) || IsRunning(c, i);
    }
  }

  lemma {:induction false} WorkingJobExact(running: seq<Arc>, weaks: seq<Arc>, id: nat)
    ensures var r := WorkingJob(running, weaks, id);
      if r.Some? then r.value in weaks && Upgrades(running, r.value) && r.value.ref.id == id
      else forall x <- weaks :: !(Upgrades(running, x) && x.ref.id == id)
  {
    if weaks != [] {
      var init := weaks[..|weaks| - 1];
      WorkingJobExact(running, init, id);
      assert weaks == init + [weaks[|weaks| - 1]];
    }
  }

  lemma UpgradeIsHeld(s: Server, w: WorkerId, x: Arc)
    requires WorkersInv(s) && w in s.workers && x in s.workers[w]
    ensures Upgrades(s.centre.running, x) <==> x in s.centre.running
  {
  }

  lemma AbortWorkers(s: Server, w: WorkerId, id: nat, c': Centre)
    requires WorkersInv(s) && w in s.workers && c'.nextToken == s.centre.nextToken
    requires forall a :: a in c'.running <==> a in s.centre.running && !(a in s.workers[w] && a.ref.id == id)
    ensures WorkersInv(Server(c', s.workers[w := StillWorking(s.centre.running, s.workers[w], id)]))
  {
    var kept := StillWorking(s.centre.running, s.workers[w], id);
    var s' := Server(c', s.workers[w := kept]);
    forall a <- c'.running
      ensures exists v <- s'.workers :: a in s'.workers[v]
    {
      var v :| v in s.workers && a in s.workers[v];
      assert v == w ==> a in kept;
      assert v in s'.workers && a in s'.workers[v];
    }
    assert forall v <- s'.workers, x <- s'.workers[v] :: x in s.workers[v];
  }

  lemma AbortRefines(s: Server, t: Table, op: Op) returns (t': Table)
    requires Inv(s) && Stands(s, t) && op.AbortJob? && Can(s, op) && EntriesLive(s.centre)
    ensures Inv(Do(s, op).0) && Promised(t, op, Do(s, op).1, t') && Stands(Do(s, op).0, t')
  {
    var c, w, id := s.centre, op.worker, op.id;
    var weaks := s.workers[w];
    var working := WorkingJob(c.running, weaks, id);
    WorkingJobExact(c.running, weaks, id);
    if id in t.live {
      StatusExact(s, t, id);
    }
    match working
    case None =>
      t' := t;
      assert forall a <- c.running :: a in weaks ==> Upgrades(c.running, a);
      AbortWorkers(s, w, id, c);
      assert !Runs(s, w, id);
      AbortStands(s, t, w, id, c, t);
    case Some(arc) =>
      UpgradeIsHeld(s, w, arc);
      assert Runs(s, w, id) && id in t.live;
      StatusExact(s, t, id);
      AbortCentre(c, arc);
      AbortWorkers(s, w, id, Abort(c, arc.ref));
      t' := WithStatus(t, id, Waiting);
      AbortStands(s, t, w, id, Abort(c, arc.ref), t');
  }

  lemma AbortStandsAt(s: Server, t: Table, w: WorkerId, id: nat, s': Server, i: nat)
    requires Inv(s) && Stands(s, t) && i in t.live && w in s.workers
    requires s'.centre.jobs == s.centre.jobs && s'.workers.Keys == s.workers.Keys
    requires Waits(s.centre, i) ==> Waits(s'.centre, i)
    requires forall a <- s.centre.running :: a.ref.id == i && (i != id || a !in s.workers[w]) ==> a in s'.centre.running
    requires forall v <- s.workers :: forall a <- s.centre.running ::
               a in s.workers[v] && (v != w || a.ref.id != id) ==> a in s'.workers[v]
    requires !(i == id && Runs(s, w, id))
    ensures StandsAt(s', t, i)
  {
    assert StandsAt(s, t, i);
    match t.live[i].status
    case Waiting =>
    case RunningBy(v) => StillRuns(s, s', v, i);
  }

  lemma WaitsAgain(s: Server, t: Table, id: nat, s': Server)
    requires Stands(s, t) && id in t.live && s'.centre.jobs == s.centre.jobs && Waits(s'.centre, id)
    ensures StandsAt(s', WithStatus(t, id, Waiting), id)
  {
    assert StandsAt(s, t, id);
  }

  lemma KeptExact(running: seq<Arc>, weaks: seq<Arc>, id: nat)
    ensures forall a <- running :: a in weaks && a.ref.id != id ==> a in StillWorking(running, weaks, id)
  {
    assert forall a <- running :: Upgrades(running, a);
  }

  lemma AbortStands(s: Server, t: Table, w: WorkerId, id: nat, c': Centre, t': Table)
    requires Inv(s) && Stands(s, t) && w in s.workers
    requires c'.jobs == s.centre.jobs && c'.nextJobId == s.centre.nextJobId
    requires forall i :: Waits(s.centre, i) ==> Waits(c', i)
    requires forall a :: a in c'.running <==> a in s.centre.running && !(a in s.workers[w] && a.ref.id == id)
    requires if Runs(s, w, id) then id in t.live && t' == WithStatus(t, id, Waiting) && Waits(c', id) else t' == t
    ensures Stands(Server(c', s.workers[w := StillWorking(s.centre.running, s.workers[w], id)]), t')
  {
    hide StillWorking, Waits, CentreInv, WorkersInv, Runs;
    var kept := StillWorking(s.centre.running, s.workers[w], id);
    var s' := Server(c', s.workers[w := kept]);
    KeptExact(s.centre.running, s.workers[w], id);
    forall i <- t'.live
      ensures StandsAt(s', t', i)
    {
      if i == id && Runs(s, w, id) {
        WaitsAgain(s, t, id, s');
      } else {
        AbortStandsAt(s, t, w, id, s', i);
        assert t'.live[i] == t.live[i];
      }
    }
  }

  // Disconnect.

  /** After giving back the first `k` jobs of worker `w`, exactly those no longer run, and they wait. */
  lemma {:induction false} GivenBack(s: Server, w: WorkerId, k: nat)
    requires Inv(s) && w in s.workers && k <= |s.workers[w]|
    ensures var c, c' := s.centre, RemoveWorker(s.centre, s.workers[w][..k]);
      && CentreInv(c') && c'.jobs == c.jobs && c'.nextJobId == c.nextJobId && c'.nextToken == c.nextToken
      && (forall a :: a in c'.running <==> a in c.running && a !in s.workers[w][..k])
      && (forall i :: Waits(c, i) ==> Waits(c', i))
      && (forall a <- c.running :: a in s.workers[w][..k] ==> Waits(c', a.ref.id))
  {
    var weaks := s.workers[w];
    if k > 0 {
      var before := RemoveWorker(s.centre, weaks[..k - 1]);
      var weak := weaks[k - 1];
      GivenBack(s, w, k - 1);
      assert weaks[..k][..k - 1] == weaks[..k - 1] && weaks[..k] == weaks[..k - 1] + [weak];
      RunningShrinks(s, before);
      UpgradeIsHeld(s.(centre := before), w, weak);
      if weak in before.running {
        AbortCentre(before, weak);
      }
    }
  }

  lemma OwnersStay(s: Server, w: WorkerId, c': Centre)
    requires WorkersInv(s) && w in s.workers && c'.nextToken == s.centre.nextToken
    requires forall a :: a in c'.running <==> a in s.centre.running && a !in s.workers[w]
    ensures WorkersInv(Server(c', s.workers - {w}))
  {
    var s' := Server(c', s.workers - {w});
    forall a <- c'.running
      ensures exists v <- s'.workers :: a in s'.workers[v]
    {
      var v :| v in s.workers && a in s.workers[v];
      assert v in s'.workers && a in s'.workers[v];
    }
  }

  lemma FreedStands(s: Server, t: Table, w: WorkerId, s': Server, i: nat)
    requires Inv(s) && Stands(s, t) && i in t.live && w in s.workers
    requires s'.centre.jobs == s.centre.jobs && s'.workers == s.workers - {w}
    requires forall a :: a in s'.centre.running <==> a in s.centre.running && a !in s.workers[w]
    requires forall i :: Waits(s.centre, i) ==> Waits(s'.centre, i)
    requires forall a <- s.centre.running :: a in s.workers[w] ==> Waits(s'.centre, a.ref.id)
    ensures var live := Freed(t.live[i], w);
      && live.info == s'.centre.jobs[i]
      && (if live.status == Waiting then Waits(s'.centre, i) else Runs(s', live.status.worker, i))
  {
    hide Waits, CentreInv;
    assert StandsAt(s, t, i);
    match t.live[i].status
    case Waiting =>
    case RunningBy(v) =>
      var a :| a in s.centre.running && a.ref.id == i && a in s.workers[v];
      if v != w {
        assert a !in s.workers[w];
      }
  }

  lemma DisconnectRefines(s: Server, t: Table, op: Op) returns (t': Table)
    requires Inv(s) && Stands(s, t) && op.Disconnect? && Can(s, op) && EntriesLive(s.centre)
    ensures Inv(Do(s, op).0) && Promised(t, op, Do(s, op).1, t') && Stands(Do(s, op).0, t')
  {
    hide Waits, CentreInv, WorkersInv, Runs, RemoveWorker;
    var c, w := s.centre, op.worker;
    var weaks := s.workers[w];
    var c' := RemoveWorker(c, weaks);
    var s' := Server(c', s.workers - {w});
    assert weaks[..|weaks|] == weaks;
    GivenBack(s, w, |weaks|);
    t' := t.(live := map id | id in t.live :: Freed(t.live[id], w));
    OwnersStay(s, w, c');
    forall i <- t'.live
      ensures StandsAt(s', t', i)
    {
      FreedStands(s, t, w, s', i);
      assert t'.live[i] == Freed(t.live[i], w);
    }
  }

  // ------------------------------------------------------------ the theorem

  lemma InvIsCentreInv(s: Server)
    requires Inv(s)
    ensures CentreInv(s.centre)
  {
  }

  lemma ConnectWorkers(s: Server, w: WorkerId)
    requires WorkersInv(s) && w !in s.workers
    ensures WorkersInv(s.(workers := s.workers[w := []]))
  {
    var s' := s.(workers := s.workers[w := []]);
    forall a <- s'.centre.running
      ensures exists v <- s'.workers :: a in s'.workers[v]
    {
      var v :| v in s.workers && a in s.workers[v];
      assert v in s'.workers && a in s'.workers[v];
    }
  }

  lemma ConnectRefines(s: Server, t: Table, op: Op) returns (t': Table)
    requires Inv(s) && Stands(s, t) && op.Connect? && Can(s, op) && EntriesLive(s.centre)
    ensures Inv(Do(s, op).0) && Promised(t, op, Do(s, op).1, t') && Stands(Do(s, op).0, t')
  {
    hide Waits, CentreInv, WorkersInv, Runs;
    t' := t;
    var s' := Do(s, op).0;
    ConnectWorkers(s, op.worker);
    forall i <- t.live
      ensures StandsAt(s', t, i)
    {
      assert StandsAt(s, t, i);
      if t.live[i].status.RunningBy? {
        RunsKnown(s, t.live[i].status.worker, i);
        SameRuns(s, s', t.live[i].status.worker, i);
      }
    }
  }

  lemma RunsKnown(s: Server, w: WorkerId, id: nat)
    requires Runs(s, w, id)
    ensures w in s.workers
  {
  }

  lemma SameRuns(s: Server, s': Server, w: WorkerId, id: nat)
    requires Runs(s, w, id) && s'.centre.running == s.centre.running && w in s'.workers && s'.workers[w] == s.workers[w]
    ensures Runs(s', w, id)
  {
  }

  /**
    One request: the reply is the one the table promises, the lookups behind it cannot fail, and the state
    stands for the table the promise names.
   */
  lemma Refines(s: Server, t: Table, op: Op) returns (t': Table)
    requires Inv(s) && Stands(s, t) && Can(s, op)
    ensures EntriesLive(s.centre)
    ensures Inv(Do(s, op).0) && Promised(t, op, Do(s, op).1, t') && Stands(Do(s, op).0, t')
  {
    hide Inv, Stands, Promised, Do, EntriesLive;
    InvIsCentreInv(s);
    InvEntriesLive(s.centre);
    match op
    case Connect(_) => t' := ConnectRefines(s, t, op);
    case PutJob(_, _, _, _) => t' := PutRefines(s, t, op);
    case GetJob(_, _) => t' := GetRefines(s, t, op);
    case DeleteJob(_, _) => t' := DeleteRefines(s, t, op);
    case AbortJob(_, _) => t' := AbortRefines(s, t, op);
    case Disconnect(_) => t' := DisconnectRefines(s, t, op);
  }

  const EMPTY: Server := Server(Centre(1, 0, map[], map[], []), map[])

  /** A sequence of requests the server could serve, with its replies. */
  ghost predicate Serves(s: Server, ops: seq<Op>, replies: seq<Reply>, s': Server)
    decreases |ops|
  {
    |ops| == |replies|
    && if ops == [] then s' == s
       else
         && Can(s, ops[0]) && EntriesLive(s.centre)
         && Do(s, ops[0]).1 == replies[0]
         && Serves(Do(s, ops[0]).0, ops[1..], replies[1..], s')
  }

  /** The same sequence of requests and replies on the table. */
  ghost predicate Keeps(t: Table, ops: seq<Op>, replies: seq<Reply>, t': Table)
    decreases |ops|
  {
    |ops| == |replies|
    && if ops == [] then t' == t
       else exists next :: Promised(t, ops[0], replies[0], next) && Keeps(next, ops[1..], replies[1..], t')
  }

  lemma {:induction false} RunRefines(s: Server, t: Table, ops: seq<Op>, replies: seq<Reply>, s': Server) returns (t': Table)
    requires Inv(s) && Stands(s, t) && Serves(s, ops, replies, s')
    ensures Keeps(t, ops, replies, t') && Inv(s') && Stands(s', t')
    decreases |ops|
  {
    if ops == [] {
      t' := t;
    } else {
      var next := Refines(s, t, ops[0]);
      t' := RunRefines(Do(s, ops[0]).0, next, ops[1..], replies[1..], s');
    }
  }

  /** Every run from the empty centre gives exactly the replies its table promises. */
  lemma EveryRunKeepsThePromise(ops: seq<Op>, replies: seq<Reply>, s': Server) returns (t': Table)
    requires Serves(EMPTY, ops, replies, s')
    ensures Keeps(Table(map[], {}), ops, replies, t') && Inv(s') && Stands(s', t')
    ensures EntriesLive(s'.centre)
  {
    t' := RunRefines(EMPTY, Table(map[], {}), ops, replies, s');
    InvEntriesLive(s'.centre);
  }
}
