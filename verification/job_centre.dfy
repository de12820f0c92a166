/**
  The job centre: priority queues, the job table and the running jobs, shared by all workers, and the list of
  weak references each worker keeps to the jobs it took.

  An `Arc` is a token with the value behind it; a weak reference is the same pair, and upgrading it succeeds
  as long as the token is held by `running`.
 */
module JobCentre {
  import opened Wrappers
  import opened Seqs

  /** A job's JSON value is never looked at. */
  type Job = string
  type QueueName = string
  type WorkerId = nat

  const ID_LIMIT: int := 0x1_0000_0000

  datatype JobRef = JobRef(id: nat, job: Job, priority: nat, queue: QueueName)
  datatype Info = Info(job: Job, priority: nat, queue: QueueName)
  datatype Arc = Arc(token: nat, ref: JobRef)
  datatype Entry = Entry(priority: nat, id: nat)
  type Heap = seq<Entry>

  datatype Centre = Centre(
    nextJobId: nat,
    nextToken: nat,
    queues: map<QueueName, Heap>,
    jobs: map<nat, Info>,
    running: seq<Arc>)

  // ------------------------------------------------------------- the heaps

  predicate Below(a: Entry, b: Entry) {
    a.priority < b.priority || (a.priority == b.priority && a.id <= b.id)
  }

  /** The entry a heap yields first: highest priority, then highest id. */
  function Peek(h: Heap): (top: Entry)
    requires h != []
    ensures top in h && forall e <- h :: Below(e, top)
  {
    if |h| == 1 then h[0]
    else
      var rest := Peek(h[1..]);
      assert h == [h[0]] + h[1..];
      if Below(h[0], rest) then rest else h[0]
  }

  function Queue(queues: map<QueueName, Heap>, name: QueueName): Heap {
    if name in queues then queues[name] else []
  }

  /** The queue whose top has the highest priority; the last one listed among equals. */
  function BestQueue(queues: map<QueueName, Heap>, names: seq<QueueName>): Option<QueueName>
    decreases |names|
  {
    if names == [] then None
    else
      var init, last := names[..|names| - 1], names[|names| - 1];
      var best := BestQueue(queues, init);
      if Queue(queues, last) == [] then best
      else if best.None? || Queue(queues, best.value) == []
              || Peek(Queue(queues, last)).priority >= Peek(Queue(queues, best.value)).priority then Some(last)
      else best
  }

  lemma {:induction false} BestQueueIsBest(queues: map<QueueName, Heap>, names: seq<QueueName>)
    ensures var best := BestQueue(queues, names);
      && (best.Some? ==> best.value in names && Queue(queues, best.value) != [])
      && (forall n <- names :: Queue(queues, n) != [] ==>
            best.Some? && Peek(Queue(queues, n)).priority <= Peek(Queue(queues, best.value)).priority)
    decreases |names|
  {
    if names != [] {
      var init, last := names[..|names| - 1], names[|names| - 1];
      BestQueueIsBest(queues, init);
      assert forall n <- names :: n in init || n == last;
    }
  }

  // -------------------------------------------------------- the operations

  function Put(c: Centre, queue: QueueName, job: Job, priority: nat): (Centre, nat) {
    var id := c.nextJobId;
    (c.(nextJobId := id + 1,
        jobs := c.jobs[id := Info(job, priority, queue)],
        queues := c.queues[queue := Queue(c.queues, queue) + [Entry(priority, id)]]), id)
  }

  /** Every queued entry is a live job, so that the lookups of `Get` cannot fail. */
  predicate EntriesLive(c: Centre) {
    forall q <- c.queues :: forall e <- c.queues[q] :: e.id in c.jobs
  }

  function Get(c: Centre, names: seq<QueueName>): (Centre, Option<Arc>)
    requires EntriesLive(c)
  {
    BestQueueIsBest(c.queues, names);
    match BestQueue(c.queues, names)
    case None => (c, None)
    case Some(name) =>
      var entry := Peek(c.queues[name]);
      var info := c.jobs[entry.id];
      var arc := Arc(c.nextToken, JobRef(entry.id, info.job, info.priority, info.queue));
      (c.(nextToken := c.nextToken + 1,
          queues := c.queues[name := RemoveFirst(c.queues[name], entry)],
          running := c.running + [arc]), Some(arc))
  }

  function Delete(c: Centre, id: nat): (Centre, bool) {
    if id in c.jobs then
      var name := c.jobs[id].queue;
      (c.(jobs := c.jobs - {id},
          running := Filter(c.running, (a: Arc) => a.ref.id != id),
          queues := if name in c.queues
                    then c.queues[name := Filter(c.queues[name], (e: Entry) => e.id != id)]
                    else c.queues), true)
    else (c, false)
  }

  function Abort(c: Centre, ref: JobRef): Centre {
    c.(running := Filter(c.running, (a: Arc) => a.ref.id != ref.id),
       queues := c.queues[ref.queue := Queue(c.queues, ref.queue) + [Entry(ref.priority, ref.id)]])
  }

  /** A weak reference can be upgraded while its token is held. */
  predicate Upgrades(running: seq<Arc>, weak: Arc) {
    exists a <- running :: a.token == weak.token
  }

  function RemoveWorker(c: Centre, weaks: seq<Arc>): Centre
    decreases |weaks|
  {
    if weaks == [] then c
    else
      var before := RemoveWorker(c, weaks[..|weaks| - 1]);
      var weak := weaks[|weaks| - 1];
      if Upgrades(before.running, weak) then Abort(before, weak.ref) else before
  }

  /** The job of the worker with this id that still runs: the last one found; it and all dead references go. */
  function WorkingJob(running: seq<Arc>, weaks: seq<Arc>, id: nat): Option<Arc>
    decreases |weaks|
  {
    if weaks == [] then None
    else
      var weak := weaks[|weaks| - 1];
      if Upgrades(running, weak) && weak.ref.id == id then Some(weak)
      else WorkingJob(running, weaks[..|weaks| - 1], id)
  }

  function StillWorking(running: seq<Arc>, weaks: seq<Arc>, id: nat): seq<Arc> {
    Filter(weaks, (w: Arc) => Upgrades(running, w) && w.ref.id != id)
  }

  // -------------------------------------------------------------- in place

  class Inner {
    var nextJobId: nat
    var nextToken: nat
    var queues: map<QueueName, Heap>
    var jobs: map<nat, Info>
    var running: seq<Arc>

    ghost function Snapshot(): Centre
      reads this
    {
      Centre(nextJobId, nextToken, queues, jobs, running)
    }

    constructor ()
      ensures Snapshot() == Centre(1, 0, map[], map[], [])
    {
      nextJobId, nextToken, queues, jobs, running := 1, 0, map[], map[], [];
    }

    method PutJob(queue: QueueName, job: Job, priority: nat) returns (id: nat)
      modifies this
      ensures (Snapshot(), id) == Put(old(Snapshot()), queue, job, priority)
    {
      id := nextJobId;
      nextJobId := nextJobId + 1;
      jobs := jobs[id := Info(job, priority, queue)];
      if queue !in queues {
        queues := queues[queue := []];
      }
      queues := queues[queue := queues[queue] + [Entry(priority, id)]];
      assert queues == old(queues)[queue := Queue(old(queues), queue) + [Entry(priority, id)]];
    }

    method GetJob(names: seq<QueueName>) returns (r: Option<Arc>)
      requires EntriesLive(Snapshot())
      modifies this
      ensures (Snapshot(), r) == Get(old(Snapshot()), names)
    {
      var best: Option<QueueName> := None;
      var priority := 0;
      for i := 0 to |names|
        invariant best == BestQueue(queues, names[..i])
        invariant best.Some? ==> Queue(queues, best.value) != [] && priority == Peek(Queue(queues, best.value)).priority
      {
        assert names[..i + 1][..i] == names[..i];
        if names[i] in queues && queues[names[i]] != [] {
          var top := Peek(queues[names[i]]);
          if best.None? || top.priority >= priority {
            best, priority := Some(names[i]), top.priority;
          }
        }
      }
      assert names[..|names|] == names;
      BestQueueIsBest(queues, names);
      match best
      case None => r := None;
      case Some(name) =>
        var entry := Peek(queues[name]);
        queues := queues[name := RemoveFirst(queues[name], entry)];
        var info := jobs[entry.id];
        var arc := Arc(nextToken, JobRef(entry.id, info.job, info.priority, info.queue));
        nextToken := nextToken + 1;
        running := running + [arc];
        r := Some(arc);
    }

    method DeleteJob(id: nat) returns (ok: bool)
      modifies this
      ensures (Snapshot(), ok) == Delete(old(Snapshot()), id)
    {
      ok := id in jobs;
      if ok {
        var info := jobs[id];
        jobs := jobs - {id};
        running := Filter(running, (a: Arc) => a.ref.id != id);
        if info.queue in queues {
          queues := queues[info.queue := Filter(queues[info.queue], (e: Entry) => e.id != id)];
        }
      }
    }

    method AbortJob(ref: JobRef)
      modifies this
      ensures Snapshot() == Abort(old(Snapshot()), ref)
    {
      running := Filter(running, (a: Arc) => a.ref.id != ref.id);
      if ref.queue !in queues {
        queues := queues[ref.queue := []];
      }
      queues := queues[ref.queue := queues[ref.queue] + [Entry(ref.priority, ref.id)]];
    }

    method RemoveJobs(weaks: seq<Arc>)
      modifies this
      ensures Snapshot() == RemoveWorker(old(Snapshot()), weaks)
    {
      for i := 0 to |weaks|
        invariant Snapshot() == RemoveWorker(old(Snapshot()), weaks[..i])
      {
        assert weaks[..i + 1][..i] == weaks[..i];
        if exists a <- running :: a.token == weaks[i].token {
          AbortJob(weaks[i].ref);
        }
      }
      assert weaks[..|weaks|] == weaks;
    }
  }

  class Worker {
    const centre: Inner
    var jobs: seq<Arc>

    constructor (centre: Inner)
      ensures this.centre == centre && jobs == []
    {
      this.centre, jobs := centre, [];
    }

    /** The value of the job taken, unless it is gone by the time its reference is upgraded. */
    method Take(names: seq<QueueName>) returns (r: Option<JobRef>)
      requires EntriesLive(centre.Snapshot())
      modifies this, centre
      ensures var (after, got) := Get(old(centre.Snapshot()), names);
        centre.Snapshot() == after
        && jobs == old(jobs) + (if got.Some? then [got.value] else [])
        && r == if got.Some? then Some(got.value.ref) else None
    {
      var got := centre.GetJob(names);
      match got
      case None => r := None;
      case Some(weak) =>
        jobs := jobs + [weak];
        assert centre.running[|centre.running| - 1] == weak;
        if exists a <- centre.running :: a.token == weak.token {
          r := Some(weak.ref);
        } else {
          r := None;
        }
    }

    /** Takes the running job with this id out of the list, together with every dead reference. */
    method TakeWorkingJob(id: nat) returns (r: Option<Arc>)
      modifies this
      ensures r == WorkingJob(centre.running, old(jobs), id)
      ensures jobs == StillWorking(centre.running, old(jobs), id)
    {
      r := None;
      var kept: seq<Arc> := [];
      ghost var keep := (w: Arc) reads centre => Upgrades(centre.running, w) && w.ref.id != id;
      ghost var held := centre.running;
      for i := 0 to |jobs|
        invariant jobs == old(jobs) && centre.running == held
        invariant r == WorkingJob(held, jobs[..i], id)
        invariant kept + StillWorking(held, jobs[i..], id) == StillWorking(held, jobs, id)
      {
        assert jobs[..i + 1][..i] == jobs[..i];
        assert jobs[i..][1..] == jobs[i + 1..];
        if exists a <- centre.running :: a.token == jobs[i].token {
          if jobs[i].ref.id == id {
            r := Some(jobs[i]);
          } else {
            kept := kept + [jobs[i]];
          }
        }
      }
      assert jobs[..|jobs|] == jobs;
      jobs := kept;
    }

    method AbortJob(id: nat) returns (ok: bool)
      modifies this, centre
      ensures var working := WorkingJob(old(centre.running), old(jobs), id);
        ok == working.Some?
        && jobs == StillWorking(old(centre.running), old(jobs), id)
        && centre.Snapshot() == if ok then Abort(old(centre.Snapshot()), working.value.ref) else old(centre.Snapshot())
    {
      var working := TakeWorkingJob(id);
      match working
      case None => ok := false;
      case Some(weak) =>
        centre.AbortJob(weak.ref);
        ok := true;
    }

    /** A dropped worker gives back everything it still works on. */
    method Drop()
      modifies centre
      ensures centre.Snapshot() == RemoveWorker(old(centre.Snapshot()), jobs)
    {
      centre.RemoveJobs(jobs);
    }
  }
}
