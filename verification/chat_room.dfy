/** The whole chat: one server, its message queue, and any number of clients, step by step. */
module ChatRoom {
  import opened Wrappers
  import opened ChatMessages
  import opened ChatServer
  import opened ChatClient

  /**
    `phases` and `taken` belong to the clients: where each stands and how much of what was sent to it it has
    taken. `clock` and `acceptedAt` record in which order usernames were accepted.
   */
  datatype Room = Room(
    nextId: Id,
    table: Table,
    phases: map<Id, Phase>,
    taken: map<Id, nat>,
    queue: seq<ClientMessage>,
    clock: nat,
    acceptedAt: map<Id, nat>,
    panicked: bool)

  const EMPTY: Room := Room(0, map[], map[], map[], [], 0, map[], false)

  datatype Action =
    | Connect
    | Serve(order: seq<Id>)
    | Receive(id: Id, ok: bool)
    | Enter(id: Id, line: Option<string>)

  ghost predicate Can(r: Room, a: Action) {
    match a
    case Connect => true
    case Serve(order) => r.queue != [] && WalksAll(order, r.table)
    case Receive(id, _) =>
      id in r.phases && Listens(r.phases[id]) && id in r.table && id in r.taken && r.taken[id] < |r.table[id].sent|
    case Enter(id, _) => id in r.phases && Reads(r.phases[id])
  }

  function Connected(r: Room): Room {
    var id := r.nextId + 1;
    r.(nextId := id, table := Accept(r.table, id), phases := r.phases[id := WaitingWelcome], taken := r.taken[id := 0])
  }

  function ServedWith(r: Room, m: ClientMessage, table: Table): Room
    requires r.queue != []
  {
    var after := r.(table := table, queue := r.queue[1..]);
    if m.SetUsername? && IsJoined(table, m.id) && !IsJoined(r.table, m.id)
    then after.(clock := r.clock + 1, acceptedAt := r.acceptedAt[m.id := r.clock])
    else after
  }

  function Served(r: Room, order: seq<Id>): Room
    requires r.queue != [] && forall i <- order :: i in r.table
  {
    match Handle(r.table, r.queue[0], order)
    case Panic => r.(panicked := true)
    case Handled(table) => ServedWith(r, r.queue[0], table)
  }

  function Stepped(r: Room, id: Id, step: Step): Room {
    r.(phases := r.phases[id := step.phase], queue := r.queue + step.sent)
  }

  function Act(r: Room, a: Action): Room
    requires Can(r, a)
  {
    match a
    case Connect => Connected(r)
    case Serve(order) => Served(r, order)
    case Receive(id, ok) =>
      var m := r.table[id].sent[r.taken[id]];
      Stepped(r.(taken := r.taken[id := r.taken[id] + 1]), id, Take(r.phases[id], id, m, ok))
    case Enter(id, line) => Stepped(r, id, Hear(r.phases[id], id, line))
  }

  // ----------------------------------------------------- clients and queue

  /** What was sent to a client that it has not yet taken. */
  function Inbox(r: Room, id: Id): seq<ServerMessage>
    requires id in r.table && id in r.taken
  {
    if r.taken[id] <= |r.table[id].sent| then r.table[id].sent[r.taken[id]..] else []
  }

  predicate AllChat(s: seq<ServerMessage>) {
    forall i :: 0 <= i < |s| ==> IsChat(s[i])
  }

  /** The queue of a client fits its phase: every message it can meet next is one it expects. */
  predicate InboxFits(phase: Phase, joined: bool, inbox: seq<ServerMessage>) {
    match phase
    case WaitingWelcome => !joined && inbox == [Welcome]
    case Joining => !joined && inbox == []
    case Asked =>
      if joined then |inbox| >= 2 && inbox[0].UsernameAccepted? && inbox[1].Users? && AllChat(inbox[2..])
      else inbox == [] || inbox == [UsernameInvalid]
    case Entering => joined && |inbox| >= 1 && inbox[0].Users? && AllChat(inbox[1..])
    case Chatting => joined && AllChat(inbox)
    case Gone => true
    case Panicked => false
  }

  predicate ClientOk(r: Room, id: Id)
    requires id in r.phases
  {
    && 1 <= id <= r.nextId
    && id in r.taken
    && (r.phases[id].Gone? || id in r.table)
    && (id in r.table ==>
          r.taken[id] <= |r.table[id].sent| && InboxFits(r.phases[id], IsJoined(r.table, id), Inbox(r, id)))
    && (r.phases[id].Gone? && id in r.table ==> Disconnect(id) in r.queue)
  }

  /** A queued message fits the state of its sender. */
  predicate MessageOk(r: Room, m: ClientMessage) {
    && m.id in r.table && m.id in r.phases && m.id in r.taken
    && var phase, joined := r.phases[m.id], IsJoined(r.table, m.id);
    && match m
       case SetUsername(id, _) => phase.Asked? && !joined && Inbox(r, id) == []
       case Joined(_) => joined && (phase.Entering? || phase.Chatting? || phase.Gone?)
       case Say(_, _) => joined && (phase.Chatting? || phase.Gone?)
       case Disconnect(_) => phase.Gone?
  }

  /** In which order two messages of one client may stand in the queue. */
  predicate MayPrecede(m: ClientMessage, n: ClientMessage) {
    m.id == n.id ==> !m.SetUsername? && !m.Disconnect? && !n.SetUsername? && !n.Joined?
  }

  ghost predicate ClientsOk(r: Room) {
    && r.table.Keys <= r.phases.Keys
    && forall id <- r.phases :: ClientOk(r, id)
  }

  ghost predicate QueueOk(r: Room) {
    && (forall i :: 0 <= i < |r.queue| ==> MessageOk(r, r.queue[i]))
    && (forall i, j :: 0 <= i < j < |r.queue| ==> MayPrecede(r.queue[i], r.queue[j]))
  }

  // ------------------------------------------------------------------ views

  /** `id` has its username but the room has not been told yet. */
  predicate Unannounced(r: Room, id: Id) {
    Joined(id) in r.queue || (id in r.phases && r.phases[id].Asked?)
  }

  /** `c` knows of `d`: `d` is in the room, and unless it came before `c`, it has been announced. */
  predicate Sees(r: Room, c: Id, d: Id) {
    && IsJoined(r.table, d) && d != c
    && c in r.acceptedAt && d in r.acceptedAt
    && (r.acceptedAt[d] < r.acceptedAt[c] || !Unannounced(r, d))
  }

  predicate NameSeen(r: Room, c: Id, n: Name) {
    exists d <- r.table :: Sees(r, c, d) && r.table[d].username == Some(n)
  }

  ghost predicate NamesOk(r: Room) {
    && (forall c <- r.table, d <- r.table ::
          c != d && IsJoined(r.table, c) && IsJoined(r.table, d) ==>
            r.table[c].username != r.table[d].username
            && c in r.acceptedAt && d in r.acceptedAt && r.acceptedAt[c] != r.acceptedAt[d])
    && (forall c <- r.table :: IsJoined(r.table, c) ==> c in r.acceptedAt && r.acceptedAt[c] < r.clock)
  }

  /** Everything a client in the room has been sent adds up to exactly the users it should know of. */
  ghost predicate ViewsOk(r: Room) {
    forall c <- r.table :: IsJoined(r.table, c) ==> forall n :: n in Known(r.table[c].sent) <==> NameSeen(r, c, n)
  }

  ghost predicate Inv(r: Room) {
    && !r.panicked
    && ClientsOk(r)
    && QueueOk(r)
    && NamesOk(r)
    && ViewsOk(r)
  }

  // -------------------------------------------------------- a client's step

  /** Nothing but the client's phase, its position and the end of the queue has changed. */
  predicate OwnStep(r: Room, r': Room, id: Id, step: Step) {
    && id in r.phases && id in r.taken && id in r'.taken
    && r' == r.(phases := r.phases[id := step.phase], taken := r.taken[id := r'.taken[id]], queue := r.queue + step.sent)
  }

  /** What a client may send, and where that leaves it. */
  ghost predicate StepOk(r: Room, r': Room, id: Id, step: Step) {
    && OwnStep(r, r', id, step)
    && id in r.table
    && r'.taken[id] <= |r.table[id].sent|
    && InboxFits(step.phase, IsJoined(r.table, id), Inbox(r', id))
    && (forall m <- r.queue :: m.id == id ==> MessageOk(r', m) && !m.SetUsername? && !m.Disconnect?)
    && (IsJoined(r.table, id) ==> (Unannounced(r, id) <==> Unannounced(r', id)))
    && if step.sent == [] then !step.phase.Gone?
       else
         && |step.sent| == 1 && step.sent[0].id == id && MessageOk(r', step.sent[0])
         && (step.phase.Gone? ==> step.sent[0].Disconnect?)
         && (step.sent[0].Joined? || step.sent[0].SetUsername? ==> forall m <- r.queue :: m.id != id)
  }

  lemma StepKeepsQueue(r: Room, r': Room, id: Id, step: Step)
    requires QueueOk(r) && StepOk(r, r', id, step)
    ensures QueueOk(r')
  {
    forall i | 0 <= i < |r'.queue|
      ensures MessageOk(r', r'.queue[i])
    {
      if i < |r.queue| {
        assert r'.queue[i] == r.queue[i] && r.queue[i] in r.queue && MessageOk(r, r.queue[i]);
      }
    }
    forall i, j | 0 <= i < j < |r'.queue|
      ensures MayPrecede(r'.queue[i], r'.queue[j])
    {
      if j < |r.queue| {
        assert MayPrecede(r.queue[i], r.queue[j]);
      } else {
        assert r'.queue[i] == r.queue[i] && r.queue[i] in r.queue && r'.queue[j] == step.sent[0];
      }
    }
  }

  lemma StepKeepsClients(r: Room, r': Room, id: Id, step: Step)
    requires ClientsOk(r) && StepOk(r, r', id, step)
    ensures ClientsOk(r')
  {
    forall c <- r'.phases
      ensures ClientOk(r', c)
    {
      assert ClientOk(r, c);
      if c == id && step.phase.Gone? {
        assert r'.queue[|r.queue|] == Disconnect(id);
      }
    }
  }

  lemma StepKeepsSees(r: Room, r': Room, id: Id, step: Step, c: Id, d: Id)
    requires StepOk(r, r', id, step)
    ensures Sees(r, c, d) == Sees(r', c, d)
  {
    if d != id {
      assert forall m <- step.sent :: m.id == id;
      assert Joined(d) in r'.queue <==> Joined(d) in r.queue;
    }
  }

  lemma StepKeepsViews(r: Room, r': Room, id: Id, step: Step)
    requires ViewsOk(r) && StepOk(r, r', id, step)
    ensures ViewsOk(r')
  {
    hide Sees, StepOk;
    assert r'.table == r.table by { StepIsOwn(r, r', id, step); }
    forall c <- r.table, n: Name | IsJoined(r.table, c)
      ensures NameSeen(r, c, n) == NameSeen(r', c, n)
    {
      forall d: Id ensures Sees(r, c, d) == Sees(r', c, d) { StepKeepsSees(r, r', id, step, c, d); }
    }
  }

  lemma StepIsOwn(r: Room, r': Room, id: Id, step: Step)
    requires StepOk(r, r', id, step)
    ensures OwnStep(r, r', id, step)
  {
  }

  lemma StepKeepsInv(r: Room, r': Room, id: Id, step: Step)
    requires Inv(r) && StepOk(r, r', id, step)
    ensures Inv(r')
  {
    StepKeepsQueue(r, r', id, step);
    StepKeepsClients(r, r', id, step);
    StepKeepsViews(r, r', id, step);
  }

  /** A client that expects a message has none of its own waiting, unless it is already chatting. */
  lemma QuietUnlessChatting(r: Room, id: Id, m: ClientMessage)
    requires Inv(r) && id in r.phases && m in r.queue && m.id == id
    ensures MessageOk(r, m)
    ensures r.phases[id].Asked? || r.phases[id].Entering? || r.phases[id].Chatting? || r.phases[id].Gone?
  {
    var i :| 0 <= i < |r.queue| && r.queue[i] == m;
    assert MessageOk(r, r.queue[i]);
  }

  lemma InboxAdvances(r: Room, id: Id)
    requires id in r.table && id in r.taken && r.taken[id] < |r.table[id].sent|
    ensures var r' := r.(taken := r.taken[id := r.taken[id] + 1]);
      Inbox(r, id) != [] && Inbox(r, id)[0] == r.table[id].sent[r.taken[id]] && Inbox(r', id) == Inbox(r, id)[1..]
  {
  }

  lemma ReceiveOk(r: Room, id: Id, ok: bool)
    requires Inv(r) && Can(r, Receive(id, ok))
    ensures var step := Take(r.phases[id], id, r.table[id].sent[r.taken[id]], ok);
      StepOk(r, Act(r, Receive(id, ok)), id, step)
  {
    assert ClientOk(r, id);
    InboxAdvances(r, id);
    var inbox := Inbox(r, id);
    var r' := Act(r, Receive(id, ok));
    var step := Take(r.phases[id], id, inbox[0], ok);
    assert Inbox(r', id) == inbox[1..];
    forall m <- r.queue | m.id == id
      ensures MessageOk(r', m) && !m.SetUsername? && !m.Disconnect?
      ensures r.phases[id].Chatting? || r.phases[id].Entering?
    {
      QuietUnlessChatting(r, id, m);
    }
    if step.sent != [] {
      assert r'.queue[|r.queue|] == step.sent[0];
    }
    if r.phases[id].Asked? && IsJoined(r.table, id) {
      assert inbox[1..][1..] == inbox[2..];
    }
  }

  lemma EnterOk(r: Room, id: Id, line: Option<string>)
    requires Inv(r) && Can(r, Enter(id, line))
    ensures StepOk(r, Act(r, Enter(id, line)), id, Hear(r.phases[id], id, line))
  {
    assert ClientOk(r, id);
    var r' := Act(r, Enter(id, line));
    assert r'.taken == r.taken;
    forall m <- r.queue | m.id == id
      ensures MessageOk(r', m) && !m.SetUsername? && !m.Disconnect? && r.phases[id].Chatting?
    {
      QuietUnlessChatting(r, id, m);
    }
    var step := Hear(r.phases[id], id, line);
    assert r'.queue[|r.queue|] == step.sent[0];
  }

  // ------------------------------------------------------ the server's step

  lemma KnownAfter(told: seq<ServerMessage>, m: ServerMessage)
    ensures Known(told + [m]) == Learn(Known(told), m)
  {
    assert (told + [m])[..|told|] == told;
  }

  lemma {:induction false} OtherNamesExact(table: Table, id: Id, order: seq<Id>)
    requires forall i <- order :: i in table
    ensures forall n :: n in OtherNames(table, id, order) <==>
              exists i <- order :: i != id && table[i].username == Some(n)
  {
    if order != [] {
      var init, last := order[..|order| - 1], order[|order| - 1];
      OtherNamesExact(table, id, init);
      assert order == init + [last];
      assert forall i :: i in order <==> i in init || i == last;
    }
  }

  /** The queue without its first message, which never concerns a later message of the same client wrongly. */
  lemma HeadServed(r: Room)
    requires QueueOk(r) && r.queue != []
    ensures MessageOk(r, r.queue[0])
    ensures forall m <- r.queue[1..] :: MessageOk(r, m) && MayPrecede(r.queue[0], m)
    ensures forall i, j :: 0 <= i < j < |r.queue[1..]| ==> MayPrecede(r.queue[1..][i], r.queue[1..][j])
  {
    forall m <- r.queue[1..]
      ensures MessageOk(r, m) && MayPrecede(r.queue[0], m)
    {
      var i :| 0 <= i < |r.queue[1..]| && r.queue[1..][i] == m;
      assert MessageOk(r, r.queue[i + 1]) && MayPrecede(r.queue[0], r.queue[i + 1]);
    }
    forall i, j | 0 <= i < j < |r.queue[1..]|
      ensures MayPrecede(r.queue[1..][i], r.queue[1..][j])
    {
      assert MayPrecede(r.queue[i + 1], r.queue[j + 1]);
    }
  }

  /** Only the head has left the queue. */
  lemma OthersStayQueued(r: Room, m: ClientMessage)
    requires r.queue != [] && m != r.queue[0]
    ensures m in r.queue[1..] <==> m in r.queue
  {
    assert r.queue == [r.queue[0]] + r.queue[1..];
  }

  lemma InboxGrows(phase: Phase, inbox: seq<ServerMessage>, m: ServerMessage)
    requires IsChat(m) && InboxFits(phase, true, inbox)
    ensures InboxFits(phase, true, inbox + [m])
  {
    if phase.Asked? {
      assert (inbox + [m])[2..] == inbox[2..] + [m];
    } else if phase.Entering? {
      assert (inbox + [m])[1..] == inbox[1..] + [m];
    }
  }

  lemma BroadcastInbox(r: Room, table: Table, id: Id, m: ServerMessage, c: Id)
    requires IsChat(m) && c in r.table && c in r.phases && ClientOk(r, c)
    requires table == Broadcast(r.table, id, m)
    ensures c in table && IsJoined(table, c) == IsJoined(r.table, c)
    ensures r.taken[c] <= |table[c].sent|
    ensures InboxFits(r.phases[c], IsJoined(table, c), Inbox(r.(table := table), c))
    ensures !IsJoined(r.table, c) ==> Inbox(r.(table := table), c) == Inbox(r, c)
  {
    hide InboxFits;
    if IsJoined(r.table, c) && c != id {
      var sent, k := r.table[c].sent, r.taken[c];
      assert (sent + [m])[k..] == sent[k..] + [m];
      InboxGrows(r.phases[c], Inbox(r, c), m);
    }
  }

  /** After a broadcast, with the head of the queue gone, clients and queue still fit. */
  lemma BroadcastKeeps(r: Room, id: Id, m: ServerMessage)
    requires ClientsOk(r) && QueueOk(r) && r.queue != [] && !r.queue[0].Disconnect? && IsChat(m)
    ensures var r' := r.(table := Broadcast(r.table, id, m), queue := r.queue[1..]);
      ClientsOk(r') && QueueOk(r')
  {
    var table := Broadcast(r.table, id, m);
    var r' := r.(table := table, queue := r.queue[1..]);
    HeadServed(r);
    forall c <- r'.phases
      ensures ClientOk(r', c)
    {
      assert ClientOk(r, c);
      if c in r.table {
        BroadcastInbox(r, table, id, m, c);
        OthersStayQueued(r, Disconnect(c));
      }
    }
    forall q <- r'.queue
      ensures MessageOk(r', q)
    {
      assert MessageOk(r, q) && ClientOk(r, q.id);
      BroadcastInbox(r, table, id, m, q.id);
    }
  }

  /** A client's knowledge follows the room when both change by the same message. */
  lemma NameSeenSame(r: Room, r': Room, c: Id, n: Name)
    requires forall d: Id :: Sees(r', c, d) <==> Sees(r, c, d)
    requires forall d: Id :: Sees(r, c, d) ==> d in r.table && d in r'.table && r'.table[d].username == r.table[d].username
    ensures NameSeen(r', c, n) <==> NameSeen(r, c, n)
  {
    hide Sees;
    if NameSeen(r, c, n) {
      var d :| d in r.table && Sees(r, c, d) && r.table[d].username == Some(n);
      assert d in r'.table && Sees(r', c, d) && r'.table[d].username == Some(n);
    }
    if NameSeen(r', c, n) {
      var d :| d in r'.table && Sees(r', c, d) && r'.table[d].username == Some(n);
      assert d in r.table && Sees(r, c, d) && r.table[d].username == Some(n);
    }
  }

  // Say.

  /** `table` is what is left when the others in the room than `id` have been told `news`. */
  ghost predicate ToldBy(r: Room, id: Id, news: ServerMessage, table: Table) {
    table.Keys == r.table.Keys && forall c <- table :: table[c] == Told(r.table, id, news, c)
  }

  lemma SayKeepsViews(r: Room, r': Room, relay: ServerMessage)
    requires ViewsOk(r) && r.queue != [] && r.queue[0].Say? && relay.Relay?
    requires ToldBy(r, r.queue[0].id, relay, r'.table) && r' == r.(table := r'.table, queue := r.queue[1..])
    ensures ViewsOk(r')
  {
    forall c <- r'.table, n: Name | IsJoined(r'.table, c)
      ensures n in Known(r'.table[c].sent) <==> NameSeen(r', c, n)
    {
      KnownAfter(r.table[c].sent, relay);
      forall d: Id ensures Sees(r', c, d) == Sees(r, c, d) { OthersStayQueued(r, Joined(d)); }
      NameSeenSame(r, r', c, n);
      assert n in Known(r.table[c].sent) <==> NameSeen(r, c, n);
    }
  }

  lemma BroadcastKeepsNames(r: Room, id: Id, m: ServerMessage)
    requires NamesOk(r)
    ensures NamesOk(r.(table := Broadcast(r.table, id, m)))
  {
  }

  lemma SayKeepsInv(r: Room)
    requires Inv(r) && r.queue != [] && r.queue[0].Say?
    requires IsJoined(r.table, r.queue[0].id)
    ensures var m := r.queue[0];
      Inv(r.(table := Broadcast(r.table, m.id, Relay(r.table[m.id].username.value, m.text)), queue := r.queue[1..]))
  {
    hide ClientsOk, QueueOk, ViewsOk, NameSeen;
    var m := r.queue[0];
    var relay := Relay(r.table[m.id].username.value, m.text);
    BroadcastKeeps(r, m.id, relay);
    SayKeepsViews(r, r.(table := Broadcast(r.table, m.id, relay), queue := r.queue[1..]), relay);
    BroadcastKeepsNames(r, m.id, relay);
  }

  // Joined.

  lemma AnnouncedSees(r: Room, r': Room, c: Id, d: Id)
    requires Inv(r) && r.queue != [] && r.queue[0].Joined? && c in r.acceptedAt
    requires r'.queue == r.queue[1..] && r'.acceptedAt == r.acceptedAt && r'.phases == r.phases
    requires forall i :: IsJoined(r'.table, i) == IsJoined(r.table, i)
    ensures Sees(r', c, d) <==> Sees(r, c, d) || (d == r.queue[0].id && d != c)
  {
    HeadServed(r);
    var id := r.queue[0].id;
    assert MessageOk(r, r.queue[0]);
    if d != id {
      OthersStayQueued(r, Joined(d));
    } else {
      assert Joined(id) !in r.queue[1..];
    }
  }

  /** The room after the announcement of `name`, which belongs to the head of the queue. */
  ghost predicate Announced(r: Room, r': Room, name: Name) {
    && r.queue != [] && r.queue[0].Joined?
    && r.queue[0].id in r.table && r.table[r.queue[0].id].username == Some(name)
    && ToldBy(r, r.queue[0].id, AnnounceUser(name), r'.table)
    && r' == r.(table := r'.table, queue := r.queue[1..])
  }

  lemma AnnouncedTo(r: Room, r': Room, name: Name, c: Id)
    requires Announced(r, r', name) && c in r'.table && IsJoined(r'.table, c)
    ensures IsJoined(r.table, c)
    ensures r'.table[c].sent == if c != r.queue[0].id then r.table[c].sent + [AnnounceUser(name)] else r.table[c].sent
  {
  }

  lemma AnnouncedSeen(r: Room, r': Room, name: Name, c: Id, n: Name)
    requires Inv(r) && Announced(r, r', name) && c in r'.table && IsJoined(r'.table, c)
    ensures NameSeen(r', c, n) <==> NameSeen(r, c, n) || (r.queue[0].id != c && n == name)
  {
    hide Sees, NameSeen, QueueOk, ClientsOk, ViewsOk;
    var id := r.queue[0].id;
    AnnouncedTo(r, r', name, c);
    forall d: Id
      ensures Sees(r', c, d) <==> Sees(r, c, d) || (d == id && d != c)
    {
      AnnouncedSees(r, r', c, d);
    }
    NameSeenMore(r, r', c, n, id);
  }

  lemma ViewOf(r: Room, c: Id, n: Name)
    requires ViewsOk(r) && IsJoined(r.table, c)
    ensures n in Known(r.table[c].sent) <==> NameSeen(r, c, n)
  {
    hide NameSeen, Known;
  }

  lemma JoinedKeepsViews(r: Room, r': Room, name: Name)
    requires Inv(r) && Announced(r, r', name)
    ensures ViewsOk(r')
  {
    hide NameSeen, Known, QueueOk, ClientsOk, NamesOk, Announced;
    forall c <- r'.table, n: Name | IsJoined(r'.table, c)
      ensures n in Known(r'.table[c].sent) <==> NameSeen(r', c, n)
    {
      AnnouncedTo(r, r', name, c);
      KnownAfter(r.table[c].sent, AnnounceUser(name));
      AnnouncedSeen(r, r', name, c, n);
      ViewOf(r, c, n);
    }
  }

  lemma NameSeenMore(r: Room, r': Room, c: Id, n: Name, id: Id)
    requires forall d: Id :: Sees(r', c, d) <==> Sees(r, c, d) || (d == id && d != c)
    requires r.table.Keys == r'.table.Keys && id in r.table
    requires forall d <- r.table :: r'.table[d].username == r.table[d].username
    ensures NameSeen(r', c, n) <==> NameSeen(r, c, n) || (id != c && r.table[id].username == Some(n))
  {
    hide Sees;
    if NameSeen(r, c, n) {
      var d :| d in r.table && Sees(r, c, d) && r.table[d].username == Some(n);
      assert d in r'.table && Sees(r', c, d) && r'.table[d].username == Some(n);
    }
    if NameSeen(r', c, n) {
      var d :| d in r'.table && Sees(r', c, d) && r'.table[d].username == Some(n);
      assert d == id || (d in r.table && Sees(r, c, d) && r.table[d].username == Some(n));
    }
    if id != c && r.table[id].username == Some(n) {
      assert id in r'.table && Sees(r', c, id) && r'.table[id].username == Some(n);
    }
  }

  lemma JoinedKeepsInv(r: Room)
    requires Inv(r) && r.queue != [] && r.queue[0].Joined?
    requires IsJoined(r.table, r.queue[0].id)
    ensures var m := r.queue[0];
      Inv(r.(table := Broadcast(r.table, m.id, AnnounceUser(r.table[m.id].username.value)), queue := r.queue[1..]))
  {
    hide ClientsOk, QueueOk, ViewsOk, NamesOk, NameSeen;
    var id := r.queue[0].id;
    var name := r.table[id].username.value;
    var table := Broadcast(r.table, id, AnnounceUser(name));
    BroadcastKeeps(r, id, AnnounceUser(name));
    JoinedKeepsViews(r, r.(table := table, queue := r.queue[1..]), name);
    BroadcastKeepsNames(r, id, AnnounceUser(name));
    SameNames(r.(table := table), r.(table := table, queue := r.queue[1..]));
  }

  // Disconnect.

  /** `table` is what is left when `id` has gone and the others in the room have been told `news`, if any. */
  ghost predicate LeftBy(r: Room, id: Id, news: Option<ServerMessage>, table: Table) {
    && (forall c :: c in table <==> c in r.table && c != id)
    && forall c <- table ::
         table[c] == if news.Some? && IsJoined(r.table, c) then r.table[c].(sent := r.table[c].sent + [news.value])
                     else r.table[c]
  }

  lemma LeftKeepsClients(r: Room, r': Room, news: Option<ServerMessage>)
    requires ClientsOk(r) && QueueOk(r) && r.queue != [] && r.queue[0].Disconnect?
    requires news.Some? ==> IsChat(news.value)
    requires LeftBy(r, r.queue[0].id, news, r'.table) && r' == r.(table := r'.table, queue := r.queue[1..])
    ensures ClientsOk(r') && QueueOk(r')
  {
    hide MessageOk, InboxFits;
    HeadServed(r);
    forall c <- r.phases
      ensures ClientOk(r', c)
    {
      LeftClient(r, r', news, c);
    }
    forall q <- r'.queue
      ensures MessageOk(r', q)
    {
      LeftMessage(r, r', news, q);
    }
  }

  lemma LeftClient(r: Room, r': Room, news: Option<ServerMessage>, c: Id)
    requires r.queue != [] && r.queue[0].Disconnect? && c in r.phases && ClientOk(r, c)
    requires MessageOk(r, r.queue[0])
    requires news.Some? ==> IsChat(news.value)
    requires LeftBy(r, r.queue[0].id, news, r'.table) && r' == r.(table := r'.table, queue := r.queue[1..])
    ensures ClientOk(r', c)
  {
    hide InboxFits;
    if c in r'.table {
      OthersStayQueued(r, Disconnect(c));
      if news.Some? && IsJoined(r.table, c) {
        var sent, k := r.table[c].sent, r.taken[c];
        assert (sent + [news.value])[k..] == sent[k..] + [news.value];
        InboxGrows(r.phases[c], Inbox(r, c), news.value);
      }
    }
  }

  lemma LeftMessage(r: Room, r': Room, news: Option<ServerMessage>, q: ClientMessage)
    requires r.queue != [] && r.queue[0].Disconnect?
    requires MessageOk(r, q) && MayPrecede(r.queue[0], q)
    requires LeftBy(r, r.queue[0].id, news, r'.table) && r' == r.(table := r'.table, queue := r.queue[1..])
    ensures MessageOk(r', q)
  {
  }

  lemma LeftSees(r: Room, r': Room, c: Id, d: Id)
    requires r.queue != [] && r.queue[0].Disconnect?
    requires r'.queue == r.queue[1..] && r'.acceptedAt == r.acceptedAt && r'.phases == r.phases
    requires forall i :: IsJoined(r'.table, i) <==> IsJoined(r.table, i) && i != r.queue[0].id
    ensures Sees(r', c, d) <==> Sees(r, c, d) && d != r.queue[0].id
  {
    OthersStayQueued(r, Joined(d));
  }

  lemma NameSeenLess(r: Room, r': Room, c: Id, n: Name, id: Id)
    requires forall d: Id :: Sees(r', c, d) <==> Sees(r, c, d) && d != id
    requires r'.table.Keys == r.table.Keys - {id}
    requires forall d <- r'.table :: r'.table[d].username == r.table[d].username
    requires id in r.table && forall d <- r'.table :: r.table[id].username.Some? ==> r.table[d].username != r.table[id].username
    ensures NameSeen(r', c, n) <==> NameSeen(r, c, n) && r.table[id].username != Some(n)
  {
    hide Sees;
    if NameSeen(r, c, n) && r.table[id].username != Some(n) {
      var d :| d in r.table && Sees(r, c, d) && r.table[d].username == Some(n);
      assert d in r'.table && Sees(r', c, d) && r'.table[d].username == Some(n);
    }
    if NameSeen(r', c, n) {
      var d :| d in r'.table && Sees(r', c, d) && r'.table[d].username == Some(n);
      assert d in r.table && Sees(r, c, d) && r.table[d].username == Some(n);
    }
  }

  /** The names of clients in the room differ. */
  lemma NamesDiffer(r: Room, id: Id)
    requires NamesOk(r) && IsJoined(r.table, id)
    ensures forall d <- r.table :: d != id ==> r.table[d].username != r.table[id].username
  {
  }

  lemma DisconnectKeepsViews(r: Room, r': Room, name: Name)
    requires NamesOk(r) && ViewsOk(r) && r.queue != [] && r.queue[0].Disconnect?
    requires r.queue[0].id in r.table && r.table[r.queue[0].id].username == Some(name)
    requires LeftBy(r, r.queue[0].id, Some(Disconnected(name)), r'.table)
    requires r' == r.(table := r'.table, queue := r.queue[1..])
    ensures ViewsOk(r')
  {
    hide Sees, NamesOk;
    var id := r.queue[0].id;
    NamesDiffer(r, id);
    assert r'.table.Keys == r.table.Keys - {id};
    forall c <- r'.table, n: Name | IsJoined(r'.table, c)
      ensures n in Known(r'.table[c].sent) <==> NameSeen(r', c, n)
    {
      KnownAfter(r.table[c].sent, Disconnected(name));
      forall d: Id ensures Sees(r', c, d) <==> Sees(r, c, d) && d != id { LeftSees(r, r', c, d); }
      NameSeenLess(r, r', c, n, id);
      assert n in Known(r.table[c].sent) <==> NameSeen(r, c, n);
    }
  }

  lemma SilentDisconnectKeepsViews(r: Room, r': Room)
    requires ViewsOk(r) && r.queue != [] && r.queue[0].Disconnect?
    requires r.queue[0].id in r.table && !IsJoined(r.table, r.queue[0].id)
    requires LeftBy(r, r.queue[0].id, None, r'.table)
    requires r' == r.(table := r'.table, queue := r.queue[1..])
    ensures ViewsOk(r')
  {
    hide Sees;
    var id := r.queue[0].id;
    assert r'.table.Keys == r.table.Keys - {id};
    forall c <- r'.table, n: Name | IsJoined(r'.table, c)
      ensures n in Known(r'.table[c].sent) <==> NameSeen(r', c, n)
    {
      forall d: Id ensures Sees(r', c, d) <==> Sees(r, c, d) && d != id { LeftSees(r, r', c, d); }
      NameSeenLess(r, r', c, n, id);
      assert n in Known(r.table[c].sent) <==> NameSeen(r, c, n);
    }
  }

  lemma RemoveKeepsNames(r: Room, r': Room, id: Id, news: Option<ServerMessage>)
    requires NamesOk(r) && LeftBy(r, id, news, r'.table)
    requires r'.acceptedAt == r.acceptedAt && r'.clock == r.clock
    ensures NamesOk(r')
  {
  }

  lemma DisconnectKeepsInv(r: Room)
    requires Inv(r) && r.queue != [] && r.queue[0].Disconnect?
    requires IsJoined(r.table, r.queue[0].id)
    ensures var m := r.queue[0];
      Inv(r.(table := Broadcast(r.table, m.id, Disconnected(r.table[m.id].username.value)) - {m.id}, queue := r.queue[1..]))
  {
    hide ClientsOk, QueueOk, ViewsOk, NameSeen, NamesOk;
    var id := r.queue[0].id;
    var name := r.table[id].username.value;
    var r' := r.(table := Broadcast(r.table, id, Disconnected(name)) - {id}, queue := r.queue[1..]);
    LeftKeepsClients(r, r', Some(Disconnected(name)));
    DisconnectKeepsViews(r, r', name);
    RemoveKeepsNames(r, r', id, Some(Disconnected(name)));
  }

  lemma SilentDisconnectKeepsInv(r: Room)
    requires Inv(r) && r.queue != [] && r.queue[0].Disconnect?
    requires r.queue[0].id in r.table && !IsJoined(r.table, r.queue[0].id)
    ensures Inv(r.(table := r.table - {r.queue[0].id}, queue := r.queue[1..]))
  {
    hide ClientsOk, QueueOk, ViewsOk, NameSeen, NamesOk;
    var id := r.queue[0].id;
    var r' := r.(table := r.table - {id}, queue := r.queue[1..]);
    LeftKeepsClients(r, r', None);
    SilentDisconnectKeepsViews(r, r');
    RemoveKeepsNames(r, r', id, None);
  }

  // SetUsername.

  /** The table after a message to one client alone. */
  lemma ToOneKeeps(r: Room, info: Info)
    requires ClientsOk(r) && QueueOk(r) && r.queue != [] && r.queue[0].SetUsername?
    requires var id := r.queue[0].id;
      && id in r.table && id in r.phases && id in r.taken
      && if info.username.None? then info.sent == r.table[id].sent + [UsernameInvalid]
         else exists names :: info.sent == r.table[id].sent + [UsernameAccepted] + [Users(names)]
    ensures var r' := r.(table := r.table[r.queue[0].id := info], queue := r.queue[1..]); ClientsOk(r') && QueueOk(r')
  {
    var id := r.queue[0].id;
    var r' := r.(table := r.table[id := info], queue := r.queue[1..]);
    HeadServed(r);
    assert MessageOk(r, r.queue[0]) && ClientOk(r, id);
    assert r.taken[id] == |r.table[id].sent|;
    assert Inbox(r', id) == info.sent[|r.table[id].sent|..];
    forall c <- r'.phases
      ensures ClientOk(r', c)
    {
      assert ClientOk(r, c);
      OthersStayQueued(r, Disconnect(c));
    }
    forall q <- r'.queue
      ensures MessageOk(r', q)
    {
      assert MessageOk(r, q) && q.id != id;
    }
  }

  lemma InvalidKeepsViews(r: Room, info: Info)
    requires ViewsOk(r) && r.queue != [] && r.queue[0].SetUsername?
    requires r.queue[0].id in r.table && !IsJoined(r.table, r.queue[0].id) && info.username.None?
    ensures ViewsOk(r.(table := r.table[r.queue[0].id := info], queue := r.queue[1..]))
  {
    var id := r.queue[0].id;
    var r' := r.(table := r.table[id := info], queue := r.queue[1..]);
    forall c <- r'.table, n: Name | IsJoined(r'.table, c)
      ensures n in Known(r'.table[c].sent) <==> NameSeen(r', c, n)
    {
      forall d: Id ensures Sees(r', c, d) == Sees(r, c, d) { OthersStayQueued(r, Joined(d)); }
      NameSeenSame(r, r', c, n);
      assert n in Known(r.table[c].sent) <==> NameSeen(r, c, n);
    }
  }

  lemma InvalidKeepsInv(r: Room)
    requires Inv(r) && r.queue != [] && r.queue[0].SetUsername?
    ensures r.queue[0].id in r.table && !IsJoined(r.table, r.queue[0].id)
    ensures Inv(r.(table := Push(r.table, r.queue[0].id, UsernameInvalid), queue := r.queue[1..]))
  {
    hide ClientsOk, ViewsOk, NamesOk, NameSeen, QueueOk;
    var id := r.queue[0].id;
    HeadServed(r);
    var info := r.table[id].(sent := r.table[id].sent + [UsernameInvalid]);
    ToOneKeeps(r, info);
    InvalidKeepsViews(r, info);
    UnnamedKeepsNames(r, r.(table := r.table[id := info], queue := r.queue[1..]), id, info);
  }

  lemma UnnamedKeepsNames(r: Room, r': Room, id: Id, info: Info)
    requires NamesOk(r) && info.username.None? && r'.table == r.table[id := info]
    requires r'.clock == r.clock && r'.acceptedAt == r.acceptedAt
    ensures NamesOk(r')
  {
    assert forall c <- r'.table :: IsJoined(r'.table, c) ==> c in r.table && r'.table[c] == r.table[c];
  }

  lemma NamedSees(r: Room, r': Room, c: Id, d: Id)
    requires NamesOk(r) && r.queue != [] && r.queue[0].SetUsername?
    requires var id := r.queue[0].id;
      && id in r.table && id in r.phases && r.phases[id].Asked? && !IsJoined(r.table, id)
      && r'.queue == r.queue[1..] && r'.phases == r.phases && r'.acceptedAt == r.acceptedAt[id := r.clock]
      && (forall i :: IsJoined(r'.table, i) <==> IsJoined(r.table, i) || i == id)
    requires IsJoined(r'.table, c)
    ensures c != r.queue[0].id ==> (Sees(r', c, d) <==> Sees(r, c, d))
    ensures c == r.queue[0].id ==> (Sees(r', c, d) <==> IsJoined(r.table, d))
  {
    OthersStayQueued(r, Joined(d));
  }

  lemma NamedViews(r: Room, r': Room, names: seq<Name>, name: Name)
    requires ViewsOk(r) && NamesOk(r) && r.queue != [] && r.queue[0].SetUsername?
    requires var id := r.queue[0].id;
      && id in r.table && id in r.phases && r.phases[id].Asked? && !IsJoined(r.table, id)
      && r' == r.(table := r.table[id := Info(Some(name), r.table[id].sent + [UsernameAccepted] + [Users(names)])],
                  queue := r.queue[1..], clock := r.clock + 1, acceptedAt := r.acceptedAt[id := r.clock])
      && forall n :: n in names <==> exists c <- r.table :: c != id && r.table[c].username == Some(n)
    ensures ViewsOk(r')
  {
    hide Sees, NamesOk;
    var id := r.queue[0].id;
    forall c <- r'.table, n: Name | IsJoined(r'.table, c)
      ensures n in Known(r'.table[c].sent) <==> NameSeen(r', c, n)
    {
      forall d: Id
        ensures c != id ==> (Sees(r', c, d) <==> Sees(r, c, d))
        ensures c == id ==> (Sees(r', c, d) <==> IsJoined(r.table, d))
      {
        NamedSees(r, r', c, d);
      }
      if c == id {
        KnownAfter(r.table[id].sent + [UsernameAccepted], Users(names));
        NewcomerSees(r, r', id, n);
      } else {
        SeenAreJoined(r, c);
        NameSeenSame(r, r', c, n);
        assert n in Known(r.table[c].sent) <==> NameSeen(r, c, n);
      }
    }
  }

  lemma SeenAreJoined(r: Room, c: Id)
    ensures forall d: Id :: Sees(r, c, d) ==> IsJoined(r.table, d)
  {
  }

  lemma NewcomerSees(r: Room, r': Room, id: Id, n: Name)
    requires id in r.table && !IsJoined(r.table, id)
    requires forall d: Id :: Sees(r', id, d) <==> IsJoined(r.table, d)
    requires r'.table.Keys == r.table.Keys && forall d <- r.table :: d != id ==> r'.table[d] == r.table[d]
    ensures NameSeen(r', id, n) <==> exists c <- r.table :: c != id && r.table[c].username == Some(n)
  {
    hide Sees;
    if c: Id :| c in r.table && c != id && r.table[c].username == Some(n) {
      assert c in r'.table && Sees(r', id, c) && r'.table[c].username == Some(n);
    }
    if NameSeen(r', id, n) {
      var d :| d in r'.table && Sees(r', id, d) && r'.table[d].username == Some(n);
      assert d in r.table && d != id && r.table[d].username == Some(n);
    }
  }

  lemma NamedNames(r: Room, id: Id, name: Name, info: Info)
    requires NamesOk(r) && UsernameValid(r.table, name) && id in r.table && !IsJoined(r.table, id) && info.username == Some(name)
    ensures NamesOk(r.(table := r.table[id := info], clock := r.clock + 1, acceptedAt := r.acceptedAt[id := r.clock]))
  {
  }

  /** Another client in the walk, with its name. */
  lemma WalkedNames(table: Table, id: Id, order: seq<Id>, named: Table)
    requires WalksAll(order, table) && id in table && !IsJoined(table, id)
    requires named.Keys == table.Keys && forall c <- table :: c != id ==> named[c] == table[c]
    ensures forall n :: n in OtherNames(named, id, order) <==> exists c <- table :: c != id && table[c].username == Some(n)
  {
    OtherNamesExact(named, id, order);
    forall n: Name
      ensures n in OtherNames(named, id, order) <==> exists c <- table :: c != id && table[c].username == Some(n)
    {
      if c: Id :| c in table && c != id && table[c].username == Some(n) {
        assert c in order && named[c].username == Some(n);
      }
    }
  }

  lemma NamedKeepsInv(r: Room, order: seq<Id>)
    requires Inv(r) && r.queue != [] && r.queue[0].SetUsername? && WalksAll(order, r.table)
    requires UsernameValid(r.table, r.queue[0].name)
    ensures Handle(r.table, r.queue[0], order).Handled? && Inv(Served(r, order))
  {
    hide ClientsOk, ViewsOk, NamesOk, NameSeen;
    var m := r.queue[0];
    var id := m.id;
    HeadServed(r);
    var named := r.table[id := r.table[id].(username := Some(m.name))];
    var accepted := Push(named, id, UsernameAccepted);
    var names := OtherNames(accepted, id, order);
    var info := Info(Some(m.name), r.table[id].sent + [UsernameAccepted] + [Users(names)]);
    assert Served(r, order) == r.(table := r.table[id := info], queue := r.queue[1..],
                                  clock := r.clock + 1, acceptedAt := r.acceptedAt[id := r.clock]) by {
      assert Handle(r.table, m, order) == Handled(r.table[id := info]);
    }
    WalkedNames(r.table, id, order, accepted);
    ToOneKeeps(r, info);
    NamedNames(r, id, m.name, info);
    NamedViews(r, Served(r, order), names, m.name);
    SameClients(r.(table := r.table[id := info], queue := r.queue[1..]), Served(r, order));
    assert NamesOk(Served(r, order)) by {
      SameNames(r.(table := r.table[id := info], clock := r.clock + 1, acceptedAt := r.acceptedAt[id := r.clock]),
                Served(r, order));
    }
  }

  lemma SameClients(r: Room, r': Room)
    requires ClientsOk(r) && QueueOk(r) && r' == r.(clock := r'.clock, acceptedAt := r'.acceptedAt)
    ensures ClientsOk(r') && QueueOk(r')
  {
    assert forall c <- r.phases :: ClientOk(r, c) ==> ClientOk(r', c);
    assert forall m: ClientMessage :: MessageOk(r, m) ==> MessageOk(r', m);
  }

  lemma SameNames(r: Room, r': Room)
    requires NamesOk(r) && r'.table == r.table && r'.clock == r.clock && r'.acceptedAt == r.acceptedAt
    ensures NamesOk(r')
  {
  }

  // ------------------------------------------------------------ every step

  lemma ServeKeepsInv(r: Room, order: seq<Id>)
    requires Inv(r) && Can(r, Serve(order))
    ensures Handle(r.table, r.queue[0], order).Handled? && Inv(Served(r, order))
  {
    hide ClientsOk, ViewsOk, NamesOk, Sees, UsernameValid;
    var m := r.queue[0];
    HeadServed(r);
    match m
    case SetUsername(id, name) =>
      if UsernameValid(r.table, name) {
        NamedKeepsInv(r, order);
      } else {
        InvalidKeepsInv(r);
      }
    case Joined(_) => JoinedKeepsInv(r);
    case Say(_, _) => SayKeepsInv(r);
    case Disconnect(id) =>
      if IsJoined(r.table, id) {
        DisconnectKeepsInv(r);
      } else {
        SilentDisconnectKeepsInv(r);
      }
  }

  lemma FreshId(r: Room)
    requires ClientsOk(r)
    ensures r.nextId + 1 !in r.phases && r.nextId + 1 !in r.table
  {
    forall c <- r.phases
      ensures c != r.nextId + 1
    {
      assert ClientOk(r, c);
    }
  }

  lemma ConnectKeepsViews(r: Room)
    requires ViewsOk(r) && r.nextId + 1 !in r.phases && r.nextId + 1 !in r.table
    ensures ViewsOk(Connected(r))
  {
    var r' := Connected(r);
    forall c <- r'.table, n: Name | IsJoined(r'.table, c)
      ensures n in Known(r'.table[c].sent) <==> NameSeen(r', c, n)
    {
      assert forall d: Id :: Sees(r', c, d) <==> Sees(r, c, d);
      NameSeenSame(r, r', c, n);
      assert n in Known(r.table[c].sent) <==> NameSeen(r, c, n);
    }
  }

  lemma ConnectKeepsClients(r: Room)
    requires ClientsOk(r) && QueueOk(r) && r.nextId + 1 !in r.phases && r.nextId + 1 !in r.table
    ensures ClientsOk(Connected(r)) && QueueOk(Connected(r))
  {
    var r', id := Connected(r), r.nextId + 1;
    forall c <- r'.phases
      ensures ClientOk(r', c)
    {
      assert c != id ==> ClientOk(r, c);
    }
    forall i | 0 <= i < |r'.queue|
      ensures MessageOk(r', r'.queue[i])
    {
      assert MessageOk(r, r.queue[i]);
    }
  }

  lemma ConnectKeepsNames(r: Room)
    requires NamesOk(r)
    ensures NamesOk(Connected(r))
  {
    var table := Connected(r).table;
    assert forall c <- table :: IsJoined(table, c) ==> c in r.table && table[c] == r.table[c];
  }

  lemma ConnectKeepsInv(r: Room)
    requires Inv(r)
    ensures Inv(Connected(r))
  {
    hide ClientsOk, QueueOk, ViewsOk, NamesOk;
    FreshId(r);
    ConnectKeepsViews(r);
    ConnectKeepsClients(r);
    ConnectKeepsNames(r);
  }

  /** Every step of the server and of every client keeps the invariant: nobody panics, all views agree. */
  lemma ActKeepsInv(r: Room, a: Action)
    requires Inv(r) && Can(r, a)
    ensures Inv(Act(r, a))
  {
    hide Inv, Connected, Served, StepOk, Take, Hear, WalksAll;
    match a
    case Connect => ConnectKeepsInv(r);
    case Serve(order) => ServeKeepsInv(r, order);
    case Receive(id, ok) =>
      ReceiveOk(r, id, ok);
      StepKeepsInv(r, Act(r, a), id, Take(r.phases[id], id, r.table[id].sent[r.taken[id]], ok));
    case Enter(id, line) =>
      EnterOk(r, id, line);
      StepKeepsInv(r, Act(r, a), id, Hear(r.phases[id], id, line));
  }

  ghost predicate Runs(r: Room, actions: seq<Action>, r': Room)
    decreases |actions|
  {
    if actions == [] then r' == r
    else Can(r, actions[0]) && Runs(Act(r, actions[0]), actions[1..], r')
  }

  lemma {:induction false} RunKeepsInv(r: Room, actions: seq<Action>, r': Room)
    requires Inv(r) && Runs(r, actions, r')
    ensures Inv(r')
    decreases |actions|
  {
    hide Inv, Can, Act;
    if actions != [] {
      ActKeepsInv(r, actions[0]);
      RunKeepsInv(Act(r, actions[0]), actions[1..], r');
    }
  }

  ghost predicate Reachable(r: Room) {
    exists actions: seq<Action> :: Runs(EMPTY, actions, r)
  }

  lemma ReachableInv(r: Room)
    requires Reachable(r)
    ensures Inv(r)
  {
    var actions: seq<Action> :| Runs(EMPTY, actions, r);
    RunKeepsInv(EMPTY, actions, r);
  }

  // ------------------------------------------------------------ the theorems

  /** No step of any run panics: neither a lookup of the server nor an unexpected message of a client. */
  lemma NobodyPanics(r: Room, id: Id)
    requires Reachable(r)
    ensures !r.panicked
    ensures id in r.phases ==> !r.phases[id].Panicked?
    ensures r.queue != [] ==> forall order :: WalksAll(order, r.table) ==> Handle(r.table, r.queue[0], order).Handled?
  {
    ReachableInv(r);
    assert id in r.phases ==> ClientOk(r, id);
    if r.queue != [] {
      forall order | WalksAll(order, r.table)
        ensures Handle(r.table, r.queue[0], order).Handled?
      {
        ServeKeepsInv(r, order);
      }
    }
  }

  /** A client that has not left is in the table, so its queue is open and every message in it fits its phase. */
  lemma ClientsMeetExpectedMessages(r: Room, id: Id)
    requires Reachable(r) && id in r.phases && !r.phases[id].Gone?
    ensures id in r.table && id in r.taken && InboxFits(r.phases[id], IsJoined(r.table, id), Inbox(r, id))
  {
    ReachableInv(r);
    assert ClientOk(r, id);
  }

  /** Usernames in the room are never shared. */
  lemma UsernamesAreUnique(r: Room, c: Id, d: Id)
    requires Reachable(r) && IsJoined(r.table, c) && IsJoined(r.table, d) && c != d
    ensures r.table[c].username != r.table[d].username
  {
    ReachableInv(r);
  }

  /**
    What a client in the room has been sent always adds up to the names of the others in the room, except those
    accepted after it whose arrival has not been announced.
   */
  lemma ViewsAgree(r: Room, c: Id, n: Name)
    requires Reachable(r) && IsJoined(r.table, c)
    ensures n in Known(r.table[c].sent) <==>
            exists d <- r.table :: d != c && r.table[d].username == Some(n)
              && d in r.acceptedAt && c in r.acceptedAt && (r.acceptedAt[d] < r.acceptedAt[c] || !Unannounced(r, d))
  {
    ReachableInv(r);
    assert n in Known(r.table[c].sent) <==> NameSeen(r, c, n);
  }

  /** Once nothing is in flight, every chatting client has read exactly the names of all others in the room. */
  lemma QuietViewsAreExact(r: Room, c: Id, n: Name)
    requires Reachable(r) && r.queue == []
    requires forall id <- r.phases :: !r.phases[id].Asked?
    requires IsJoined(r.table, c) && c in r.taken && Inbox(r, c) == []
    ensures r.taken[c] <= |r.table[c].sent|
    ensures n in Known(r.table[c].sent[..r.taken[c]]) <==> exists d <- r.table :: d != c && r.table[d].username == Some(n)
  {
    ReachableInv(r);
    assert ClientOk(r, c);
    assert r.table[c].sent[..r.taken[c]] == r.table[c].sent;
    assert n in Known(r.table[c].sent) <==> NameSeen(r, c, n);
    if d: Id :| d in r.table && d != c && r.table[d].username == Some(n) {
      assert Sees(r, c, d);
    }
  }
}
