/** What is said in the chat: every line reaches everyone else in the room, once, in order, under its speaker's name. */
module ChatHistory {
  import opened Wrappers
  import opened ChatMessages
  import opened ChatServer
  import opened ChatClient
  import opened ChatRoom

  // ------------------------------------------------------- one line served

  /** The speaker is in the room under a name, everyone else in the room is sent the line, and nobody else anything. */
  ghost predicate RelayedTo(table: Table, table': Table, id: Id, text: string) {
    && IsJoined(table, id)
    && table'.Keys == table.Keys
    && forall c <- table ::
         && table'[c].username == table[c].username
         && table'[c].sent ==
            if IsJoined(table, c) && c != id then table[c].sent + [Relay(table[id].username.value, text)] else table[c].sent
  }

  /** A line that is served reaches everyone else in the room, and changes nothing else. */
  lemma LineIsRelayed(r: Room, order: seq<Id>)
    requires Reachable(r) && Can(r, Serve(order)) && r.queue[0].Say?
    ensures RelayedTo(r.table, Act(r, Serve(order)).table, r.queue[0].id, r.queue[0].text)
    ensures Act(r, Serve(order)) == r.(table := Act(r, Serve(order)).table, queue := r.queue[1..])
  {
    ReachableInv(r);
    HeadServed(r);
  }

  // ------------------------------------------------------------ the names

  /** Letters and digits by their ASCII codes. */
  predicate IsProperName(name: Name) {
    name != "" && forall i :: 0 <= i < |name| ==>
      var c := name[i] as int; 48 <= c <= 57 || 65 <= c <= 90 || 97 <= c <= 122
  }

  /** The name is given and the client told so, or it is refused and the client told that; nobody else is affected. */
  ghost predicate Answered(table: Table, table': Table, id: Id, name: Name, free: bool) {
    && id in table && table'.Keys == table.Keys
    && (forall c <- table :: c != id ==> table'[c] == table[c])
    && table'[id].username == (if free then Some(name) else None)
    && if free then exists names :: table'[id].sent == table[id].sent + [UsernameAccepted] + [Users(names)]
       else table'[id].sent == table[id].sent + [UsernameInvalid]
  }

  /** A client that asks for a name gets it if and only if it is proper and nobody has it. */
  lemma NameGivenIff(r: Room, order: seq<Id>)
    requires Reachable(r) && Can(r, Serve(order)) && r.queue[0].SetUsername?
    ensures Answered(r.table, Act(r, Serve(order)).table, r.queue[0].id, r.queue[0].name,
                     IsProperName(r.queue[0].name) && forall c <- r.table :: r.table[c].username != Some(r.queue[0].name))
  {
    hide Reachable, ClientsOk, ViewsOk, NamesOk, Answered, IsProperName;
    ReachableInv(r);
    SpeakerIsThere(r);
    NameAnswered(r.table, r.queue[0].id, r.queue[0].name, order);
  }

  lemma NameAnswered(table: Table, id: Id, name: Name, order: seq<Id>)
    requires WalksAll(order, table) && id in table && !IsJoined(table, id)
    ensures Handle(table, SetUsername(id, name), order).Handled?
    ensures Answered(table, Handle(table, SetUsername(id, name), order).table, id, name,
                     IsProperName(name) && forall c <- table :: table[c].username != Some(name))
  {
    hide OtherNames;
    ProperIs(name);
  }

  lemma ProperIs(name: Name)
    ensures IsProperName(name) <==> name != "" && forall i :: 0 <= i < |name| ==> IsAlphanumeric(name[i])
  {
  }

  predicate ProperTable(table: Table) {
    forall c <- table :: table[c].username.Some? ==> IsProperName(table[c].username.value)
  }

  lemma HandleKeepsProper(table: Table, m: ClientMessage, order: seq<Id>)
    requires WalksAll(order, table) && ProperTable(table) && Handle(table, m, order).Handled?
    ensures ProperTable(Handle(table, m, order).table)
  {
    hide IsProperName, IsAlphanumeric;
    if m.SetUsername? {
      ProperIs(m.name);
    }
  }

  lemma ActKeepsProper(r: Room, a: Action)
    requires Inv(r) && Can(r, a) && ProperTable(r.table)
    ensures ProperTable(Act(r, a).table)
  {
    hide Inv, Handle, IsProperName, Take, Hear;
    if a.Serve? {
      ServeKeepsInv(r, a.order);
      HandleKeepsProper(r.table, r.queue[0], a.order);
    }
  }

  lemma {:induction false} RunKeepsProper(r: Room, actions: seq<Action>, r': Room)
    requires Inv(r) && ProperTable(r.table) && Runs(r, actions, r')
    ensures ProperTable(r'.table)
    decreases |actions|
  {
    hide Inv, Can, Act, ProperTable;
    if actions != [] {
      ActKeepsProper(r, actions[0]);
      ActKeepsInv(r, actions[0]);
      RunKeepsProper(Act(r, actions[0]), actions[1..], r');
    }
  }

  /** Everyone in the room has a proper name. */
  lemma NamesAreProper(r: Room, c: Id)
    requires Reachable(r) && IsJoined(r.table, c)
    ensures IsProperName(r.table[c].username.value)
  {
    hide Runs, IsProperName;
    var actions: seq<Action> :| Runs(EMPTY, actions, r);
    RunKeepsProper(EMPTY, actions, r);
  }

  // ------------------------------------------------------------ the record

  /** A line that a user has entered, with the name of the user. */
  datatype Line = Line(id: Id, name: Name, text: string)

  function NameIn(table: Table, id: Id): Name {
    if IsJoined(table, id) then table[id].username.value else ""
  }

  function LineIn(table: Table, m: ClientMessage): seq<Line> {
    if m.Say? then [Line(m.id, NameIn(table, m.id), m.text)] else []
  }

  /** The lines that wait in the server's queue. */
  function Waiting(table: Table, queue: seq<ClientMessage>): seq<Line> {
    if queue == [] then []
    else Waiting(table, queue[..|queue| - 1]) + LineIn(table, queue[|queue| - 1])
  }

  function RelayIn(m: ServerMessage): seq<(Name, string)> {
    if m.Relay? then [(m.name, m.text)] else []
  }

  /** The chat among these messages: names and texts. */
  function Relays(sent: seq<ServerMessage>): seq<(Name, string)> {
    if sent == [] then []
    else Relays(sent[..|sent| - 1]) + RelayIn(sent[|sent| - 1])
  }

  /** What others than `c` have said in these lines. */
  function ByOthers(lines: seq<Line>, c: Id): seq<(Name, string)> {
    if lines == [] then []
    else
      var last := lines[|lines| - 1];
      ByOthers(lines[..|lines| - 1], c) + if last.id == c then [] else [(last.name, last.text)]
  }

  /**
    All lines entered so far, how many the server has taken, how many it had taken when a client was named, and the
    name that a client's user has entered.
   */
  datatype Record = Record(lines: seq<Line>, served: nat, since: map<Id, nat>, asked: map<Id, Name>)

  function Note(r: Room, a: Action, l: Record): Record
    requires Can(r, a)
  {
    match a
    case Enter(id, line) =>
      if line.None? then l
      else if r.phases[id].Chatting? then l.(lines := l.lines + [Line(id, NameIn(r.table, id), line.value)])
      else l.(asked := l.asked[id := line.value])
    case Serve(_) => NoteServed(r.table, r.queue[0], Act(r, a).table, l)
    case _ => l
  }

  function NoteServed(table: Table, m: ClientMessage, table': Table, l: Record): Record {
    match m
    case Say(_, _) => l.(served := l.served + 1)
    case SetUsername(id, _) =>
      if IsJoined(table', id) && !IsJoined(table, id) then l.(since := l.since[id := l.served]) else l
    case _ => l
  }

  /** A run with its record. */
  ghost predicate Recorded(r: Room, l: Record, actions: seq<Action>, r': Room, l': Record)
    decreases |actions|
  {
    if actions == [] then r' == r && l' == l
    else Can(r, actions[0]) && Recorded(Act(r, actions[0]), Note(r, actions[0], l), actions[1..], r', l')
  }

  const NOTHING: Record := Record([], 0, map[], map[])

  // ------------------------------------------------------------- invariant

  predicate HeardOk(info: Info, l: Record, c: Id) {
    if info.username.None? then Relays(info.sent) == []
    else
      && c in l.since && l.since[c] <= l.served <= |l.lines|
      && Relays(info.sent) == ByOthers(l.lines[l.since[c]..l.served], c)
  }

  predicate WaitingOk(r: Room, l: Record) {
    l.served <= |l.lines| && Waiting(r.table, r.queue) == l.lines[l.served..]
  }

  predicate RecordOk(r: Room, l: Record) {
    WaitingOk(r, l) && forall c <- r.table :: HeardOk(r.table[c], l, c)
  }

  lemma RelaysOne(sent: seq<ServerMessage>, m: ServerMessage)
    ensures Relays(sent + [m]) == Relays(sent) + RelayIn(m)
  {
    assert (sent + [m])[..|sent|] == sent;
  }

  lemma NoRelay(sent: seq<ServerMessage>, m: ServerMessage)
    requires !m.Relay?
    ensures Relays(sent + [m]) == Relays(sent)
  {
    RelaysOne(sent, m);
  }

  lemma ByOthersOne(lines: seq<Line>, from: nat, to: nat, c: Id)
    requires from <= to < |lines|
    ensures ByOthers(lines[from..to + 1], c) ==
            ByOthers(lines[from..to], c) + if lines[to].id == c then [] else [(lines[to].name, lines[to].text)]
  {
    assert lines[from..to + 1][..to - from] == lines[from..to];
  }

  lemma {:induction false} WaitingHead(table: Table, queue: seq<ClientMessage>)
    requires queue != []
    ensures Waiting(table, queue) == LineIn(table, queue[0]) + Waiting(table, queue[1..])
    decreases |queue|
  {
    hide LineIn, Waiting;
    var init, last := queue[..|queue| - 1], queue[|queue| - 1];
    assert queue == init + [last];
    WaitingOne(table, init, last);
    if init == [] {
      NoneWaiting(table);
      assert queue[1..] == [];
    } else {
      WaitingHead(table, init);
      WaitingOne(table, init[1..], last);
      assert queue[1..] == init[1..] + [last];
    }
  }

  lemma {:induction false} WaitingSame(table: Table, table': Table, queue: seq<ClientMessage>)
    requires forall m <- queue :: m.Say? ==> NameIn(table', m.id) == NameIn(table, m.id)
    ensures Waiting(table', queue) == Waiting(table, queue)
    decreases |queue|
  {
    hide NameIn;
    if queue != [] {
      var init, last := queue[..|queue| - 1], queue[|queue| - 1];
      assert queue == init + [last];
      WaitingSame(table, table', init);
    }
  }

  lemma WaitingOne(table: Table, queue: seq<ClientMessage>, m: ClientMessage)
    ensures Waiting(table, queue + [m]) == Waiting(table, queue) + LineIn(table, m)
  {
    assert (queue + [m])[..|queue|] == queue;
  }

  // ------------------------------------------------------------ every step

  /** What a message to the server changes for a client that stays: its chat, and its name only when it asks. */
  ghost predicate Served1(table: Table, m: ClientMessage, table': Table, c: Id)
    requires c in table && c in table'
  {
    && (if m.Say? && IsJoined(table, m.id) && IsJoined(table, c) && c != m.id
        then Relays(table'[c].sent) == Relays(table[c].sent) + [(NameIn(table, m.id), m.text)]
        else Relays(table'[c].sent) == Relays(table[c].sent))
    && (table'[c].username == table[c].username || (m.SetUsername? && m.id == c && table[c].username.None?))
  }

  lemma ServedClients(table: Table, m: ClientMessage, order: seq<Id>, c: Id)
    requires WalksAll(order, table) && Handle(table, m, order).Handled?
    requires c in Handle(table, m, order).table
    ensures c in table && Served1(table, m, Handle(table, m, order).table, c)
  {
    hide Relays, OtherNames, UsernameValid;
    var table' := Handle(table, m, order).table;
    var sent := table[c].sent;
    match m
    case SetUsername(id, name) =>
      if c == id {
        NoRelay(sent, UsernameInvalid);
        NoRelay(sent, UsernameAccepted);
        var accepted := Push(table[id := table[id].(username := Some(name))], id, UsernameAccepted);
        NoRelay(sent + [UsernameAccepted], Users(OtherNames(accepted, id, order)));
      }
    case Joined(id) => if IsJoined(table, id) { NoRelay(sent, AnnounceUser(table[id].username.value)); }
    case Say(id, text) => if IsJoined(table, id) { RelaysOne(sent, Relay(table[id].username.value, text)); }
    case Disconnect(id) => if IsJoined(table, id) { NoRelay(sent, Disconnected(table[id].username.value)); }
  }

  /** The clients that have lines waiting keep their names. */
  lemma SpeakersStay(r: Room, order: seq<Id>, m: ClientMessage)
    requires Inv(r) && Can(r, Serve(order)) && m in r.queue[1..] && m.Say?
    requires Handle(r.table, r.queue[0], order).Handled?
    ensures NameIn(Handle(r.table, r.queue[0], order).table, m.id) == NameIn(r.table, m.id)
  {
    hide ClientsOk, ViewsOk, NamesOk, Served1, UsernameValid;
    HeadServed(r);
    assert MessageOk(r, m) && MayPrecede(r.queue[0], m) && MessageOk(r, r.queue[0]);
    NameKept(r.table, r.queue[0], order, m.id);
  }

  lemma NameKept(table: Table, m: ClientMessage, order: seq<Id>, c: Id)
    requires WalksAll(order, table) && Handle(table, m, order).Handled?
    requires IsJoined(table, c) && !(m.Disconnect? && m.id == c)
    ensures NameIn(Handle(table, m, order).table, c) == NameIn(table, c)
  {
    assert c in Handle(table, m, order).table;
    ServedClients(table, m, order, c);
  }

  lemma ServeKeepsWaiting(r: Room, order: seq<Id>, l: Record)
    requires Inv(r) && Can(r, Serve(order)) && RecordOk(r, l)
    requires Handle(r.table, r.queue[0], order).Handled?
    ensures var table := Handle(r.table, r.queue[0], order).table;
      WaitingOk(r.(table := table, queue := r.queue[1..]), NoteServed(r.table, r.queue[0], table, l))
  {
    hide Inv, Handle, HeardOk, Waiting, NameIn;
    var table := Handle(r.table, r.queue[0], order).table;
    WaitingHead(r.table, r.queue);
    forall m <- r.queue[1..] | m.Say? ensures NameIn(table, m.id) == NameIn(r.table, m.id) { SpeakersStay(r, order, m); }
    WaitingSame(r.table, table, r.queue[1..]);
  }

  lemma SpeakerIsThere(r: Room)
    requires Inv(r) && r.queue != []
    ensures r.queue[0].Say? || r.queue[0].SetUsername? ==> r.queue[0].id in r.table
    ensures r.queue[0].Say? ==> IsJoined(r.table, r.queue[0].id)
    ensures r.queue[0].SetUsername? ==> !IsJoined(r.table, r.queue[0].id)
  {
    HeadServed(r);
  }

  lemma NextLine(r: Room, l: Record)
    requires WaitingOk(r, l) && r.queue != [] && r.queue[0].Say?
    ensures l.served < |l.lines| && l.lines[l.served] == Line(r.queue[0].id, NameIn(r.table, r.queue[0].id), r.queue[0].text)
  {
    WaitingHead(r.table, r.queue);
    assert l.lines[l.served] == l.lines[l.served..][0];
  }

  lemma ServeKeepsHeard(r: Room, order: seq<Id>, l: Record, c: Id)
    requires Inv(r) && Can(r, Serve(order)) && RecordOk(r, l)
    requires Handle(r.table, r.queue[0], order).Handled? && c in Handle(r.table, r.queue[0], order).table
    ensures var table := Handle(r.table, r.queue[0], order).table;
      HeardOk(table[c], NoteServed(r.table, r.queue[0], table, l), c)
  {
    hide Inv, Handle, Waiting, Relays, ByOthers;
    var m, table := r.queue[0], Handle(r.table, r.queue[0], order).table;
    ServedClients(r.table, m, order, c);
    SpeakerIsThere(r);
    assert HeardOk(r.table[c], l, c);
    if m.Say? {
      NextLine(r, l);
      if IsJoined(r.table, c) {
        ByOthersOne(l.lines, l.since[c], l.served, c);
      }
    } else if m.SetUsername? && m.id == c {
      assert l.lines[l.served..l.served] == [];
      NoneByOthers(c);
    }
  }

  lemma NoneByOthers(c: Id)
    ensures ByOthers([], c) == []
  {
  }

  lemma ServeKeepsRecord(r: Room, order: seq<Id>, l: Record)
    requires Inv(r) && Can(r, Serve(order)) && RecordOk(r, l)
    ensures RecordOk(Act(r, Serve(order)), Note(r, Serve(order), l))
  {
    ServeKeepsInv(r, order);
    hide Inv, Handle, WaitingOk, HeardOk, NoteServed, ServedWith;
    var table := Handle(r.table, r.queue[0], order).table;
    ServeKeepsWaiting(r, order, l);
    forall c <- table ensures HeardOk(table[c], NoteServed(r.table, r.queue[0], table, l), c) {
      ServeKeepsHeard(r, order, l, c);
    }
    ServedIs(r, r.queue[0], table);
    WaitingIs(r.(table := table, queue := r.queue[1..]), Act(r, Serve(order)), Note(r, Serve(order), l));
  }

  lemma ServedIs(r: Room, m: ClientMessage, table: Table)
    requires r.queue != []
    ensures ServedWith(r, m, table).table == table && ServedWith(r, m, table).queue == r.queue[1..]
  {
  }

  lemma WaitingIs(r: Room, r': Room, l: Record)
    requires WaitingOk(r, l) && r'.table == r.table && r'.queue == r.queue
    ensures WaitingOk(r', l)
  {
  }

  /** A step of a client: at most one message more in the queue, and a line exactly when it chats. */
  lemma SentKeepsRecord(r: Room, r': Room, l: Record, sent: seq<ClientMessage>)
    requires RecordOk(r, l) && r'.table == r.table && r'.queue == r.queue + sent
    requires |sent| <= 1
    ensures RecordOk(r', if sent != [] && sent[0].Say?
                         then l.(lines := l.lines + [Line(sent[0].id, NameIn(r.table, sent[0].id), sent[0].text)]) else l)
  {
    hide Waiting, Relays, ByOthers;
    if sent != [] {
      assert sent == [sent[0]];
      WaitingOne(r.table, r.queue, sent[0]);
    } else {
      assert r'.queue == r.queue;
    }
    if sent != [] && sent[0].Say? {
      var l' := l.(lines := l.lines + [Line(sent[0].id, NameIn(r.table, sent[0].id), sent[0].text)]);
      assert l'.lines[l.served..] == l.lines[l.served..] + [l'.lines[|l.lines|]];
      forall c <- r.table ensures HeardOk(r.table[c], l', c) {
        assert HeardOk(r.table[c], l, c);
        if r.table[c].username.Some? {
          assert l'.lines[l.since[c]..l.served] == l.lines[l.since[c]..l.served];
        }
      }
    }
  }

  lemma ConnectKeepsRecord(r: Room, l: Record)
    requires Inv(r) && RecordOk(r, l)
    ensures RecordOk(Connected(r), l)
  {
    hide Waiting, Relays, ByOthers, ViewsOk, NamesOk;
    var r' := Connected(r);
    FreshId(r);
    forall m <- r.queue ensures NameIn(r'.table, m.id) == NameIn(r.table, m.id) {
      assert MessageOk(r, m);
    }
    WaitingSame(r.table, r'.table, r.queue);
    NoRelayInWelcome();
    forall c <- r'.table ensures HeardOk(r'.table[c], l, c) {
      if c != r.nextId + 1 {
        assert HeardOk(r.table[c], l, c);
      }
    }
  }

  lemma NoRelayInWelcome()
    ensures Relays([Welcome]) == []
  {
  }

  lemma AskedKeepsRecord(r: Room, l: Record, l': Record)
    requires RecordOk(r, l) && l' == l.(asked := l'.asked)
    ensures RecordOk(r, l')
  {
    forall c <- r.table ensures HeardOk(r.table[c], l', c) {
      assert HeardOk(r.table[c], l, c);
    }
  }

  lemma ActKeepsRecord(r: Room, a: Action, l: Record)
    requires Inv(r) && Can(r, a) && RecordOk(r, l)
    ensures RecordOk(Act(r, a), Note(r, a, l))
  {
    hide Inv, RecordOk, Connected, Served;
    match a
    case Connect => ConnectKeepsRecord(r, l);
    case Serve(order) => ServeKeepsRecord(r, order, l);
    case Receive(id, ok) =>
      SentKeepsRecord(r, Act(r, a), l, Take(r.phases[id], id, r.table[id].sent[r.taken[id]], ok).sent);
    case Enter(id, line) =>
      SentKeepsRecord(r, Act(r, a), l, Hear(r.phases[id], id, line).sent);
      if line.Some? && !r.phases[id].Chatting? {
        AskedKeepsRecord(Act(r, a), l, Note(r, a, l));
      }
  }

  // ------------------------------------------------------- names as entered

  /** Names asked for and names given are those that the users entered. */
  ghost predicate AskedOk(r: Room, l: Record) {
    && (forall m <- r.queue :: m.SetUsername? ==> m.id in l.asked && l.asked[m.id] == m.name)
    && (forall c <- r.table :: r.table[c].username.Some? ==> c in l.asked && r.table[c].username == Some(l.asked[c]))
  }

  lemma NamedAsAsked(table: Table, m: ClientMessage, order: seq<Id>, c: Id)
    requires WalksAll(order, table) && Handle(table, m, order).Handled? && c in Handle(table, m, order).table
    ensures var table' := Handle(table, m, order).table;
      c in table && (table'[c].username == table[c].username || (m.SetUsername? && m.id == c && table'[c].username == Some(m.name)))
  {
    hide OtherNames, UsernameValid;
  }

  lemma ServeKeepsAsked(r: Room, order: seq<Id>, l: Record)
    requires Inv(r) && Can(r, Serve(order)) && AskedOk(r, l)
    ensures AskedOk(Act(r, Serve(order)), Note(r, Serve(order), l))
  {
    ServeKeepsInv(r, order);
    hide Inv, Handle, Act, Note, WalksAll;
    var m, table := r.queue[0], Handle(r.table, r.queue[0], order).table;
    ServedIsHandled(r, order);
    NoteKeepsAsked(r, order, l);
    forall c <- table | table[c].username.Some? ensures c in l.asked && table[c].username == Some(l.asked[c]) {
      NamedAsAsked(r.table, m, order, c);
    }
  }

  lemma ServedIsHandled(r: Room, order: seq<Id>)
    requires Can(r, Serve(order)) && Handle(r.table, r.queue[0], order).Handled?
    ensures var r' := Act(r, Serve(order));
      r'.table == Handle(r.table, r.queue[0], order).table && r'.queue == r.queue[1..]
  {
    hide Handle;
  }

  lemma NoteKeepsAsked(r: Room, order: seq<Id>, l: Record)
    requires Can(r, Serve(order))
    ensures Note(r, Serve(order), l).asked == l.asked
  {
    hide Served;
  }

  lemma JoiningIsUnknown(r: Room, id: Id)
    requires Inv(r) && id in r.phases && r.phases[id].Joining?
    ensures !IsJoined(r.table, id) && forall m <- r.queue :: m.id != id
  {
    hide ViewsOk, NamesOk;
    assert ClientOk(r, id);
    forall m <- r.queue ensures m.id != id {
      if m.id == id { QuietUnlessChatting(r, id, m); }
    }
  }

  lemma ActKeepsAsked(r: Room, a: Action, l: Record)
    requires Inv(r) && Can(r, a) && AskedOk(r, l)
    ensures AskedOk(Act(r, a), Note(r, a, l))
  {
    hide Inv, Served, AskedOk, Take, Hear, NoteServed;
    match a
    case Connect => ConnectKeepsAsked(r, l);
    case Serve(order) => ServeKeepsAsked(r, order, l);
    case Receive(id, ok) => ReceiveKeepsAsked(r, id, ok, l);
    case Enter(id, line) => EnterKeepsAsked(r, id, line, l);
  }

  lemma ConnectKeepsAsked(r: Room, l: Record)
    requires AskedOk(r, l)
    ensures AskedOk(Connected(r), l)
  {
  }

  lemma ReceiveKeepsAsked(r: Room, id: Id, ok: bool, l: Record)
    requires Can(r, Receive(id, ok)) && AskedOk(r, l)
    ensures AskedOk(Act(r, Receive(id, ok)), l)
  {
    hide Connected, Served;
  }

  lemma EnterKeepsAsked(r: Room, id: Id, line: Option<string>, l: Record)
    requires Inv(r) && Can(r, Enter(id, line)) && AskedOk(r, l)
    ensures AskedOk(Act(r, Enter(id, line)), Note(r, Enter(id, line), l))
  {
    hide Inv, Connected, Served, NoteServed, WalksAll, NameIn, IsJoined, Listens;
    if r.phases[id].Joining? {
      JoiningIsUnknown(r, id);
      if line.Some? {
        JoiningAsks(r, Act(r, Enter(id, line)), id, line.value, l, Note(r, Enter(id, line), l));
      }
    }
  }

  lemma JoiningAsks(r: Room, r': Room, id: Id, name: string, l: Record, l': Record)
    requires AskedOk(r, l) && !IsJoined(r.table, id) && forall m <- r.queue :: m.id != id
    requires r'.table == r.table && r'.queue == r.queue + [SetUsername(id, name)] && l'.asked == l.asked[id := name]
    ensures AskedOk(r', l')
  {
  }

  lemma {:induction false} RunKeepsRecord(r: Room, l: Record, actions: seq<Action>, r': Room, l': Record)
    requires Inv(r) && RecordOk(r, l) && AskedOk(r, l) && Recorded(r, l, actions, r', l')
    ensures Inv(r') && RecordOk(r', l') && AskedOk(r', l')
    decreases |actions|
  {
    hide Inv, RecordOk, AskedOk, Can, Act, Note;
    if actions != [] {
      ActKeepsRecord(r, actions[0], l);
      ActKeepsAsked(r, actions[0], l);
      ActKeepsInv(r, actions[0]);
      RunKeepsRecord(Act(r, actions[0]), Note(r, actions[0], l), actions[1..], r', l');
    }
  }

  // ----------------------------------------------------------- the theorem

  lemma {:induction false} RelaysMonotonic(sent: seq<ServerMessage>, k: nat)
    requires k <= |sent|
    ensures Relays(sent[..k]) <= Relays(sent)
    decreases |sent|
  {
    if k == |sent| {
      assert sent[..k] == sent;
    } else {
      RelaysMonotonic(sent[..|sent| - 1], k);
      assert sent[..|sent| - 1][..k] == sent[..k];
    }
  }

  /**
    Every line is heard: in every run, the chat sent to a client in the room is exactly what the others have entered,
    with their names, once and in order, from the moment it was named to the last line that the server has taken;
    the lines not yet taken wait in its queue. What the client has read is a beginning of that, and all of it once
    nothing is in flight.
   */
  lemma EveryLineIsHeard(actions: seq<Action>, r: Room, l: Record, c: Id)
    requires Recorded(EMPTY, NOTHING, actions, r, l) && IsJoined(r.table, c)
    ensures c in l.since && l.since[c] <= l.served <= |l.lines|
    ensures Relays(r.table[c].sent) == ByOthers(l.lines[l.since[c]..l.served], c)
    ensures l.lines[l.served..] == Waiting(r.table, r.queue)
    ensures c in r.taken && r.taken[c] <= |r.table[c].sent|
    ensures Relays(r.table[c].sent[..r.taken[c]]) <= ByOthers(l.lines[l.since[c]..l.served], c)
    ensures r.queue == [] && Inbox(r, c) == [] ==>
              Relays(r.table[c].sent[..r.taken[c]]) == ByOthers(l.lines[l.since[c]..], c)
  {
    hide Inv, Recorded, Waiting, Relays, ByOthers, Inbox;
    NothingRecorded();
    RunKeepsRecord(EMPTY, NOTHING, actions, r, l);
    assert HeardOk(r.table[c], l, c);
    PlaceInQueue(r, c);
    RelaysMonotonic(r.table[c].sent, r.taken[c]);
    if r.queue == [] && Inbox(r, c) == [] {
      NoneWaiting(r.table);
      assert l.served == |l.lines| && l.lines[l.since[c]..l.served] == l.lines[l.since[c]..];
    }
  }

  lemma NothingRecorded()
    ensures Inv(EMPTY) && RecordOk(EMPTY, NOTHING) && AskedOk(EMPTY, NOTHING)
  {
  }

  /** Everyone in the room goes by the name that the user entered. */
  lemma NamesAreAsEntered(actions: seq<Action>, r: Room, l: Record, c: Id)
    requires Recorded(EMPTY, NOTHING, actions, r, l) && IsJoined(r.table, c)
    ensures c in l.asked && r.table[c].username == Some(l.asked[c])
  {
    hide Inv, Recorded, RecordOk;
    NothingRecorded();
    RunKeepsRecord(EMPTY, NOTHING, actions, r, l);
  }

  lemma PlaceInQueue(r: Room, c: Id)
    requires Inv(r) && c in r.table
    ensures c in r.taken && r.taken[c] <= |r.table[c].sent|
    ensures Inbox(r, c) == [] ==> r.table[c].sent[..r.taken[c]] == r.table[c].sent
  {
    assert ClientOk(r, c);
  }

  lemma NoneWaiting(table: Table)
    ensures Waiting(table, []) == []
  {
  }
}
