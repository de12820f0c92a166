/** The messages between the chat server and its clients. */
module ChatMessages {
  type Id = nat
  type Name = string

  /** From a client to the server, through one queue shared by all clients. */
  datatype ClientMessage =
    | SetUsername(id: Id, name: Name)
    | Joined(id: Id)
    | Say(id: Id, text: string)
    | Disconnect(id: Id)

  /** From the server to one client, through that client's own queue. */
  datatype ServerMessage =
    | Welcome
    | UsernameAccepted
    | UsernameInvalid
    | AnnounceUser(name: Name)
    | Users(names: seq<Name>)
    | Relay(name: Name, text: string)
    | Disconnected(name: Name)

  /** What a client in the room may be told at any time. */
  predicate IsChat(m: ServerMessage) {
    m.AnnounceUser? || m.Relay? || m.Disconnected?
  }

  /** What a message adds to a client's knowledge of the other users. */
  function Learn(known: set<Name>, m: ServerMessage): set<Name> {
    if m.Users? then set n | n in m.names
    else if m.AnnounceUser? then known + {m.name}
    else if m.Disconnected? then known - {m.name}
    else known
  }

  /** The other users as a client knows them from what it has been told. */
  function Known(told: seq<ServerMessage>): set<Name> {
    if told == [] then {} else Learn(Known(told[..|told| - 1]), told[|told| - 1])
  }
}

/** The server's side: the table of clients and the handling of one message. */
module ChatServer {
  import opened Wrappers
  import opened ChatMessages

  /** A client in the table: its username once accepted, and everything sent to it. */
  datatype Info = Info(username: Option<Name>, sent: seq<ServerMessage>)

  type Table = map<Id, Info>

  /** The table after a message, unless the server panicked. */
  datatype Outcome = Handled(table: Table) | Panic

  predicate IsAlphanumeric(c: char) {
    'a' <= c <= 'z' || 'A' <= c <= 'Z' || '0' <= c <= '9'
  }

  predicate UsernameValid(table: Table, name: Name) {
    && name != ""
    && (forall i :: 0 <= i < |name| ==> IsAlphanumeric(name[i]))
    && (forall id <- table :: table[id].username != Some(name))
  }

  predicate IsJoined(table: Table, id: Id) {
    id in table && table[id].username.Some?
  }

  function Push(table: Table, id: Id, m: ServerMessage): Table
    requires id in table
  {
    table[id := table[id].(sent := table[id].sent + [m])]
  }

  /** What becomes of client `i` when `m` goes to the others in the room than `id`. */
  function Told(table: Table, id: Id, m: ServerMessage, i: Id): Info
    requires i in table
  {
    if IsJoined(table, i) && i != id then table[i].(sent := table[i].sent + [m]) else table[i]
  }

  /** The message goes to every client in the room except the one it is about. */
  function Broadcast(table: Table, id: Id, m: ServerMessage): Table {
    map i | i in table :: Told(table, id, m, i)
  }

  /** The broadcast as far as the walk has come. */
  function WalkTold(table: Table, id: Id, m: ServerMessage, walked: seq<Id>): Table {
    map i | i in table :: if i in walked then Told(table, id, m, i) else table[i]
  }

  lemma WalkOne(table: Table, id: Id, m: ServerMessage, walked: seq<Id>, i: Id)
    requires i in table && i !in walked
    ensures WalkTold(table, id, m, walked + [i]) ==
            var t := WalkTold(table, id, m, walked);
            if t[i].username.Some? && i != id then t[i := t[i].(sent := t[i].sent + [m])] else t
  {
    var t, t' := WalkTold(table, id, m, walked), WalkTold(table, id, m, walked + [i]);
    assert forall j <- table :: j != i ==> t'[j] == t[j];
    assert t[i] == table[i] && t'[i] == Told(table, id, m, i);
  }

  lemma WalkEnds(table: Table, id: Id, m: ServerMessage, order: seq<Id>)
    requires WalksAll(order, table)
    ensures WalkTold(table, id, m, order) == Broadcast(table, id, m)
  {
  }

  /** The names of the other users, in the order in which the table is walked. */
  function OtherNames(table: Table, id: Id, order: seq<Id>): seq<Name>
    requires forall i <- order :: i in table
  {
    if order == [] then []
    else
      var rest := OtherNames(table, id, order[..|order| - 1]);
      var i := order[|order| - 1];
      if IsJoined(table, i) && i != id then rest + [table[i].username.value] else rest
  }

  /** An order in which all clients of the table can be walked. */
  ghost predicate WalksAll(order: seq<Id>, table: Table) {
    && (forall i :: i in order <==> i in table)
    && (forall j, k :: 0 <= j < k < |order| ==> order[j] != order[k])
  }

  function Handle(table: Table, m: ClientMessage, order: seq<Id>): Outcome
    requires forall i <- order :: i in table
  {
    match m
    case SetUsername(id, name) =>
      if UsernameValid(table, name) then
        if id !in table || table[id].username.Some? then Panic
        else
          var named := table[id := table[id].(username := Some(name))];
          var accepted := Push(named, id, UsernameAccepted);
          Handled(Push(accepted, id, Users(OtherNames(accepted, id, order))))
      else if id !in table then Panic
      else Handled(Push(table, id, UsernameInvalid))
    case Joined(id) =>
      if id !in table then Panic
      else if table[id].username.Some? then Handled(Broadcast(table, id, AnnounceUser(table[id].username.value)))
      else Handled(table)
    case Say(id, text) =>
      if id !in table then Panic
      else if table[id].username.Some? then Handled(Broadcast(table, id, Relay(table[id].username.value, text)))
      else Handled(table)
    case Disconnect(id) =>
      if id !in table then Handled(table)
      else if table[id].username.Some? then Handled(Broadcast(table, id, Disconnected(table[id].username.value)) - {id})
      else Handled(table - {id})
  }

  function Accept(table: Table, id: Id): Table {
    table[id := Info(None, [Welcome])]
  }

  /** The server's loop as it runs: a mutable table, walked in an arbitrary order. */
  class Server {
    var nextId: Id
    var clients: Table

    constructor ()
      ensures nextId == 0 && clients == map[]
    {
      nextId, clients := 0, map[];
    }

    method AcceptClient() returns (id: Id)
      modifies this
      ensures id == old(nextId) + 1 == nextId
      ensures clients == Accept(old(clients), id)
    {
      nextId := nextId + 1;
      id := nextId;
      clients := clients[id := Info(None, [Welcome])];
    }

    /** Sends to every other client in the room. */
    method SendToOthers(id: Id, m: ServerMessage, order: seq<Id>)
      requires WalksAll(order, clients)
      modifies this`clients
      ensures clients == Broadcast(old(clients), id, m)
    {
      ghost var was := clients;
      for k := 0 to |order|
        invariant clients == WalkTold(was, id, m, order[..k])
      {
        var i := order[k];
        assert order[..k + 1] == order[..k] + [i];
        WalkOne(was, id, m, order[..k], i);
        if clients[i].username.Some? && i != id {
          clients := clients[i := clients[i].(sent := clients[i].sent + [m])];
        }
      }
      assert order[..|order|] == order;
      WalkEnds(was, id, m, order);
    }

    method CollectNames(id: Id, order: seq<Id>) returns (names: seq<Name>)
      requires forall i <- order :: i in clients
      ensures names == OtherNames(clients, id, order)
    {
      names := [];
      for k := 0 to |order|
        invariant names == OtherNames(clients, id, order[..k])
      {
        assert order[..k + 1][..k] == order[..k];
        if clients[order[k]].username.Some? && order[k] != id {
          names := names + [clients[order[k]].username.value];
        }
      }
      assert order[..|order|] == order;
    }

    /** One message; every lookup and the assertion on a fresh username must be known to succeed. */
    method HandleMessage(m: ClientMessage, order: seq<Id>)
      requires WalksAll(order, clients) && Handle(clients, m, order).Handled?
      modifies this`clients
      ensures Handled(clients) == Handle(old(clients), m, order)
    {
      match m
      case SetUsername(id, name) =>
        if UsernameValid(clients, name) {
          assert clients[id].username.None?;
          clients := clients[id := clients[id].(username := Some(name))];
          clients := Push(clients, id, UsernameAccepted);
          var users := CollectNames(id, order);
          clients := Push(clients, id, Users(users));
        } else {
          clients := Push(clients, id, UsernameInvalid);
        }
      case Joined(id) =>
        match clients[id].username {
          case Some(user) => SendToOthers(id, AnnounceUser(user), order);
          case None =>
        }
      case Say(id, text) =>
        match clients[id].username {
          case Some(user) => SendToOthers(id, Relay(user, text), order);
          case None =>
        }
      case Disconnect(id) =>
        if id in clients {
          match clients[id].username {
            case Some(user) => SendToOthers(id, Disconnected(user), order);
            case None =>
          }
          clients := clients - {id};
        }
    }
  }
}

/** A client's side: its states and what it does in each of them. */
module ChatClient {
  import opened Wrappers
  import opened ChatMessages

  datatype Phase = WaitingWelcome | Joining | Asked | Entering | Chatting | Gone | Panicked

  /** A step of the client: its new phase and what it sends to the server. */
  datatype Step = Step(phase: Phase, sent: seq<ClientMessage>)

  function Leave(id: Id): Step {
    Step(Gone, [Disconnect(id)])
  }

  /** The client takes a message from its queue; `ok` says whether its socket still accepts writes. */
  function Take(phase: Phase, id: Id, m: ServerMessage, ok: bool): Step {
    match phase
    case WaitingWelcome => if !m.Welcome? then Step(Panicked, []) else if ok then Step(Joining, []) else Leave(id)
    case Asked =>
      if m.UsernameAccepted? then Step(Entering, [ClientMessage.Joined(id)])
      else if m.UsernameInvalid? then Leave(id)
      else Step(Panicked, [])
    case Entering => if !m.Users? then Step(Panicked, []) else if ok then Step(Chatting, []) else Leave(id)
    case Chatting => if !IsChat(m) then Step(Panicked, []) else if ok then Step(Chatting, []) else Leave(id)
    case _ => Step(phase, [])
  }

  /** Phases in which the client waits for its queue. */
  predicate Listens(phase: Phase) {
    phase.WaitingWelcome? || phase.Asked? || phase.Entering? || phase.Chatting?
  }

  /** Phases in which the client waits for a line of its user. */
  predicate Reads(phase: Phase) {
    phase.Joining? || phase.Chatting?
  }

  /** The client's user enters a line, or is gone. */
  function Hear(phase: Phase, id: Id, line: Option<string>): Step {
    match line
    case None => Leave(id)
    case Some(text) =>
      if phase.Joining? then Step(Asked, [SetUsername(id, text)]) else Step(phase, [Say(id, text)])
  }

  // What the user is shown.

  function CommaList(names: seq<Name>): string {
    if names == [] then "" else if |names| == 1 then names[0]
    else CommaList(names[..|names| - 1]) + ", " + names[|names| - 1]
  }

  function Shown(m: ServerMessage): string {
    match m
    case Welcome => "Welcome to budgetchat! What shall I call you?"
    case UsernameInvalid => "Invalid username"
    case Users(names) => "* The room contains:" + (if names == [] then "" else " " + CommaList(names))
    case AnnounceUser(name) => "* " + name + " has entered the room"
    case Relay(name, text) => "[" + name + "] " + text
    case Disconnected(name) => "* " + name + " has left the room"
    case UsernameAccepted => ""
  }

  class Client {
    const id: Id
    var phase: Phase
    var screen: seq<string>

    constructor (id: Id)
      ensures this.id == id && phase == WaitingWelcome && screen == []
    {
      this.id, phase, screen := id, WaitingWelcome, [];
    }

    method ShowUsers(names: seq<Name>) returns (message: string)
      ensures message == Shown(Users(names))
    {
      message := "* The room contains:";
      if names != [] {
        message := message + " " + names[0];
        ghost var start := "* The room contains:" + " ";
        for k := 1 to |names|
          invariant message == start + CommaList(names[..k])
        {
          assert names[..k + 1][..k] == names[..k];
          message := message + ", " + names[k];
          assert message == start + (CommaList(names[..k]) + ", " + names[k]);
        }
        assert names[..|names|] == names;
      }
    }

    /** One message from the queue, in a phase in which that message is expected. */
    method TakeMessage(m: ServerMessage, ok: bool) returns (sent: seq<ClientMessage>)
      requires Listens(phase) && !Take(phase, id, m, ok).phase.Panicked?
      modifies this
      ensures Step(phase, sent) == Take(old(phase), id, m, ok)
      ensures screen == if ok && !m.UsernameAccepted? then old(screen) + [Shown(m)] else old(screen)
    {
      sent := [];
      if m.UsernameAccepted? {
        sent := [ClientMessage.Joined(id)];
        phase := Entering;
        return;
      }
      if ok {
        var message;
        match m {
          case Users(names) => message := ShowUsers(names);
          case _ => message := Shown(m);
        }
        screen := screen + [message];
      }
      if !ok || m.UsernameInvalid? {
        sent := [Disconnect(id)];
        phase := Gone;
      } else {
        phase := if m.Welcome? then Joining else Chatting;
      }
    }

    method HearLine(line: Option<string>) returns (sent: seq<ClientMessage>)
      requires Reads(phase)
      modifies this`phase
      ensures Step(phase, sent) == Hear(old(phase), id, line)
    {
      match line
      case None =>
        sent := [Disconnect(id)];
        phase := Gone;
      case Some(text) =>
        if phase.Joining? {
          sent := [SetUsername(id, text)];
          phase := Asked;
        } else {
          sent := [Say(id, text)];
        }
    }
  }
}
