/**
  The line-reversing application on top of an LRCP session, and what its client sees.
 */
module LineReversal {
  import opened Lines
  import opened LrcpPackets
  import opened LrcpProtocol
  import opened LrcpNetwork
  import opened LrcpProgress

  const NEWLINE: Byte := '\n'

  /** The output for `s` when `line` is the beginning of the current line. */
  function ReverseFrom(s: Bytes, line: Bytes): Bytes {
    if s == [] then []
    else if s[0] == NEWLINE then Reverse(line) + [NEWLINE] + ReverseFrom(s[1..], [])
    else ReverseFrom(s[1..], line + [s[0]])
  }

  /** Every newline-terminated line of `s`, reversed; an unfinished last line gives nothing. */
  function ReverseLines(s: Bytes): Bytes {
    ReverseFrom(s, [])
  }

  /** Input can be handled in two parts, cut anywhere. */
  lemma {:induction false} ReverseInParts(s: Bytes, t: Bytes, line: Bytes)
    ensures ReverseFrom(s + t, line) == ReverseFrom(s, line) + ReverseFrom(t, Pending(s, NEWLINE, line))
    ensures Pending(s + t, NEWLINE, line) == Pending(t, NEWLINE, Pending(s, NEWLINE, line))
  {
    if s == [] {
      assert s + t == t;
    } else {
      assert (s + t)[1..] == s[1..] + t;
      if s[0] == NEWLINE {
        ReverseInParts(s[1..], t, []);
      } else {
        ReverseInParts(s[1..], t, line + [s[0]]);
      }
    }
  }

  lemma {:induction false} LineCollected(text: Bytes, line: Bytes)
    requires NEWLINE !in text
    ensures ReverseFrom(text, line) == [] && Pending(text, NEWLINE, line) == line + text
  {
    if text != [] {
      LineCollected(text[1..], line + [text[0]]);
      assert line + [text[0]] + text[1..] == line + text;
    } else {
      assert line + text == line;
    }
  }

  lemma OneLine(text: Bytes)
    requires NEWLINE !in text
    ensures ReverseFrom(text + [NEWLINE], []) == Reverse(text) + [NEWLINE]
    ensures Pending(text + [NEWLINE], NEWLINE, []) == []
  {
    LineCollected(text, []);
    ReverseInParts(text, [NEWLINE], []);
    assert [] + text == text;
    var end: Bytes := [NEWLINE];
    assert end[1..] == [];
    assert ReverseFrom(end, text) == Reverse(text) + [NEWLINE] + [] == Reverse(text) + [NEWLINE];
  }

  function JoinLines(lines: seq<Bytes>): Bytes {
    if lines == [] then [] else (lines[0] + "\n") + JoinLines(lines[1..])
  }

  function ReverseEach(lines: seq<Bytes>): seq<Bytes> {
    if lines == [] then [] else [Reverse(lines[0])] + ReverseEach(lines[1..])
  }

  /** The meaning of `ReverseLines`: it reverses each line of a text and drops the unfinished rest. */
  lemma {:induction false} ReverseLinesOfText(lines: seq<Bytes>, unfinished: Bytes)
    requires forall l <- lines :: NEWLINE !in l
    requires NEWLINE !in unfinished
    ensures ReverseLines(JoinLines(lines) + unfinished) == JoinLines(ReverseEach(lines))
  {
    if lines == [] {
      assert JoinLines(lines) + unfinished == unfinished;
      LineCollected(unfinished, []);
    } else {
      var rest := JoinLines(lines[1..]) + unfinished;
      ReverseLinesOfText(lines[1..], unfinished);
      OneLine(lines[0]);
      ReverseInParts(lines[0] + [NEWLINE], rest, []);
      assert JoinLines(lines) + unfinished == (lines[0] + [NEWLINE]) + rest;
      assert ReverseEach(lines)[1..] == ReverseEach(lines[1..]);
    }
  }

  /** More input only ever adds output. */
  lemma ReverseLinesMonotonic(s: Bytes, t: Bytes)
    requires s <= t
    ensures ReverseLines(s) <= ReverseLines(t)
  {
    ReverseInParts(s, t[|s|..], []);
    assert s + t[|s|..] == t;
  }

  lemma {:induction false} ReverseLinesLength(s: Bytes, line: Bytes)
    ensures |ReverseFrom(s, line)| <= |line| + |s|
  {
    if s != [] {
      ReverseLinesLength(s[1..], if s[0] == NEWLINE then [] else line + [s[0]]);
    }
  }

  /** The first line of the input, what follows it, and the application's answer. */
  function Taken(input: Bytes): Bytes
    requires NEWLINE in input
  {
    input[..LineEnd(input, NEWLINE) + 1]
  }

  function Rest(input: Bytes): Bytes
    requires NEWLINE in input
  {
    input[LineEnd(input, NEWLINE) + 1..]
  }

  function Reply(input: Bytes): Bytes
    requires NEWLINE in input
  {
    Reverse(input[..LineEnd(input, NEWLINE)]) + [NEWLINE]
  }

  /** The application's loop, with its buffered reader and writer. */
  class Reverser {
    var input: Bytes
    var line: Bytes
    var output: Bytes

    constructor ()
      ensures input == [] && output == []
    {
      input, line, output := [], [], [];
    }

    /** One round of the loop: the next line leaves reversed, its newline last again. */
    method HandleLine()
      requires NEWLINE in input
      modifies this
      ensures input == Rest(old(input)) && output == old(output) + Reply(old(input))
    {
      var len := LineEnd(input, NEWLINE) + 1;
      line, input := input[..len], input[len..];
      ghost var text := line[..len - 1];
      for i := 0 to len - 1
        invariant line == old(input)[..len] && input == old(input)[len..]
        invariant output == old(output) + Reverse(text)[..i]
      {
        assert Reverse(text)[i] == text[len - 2 - i] == line[len - 2 - i];
        output := output + [line[len - 2 - i]];
      }
      assert Reverse(text)[..len - 1] == Reverse(text);
      output := output + [NEWLINE];
      assert text == old(input)[..len - 1];
    }
  }

  // ------------------------------------------------------------ the service

  /**
    A client on the left of an LRCP session whose right end runs the application: `consumed` is what the
    application has taken from its reader as whole lines, `input` and `output` are its two buffers.
   */
  datatype Service = Service(net: Net, consumed: Bytes, input: Bytes, output: Bytes)

  function Begin(session: Numeric): Service {
    Service(Start(session), [], [], [])
  }

  datatype ServiceAction =
    | Network(a: Action)
    | AppRead(size: nat)
    | AppLine
    | AppWrite(size: nat)

  /** The application waits for its last flush before it goes on. */
  predicate Flushed(s: Service) {
    s.output == [] && FlushReady(s.net.right.h)
  }

  predicate CanServe(s: Service, a: ServiceAction) {
    match a
    case Network(b) => Can(s.net, b) && (b.left || b.Turns?)
    case AppRead(_) => Flushed(s) && NEWLINE !in s.input
    case AppLine => Flushed(s) && NEWLINE in s.input
    case AppWrite(size) =>
      0 < size <= |s.output| && !s.net.right.h.upstreamClosed && |s.net.right.written| + size < NUMERIC_LIMIT
  }

  function Serve(s: Service, a: ServiceAction): Service
    requires CanServe(s, a)
  {
    match a
    case Network(b) => s.(net := Act(s.net, b))
    case AppRead(size) =>
      var len := Min(size, |s.net.right.h.downstream|);
      s.(net := Act(s.net, Reads(false, size)), input := s.input + s.net.right.h.downstream[..len])
    case AppLine =>
      s.(consumed := s.consumed + Taken(s.input), input := Rest(s.input), output := s.output + Reply(s.input))
    case AppWrite(size) =>
      s.(net := Act(s.net, Writes(false, s.output[..size])), output := s.output[size..])
  }

  predicate ServiceInv(s: Service) {
    && MannersInv(s.net)
    && s.net.right.read == s.consumed + s.input
    && Pending(s.consumed, NEWLINE, []) == []
    && s.net.right.written + s.output == ReverseLines(s.consumed)
  }

  /** The application never runs into the limit on the bytes of a session. */
  lemma OutputFits(s: Service)
    requires ServiceInv(s)
    ensures |s.net.right.written| + |s.output| < NUMERIC_LIMIT
  {
    ReverseLinesLength(s.consumed, []);
    assert |s.net.right.read| <= |s.net.right.Delivered()|;
  }

  lemma OneMoreLine(consumed: Bytes, line: Bytes)
    requires Pending(consumed, NEWLINE, []) == [] && NEWLINE !in line
    ensures ReverseLines(consumed + (line + [NEWLINE])) == ReverseLines(consumed) + (Reverse(line) + [NEWLINE])
    ensures Pending(consumed + (line + [NEWLINE]), NEWLINE, []) == []
  {
    OneLine(line);
    ReverseInParts(consumed, line + [NEWLINE], []);
  }

  lemma LineTaken(consumed: Bytes, input: Bytes, written: Bytes, output: Bytes)
    requires NEWLINE in input && Pending(consumed, NEWLINE, []) == []
    requires written + output == ReverseLines(consumed)
    ensures (consumed + Taken(input)) + Rest(input) == consumed + input
    ensures written + (output + Reply(input)) == ReverseLines(consumed + Taken(input))
    ensures Pending(consumed + Taken(input), NEWLINE, []) == []
  {
    var line := input[..LineEnd(input, NEWLINE)];
    assert Taken(input) == line + [NEWLINE];
    OneMoreLine(consumed, line);
    hide ReverseFrom, Pending, Reverse;
    assert written + (output + Reply(input)) == (written + output) + Reply(input);
  }

  lemma LineKeepsInv(s: Service)
    requires ServiceInv(s) && CanServe(s, AppLine)
    ensures ServiceInv(Serve(s, AppLine))
  {
    LineTaken(s.consumed, s.input, s.net.right.written, s.output);
  }

  lemma WriteKeepsInv(s: Service, size: nat)
    requires ServiceInv(s) && CanServe(s, AppWrite(size))
    ensures ServiceInv(Serve(s, AppWrite(size)))
  {
    ActKeepsManners(s.net, Writes(false, s.output[..size]));
    assert s.output[..size] + s.output[size..] == s.output;
    assert s.net.right.written + s.output[..size] + s.output[size..] == s.net.right.written + s.output;
  }

  lemma ReadKeepsInv(s: Service, size: nat)
    requires ServiceInv(s) && CanServe(s, AppRead(size))
    ensures ServiceInv(Serve(s, AppRead(size)))
  {
    ActKeepsManners(s.net, Reads(false, size));
    var taken := s.net.right.h.downstream[..Min(size, |s.net.right.h.downstream|)];
    assert s.net.right.read + taken == s.consumed + (s.input + taken);
  }

  lemma ServeKeepsInv(s: Service, a: ServiceAction)
    requires ServiceInv(s) && CanServe(s, a)
    ensures ServiceInv(Serve(s, a))
  {
    match a
    case Network(b) => ActKeepsManners(s.net, b); OthersKept(s.net, b);
    case AppRead(size) => ReadKeepsInv(s, size);
    case AppLine => LineKeepsInv(s);
    case AppWrite(size) => WriteKeepsInv(s, size);
  }

  lemma OthersKept(n: Net, a: Action)
    requires Can(n, a) && (a.left || a.Turns?)
    ensures Act(n, a).right.read == n.right.read && Act(n, a).right.written == n.right.written
  {
  }

  predicate Serves(s: Service, actions: seq<ServiceAction>)
    decreases |actions|
  {
    actions == [] || (CanServe(s, actions[0]) && Serves(Serve(s, actions[0]), actions[1..]))
  }

  function Served(s: Service, actions: seq<ServiceAction>): Service
    requires Serves(s, actions)
    decreases |actions|
  {
    if actions == [] then s else Served(Serve(s, actions[0]), actions[1..])
  }

  lemma {:induction false} ServedKeepsInv(s: Service, actions: seq<ServiceAction>)
    requires ServiceInv(s) && Serves(s, actions)
    ensures ServiceInv(Served(s, actions))
    decreases |actions|
  {
    if actions != [] {
      ServeKeepsInv(s, actions[0]);
      ServedKeepsInv(Serve(s, actions[0]), actions[1..]);
    }
  }

  lemma BeginInv(session: Numeric)
    ensures ServiceInv(Begin(session))
  {
    StartInv(session);
  }

  lemma PrefixOfReversed(s: Service)
    requires ServiceInv(s)
    ensures s.net.left.Delivered() <= ReverseLines(s.net.left.written)
    ensures s.net.left.read <= ReverseLines(s.net.left.written)
  {
    var n := s.net;
    assert s.consumed <= n.right.read <= n.right.Delivered() <= n.left.written;
    ReverseLinesMonotonic(s.consumed, n.left.written);
    assert n.left.read <= n.left.Delivered() <= n.right.written <= ReverseLines(s.consumed);
  }

  /**
    End to end: at every moment of every run, what the client has read is a prefix of the lines it has written,
    each reversed.
   */
  lemma ClientReadsReversedLines(session: Numeric, actions: seq<ServiceAction>)
    requires Serves(Begin(session), actions)
    ensures var client := Served(Begin(session), actions).net.left;
      client.read <= ReverseLines(client.written)
  {
    BeginInv(session);
    ServedKeepsInv(Begin(session), actions);
    PrefixOfReversed(Served(Begin(session), actions));
  }

  // --------------------------------------------------------------- progress

  /** What happens without anybody writing more or closing down. */
  predicate Helpful(a: ServiceAction) {
    a.Network? ==> Spontaneous(a.a) || (a.a.Reads? && a.a.left)
  }

  ghost predicate Leads(s: Service, t: Service) {
    exists actions: seq<ServiceAction> :: (forall a <- actions :: Helpful(a)) && Serves(s, actions) && Served(s, actions) == t
  }

  lemma {:induction false} ServesTogether(s: Service, first: seq<ServiceAction>, second: seq<ServiceAction>)
    requires Serves(s, first) && Serves(Served(s, first), second)
    ensures Serves(s, first + second) && Served(s, first + second) == Served(Served(s, first), second)
    decreases |first|
  {
    hide CanServe, Serve;
    if first == [] {
      assert first + second == second;
    } else {
      ServesTogether(Serve(s, first[0]), first[1..], second);
      assert (first + second)[1..] == first[1..] + second;
    }
  }

  lemma LeadsTrans(s: Service, t: Service, u: Service)
    requires Leads(s, t) && Leads(t, u)
    ensures Leads(s, u)
  {
    var first: seq<ServiceAction> :| (forall a <- first :: Helpful(a)) && Serves(s, first) && Served(s, first) == t;
    var second: seq<ServiceAction> :| (forall a <- second :: Helpful(a)) && Serves(t, second) && Served(t, second) == u;
    ServesTogether(s, first, second);
    var both := first + second;
    assert forall a <- both :: Helpful(a);
  }

  lemma LeadsSelf(s: Service)
    ensures Leads(s, s)
  {
    var actions: seq<ServiceAction> := [];
    assert Serves(s, actions) && Served(s, actions) == s;
  }

  lemma LeadsOne(s: Service, a: ServiceAction)
    requires CanServe(s, a) && Helpful(a)
    ensures Leads(s, Serve(s, a))
  {
    var actions := [a];
    assert Serves(Serve(s, a), actions[1..]);
    assert Served(s, actions) == Served(Serve(s, a), actions[1..]) == Serve(s, a);
  }

  /** What the network does on its own, it does under the service. */
  lemma {:induction false} NetworkLeads(s: Service, actions: seq<Action>)
    requires Runs(s.net, actions) && forall a <- actions :: Spontaneous(a)
    ensures Leads(s, s.(net := After(s.net, actions)))
    decreases |actions|
  {
    if actions == [] {
      LeadsSelf(s);
    } else {
      var next := s.(net := Act(s.net, actions[0]));
      assert Spontaneous(actions[0]);
      LeadsOne(s, Network(actions[0]));
      NetworkLeads(next, actions[1..]);
      LeadsTrans(s, next, s.(net := After(s.net, actions)));
    }
  }

  lemma ReachesLeads(s: Service, m: Net)
    requires Reaches(s.net, m)
    ensures Leads(s, s.(net := m))
  {
    var actions: seq<Action> :| (forall a <- actions :: Spontaneous(a)) && Runs(s.net, actions) && After(s.net, actions) == m;
    NetworkLeads(s, actions);
  }

  /** A service on an open session. */
  predicate OpenService(s: Service) {
    ServiceInv(s) && Alive(s.net)
  }

  /** The network delivers everything written so far. */
  lemma Settle(s: Service) returns (t: Service)
    requires OpenService(s)
    ensures Leads(s, t) && OpenService(t) && t == s.(net := t.net)
    ensures t.net.left.written == s.net.left.written
    ensures t.net.right.Delivered() == t.net.left.written && t.net.left.Delivered() == t.net.right.written
    ensures FlushReady(t.net.right.h)
  {
    var m := EverythingDelivered(s.net);
    t := s.(net := m);
    ReachesLeads(s, m);
    StayMannered(s.net, m);
  }

  lemma StayMannered(n: Net, m: Net)
    requires MannersInv(n) && Open(m)
    ensures MannersInv(m)
  {
  }

  lemma OneStep(s: Service, a: ServiceAction) returns (t: Service)
    requires OpenService(s) && CanServe(s, a) && Helpful(a) && (a.Network? ==> a.a.Reads?)
    ensures t == Serve(s, a) && Leads(s, t) && OpenService(t)
    ensures t.net.left.written == s.net.left.written
  {
    t := Serve(s, a);
    LeadsOne(s, a);
    ServeKeepsInv(s, a);
  }

  /** Everything the application has answered is on its way and delivered. */
  lemma Idle(s: Service) returns (t: Service)
    requires OpenService(s)
    ensures Leads(s, t) && OpenService(t) && Flushed(t)
    ensures t.consumed == s.consumed && t.input == s.input
    ensures t.net.left.written == s.net.left.written
    ensures t.net.right.Delivered() == t.net.left.written && t.net.left.Delivered() == t.net.right.written
  {
    var put := s;
    LeadsSelf(s);
    if s.output != [] {
      OutputFits(s);
      put := OneStep(s, AppWrite(|s.output|));
    }
    t := Settle(put);
    LeadsTrans(s, put, t);
  }

  lemma BytesLeft(s: Service)
    requires ServiceInv(s)
    ensures |s.consumed| + |s.input| <= |s.net.left.written|
  {
    assert |s.net.right.read| <= |s.net.right.Delivered()|;
  }

  /** The application works through every complete line. */
  lemma {:induction false} AllAnswered(s: Service) returns (t: Service)
    requires OpenService(s)
    ensures Leads(s, t) && OpenService(t)
    ensures t.net.left.written == s.net.left.written
    ensures t.net.left.Delivered() == ReverseLines(t.net.left.written)
    decreases |s.net.left.written| - |s.consumed|, |s.net.left.written| - |s.input|
  {
    BytesLeft(s);
    var idle := Idle(s);
    BytesLeft(idle);
    if NEWLINE in idle.input {
      var next := OneStep(idle, AppLine);
      BytesLeft(next);
      t := AllAnswered(next);
      LeadsTrans(s, idle, next);
      LeadsTrans(s, next, t);
    } else if idle.net.right.h.downstream != [] {
      var next := OneStep(idle, AppRead(|idle.net.right.h.downstream|));
      BytesLeft(next);
      t := AllAnswered(next);
      LeadsTrans(s, idle, next);
      LeadsTrans(s, next, t);
    } else {
      t := idle;
      assert idle.net.left.written == idle.consumed + idle.input;
      LineCollected(idle.input, []);
      ReverseInParts(idle.consumed, idle.input, []);
    }
  }

  /**
    End to end: from every reachable state of an open session there is a finite run after which the client
    has read all of its lines reversed, without anybody writing another byte.
   */
  lemma ClientGetsEveryLine(session: Numeric, actions: seq<ServiceAction>) returns (t: Service)
    requires Serves(Begin(session), actions)
    requires Alive(Served(Begin(session), actions).net)
    ensures var s := Served(Begin(session), actions);
      Leads(s, t) && t.net.left.written == s.net.left.written
      && t.net.left.read == ReverseLines(t.net.left.written)
  {
    var s := Served(Begin(session), actions);
    BeginInv(session);
    ServedKeepsInv(Begin(session), actions);
    var answered := AllAnswered(s);
    t := OneStep(answered, Network(Reads(true, |answered.net.left.h.downstream|)));
    LeadsTrans(s, answered, t);
  }
}
