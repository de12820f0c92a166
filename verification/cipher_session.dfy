/** Whole sessions of the obfuscation layer: chunks come in, bytes go out, in any order. */
module CipherSession {
  import opened Cipher
  import opened CipherCodec

  // ------------------------------------------------------ draining a buffer

  datatype Drained = Drained(state: State, decoded: Bytes, rest: Bytes)

  /** The calls of the decoder on a buffer, until one yields no byte. */
  function Drain(state: State, src: Bytes): Drained
    requires Returns(state, src)
    decreases |src|
  {
    var o := DecodeCall(state, src);
    if o.result.Ok? && o.result.value.Some? then
      CallShrinks(state, src);
      var more := Drain(o.state, o.rest);
      more.(decoded := [o.result.value.value] + more.decoded)
    else Drained(o.state, [], o.rest)
  }

  lemma CallShrinks(state: State, src: Bytes)
    requires Returns(state, src)
    ensures var o := DecodeCall(state, src);
      o.result.Ok? && o.result.value.Some? ==> |o.rest| < |src| && o.state.Complete?
  {
    hide Scan, IsValid, Decode;
    if state.Incomplete? && src != [] {
      var more := ScanSound(state.operations, src);
    }
  }

  /** The position after these bytes. */
  function After(position: Position, s: Bytes): Position
    decreases |s|
  {
    if s == [] then position else After(position + 1, s[1..])
  }

  /** Draining a buffer takes its bytes one at a time, each at its own position, and leaves nothing. */
  lemma {:induction false} DrainIsStream(spec: Spec, up: Position, down: Position, src: Bytes)
    ensures Drain(Complete(spec, up, down), src)
         == Drained(Complete(spec, After(up, src), down), DecodeStream(spec, up, src), [])
    decreases |src|
  {
    hide Decode;
    if src != [] {
      DrainIsStream(spec, up + 1, down, src[1..]);
    }
  }

  lemma {:induction false} DecodeInParts(spec: Spec, position: Position, s: Bytes, t: Bytes)
    ensures DecodeStream(spec, position, s + t) == DecodeStream(spec, position, s) + DecodeStream(spec, After(position, s), t)
    decreases |s|
  {
    hide Decode;
    if s == [] {
      assert s + t == t;
    } else {
      assert (s + t)[1..] == s[1..] + t;
      DecodeInParts(spec, position + 1, s[1..], t);
    }
  }

  lemma {:induction false} EncodeInParts(spec: Spec, position: Position, s: Bytes, t: Bytes)
    ensures EncodeStream(spec, position, s + t) == EncodeStream(spec, position, s) + EncodeStream(spec, After(position, s), t)
    decreases |s|
  {
    hide Encode;
    if s == [] {
      assert s + t == t;
    } else {
      assert (s + t)[1..] == s[1..] + t;
      EncodeInParts(spec, position + 1, s[1..], t);
    }
  }

  // --------------------------------------------------------------- sessions

  /** A chunk comes in, or a byte goes out. */
  datatype Event = In(chunk: Bytes) | Out(v: bv8)

  datatype Session = Session(state: State, decoded: Bytes, encoded: Bytes)

  const START: Session := Session(Incomplete([]), [], [])

  /** A byte that is to go out before the spec is complete is refused. */
  function Handle(s: Session, e: Event): Session
    requires e.In? ==> Returns(s.state, e.chunk)
  {
    match e
    case In(chunk) =>
      var d := Drain(s.state, chunk);
      Session(d.state, s.decoded + d.decoded, s.encoded)
    case Out(v) =>
      if !s.state.Complete? then s
      else
        var encoded := Encode(s.state.spec, s.state.downstream, v);
        Session(s.state.(downstream := s.state.downstream + 1), s.decoded, s.encoded + [encoded])
  }

  function HandleAll(s: Session, events: seq<Event>): Session
    requires s.state.Complete?
    decreases |events|
  {
    if events == [] then s
    else
      HandleOne(s, events[0]);
      HandleAll(Handle(s, events[0]), events[1..])
  }

  function Ins(events: seq<Event>): Bytes {
    if events == [] then [] else (if events[0].In? then events[0].chunk else []) + Ins(events[1..])
  }

  function Outs(events: seq<Event>): Bytes {
    if events == [] then [] else (if events[0].Out? then [events[0].v] else []) + Outs(events[1..])
  }

  /** What one event does in a session whose spec is complete: it touches one stream and its counter. */
  /** A session whose spec was refused understands nothing more and sends nothing, whatever comes. */
  lemma {:induction false} RefusedForGood(s: Session, events: seq<Event>)
    requires s.state.Broken?
    ensures HandleAny(s, events) == s
    decreases |events|
  {
    if events != [] {
      assert s.decoded + [] == s.decoded;
      RefusedForGood(s, events[1..]);
    }
  }

  /** A session in any state, as far as its calls return. */
  function HandleAny(s: Session, events: seq<Event>): Session
    decreases |events|
  {
    if events == [] || (events[0].In? && !Returns(s.state, events[0].chunk)) then s
    else HandleAny(Handle(s, events[0]), events[1..])
  }

  lemma HandleOne(s: Session, e: Event)
    requires s.state.Complete?
    ensures var c := s.state;
      Handle(s, e) ==
      if e.In? then
        Session(c.(upstream := After(c.upstream, e.chunk)), s.decoded + DecodeStream(c.spec, c.upstream, e.chunk), s.encoded)
      else
        Session(c.(downstream := After(c.downstream, [e.v])), s.decoded, s.encoded + EncodeStream(c.spec, c.downstream, [e.v]))
  {
    hide Encode, Decode, Drain, After;
    if e.In? {
      DrainIsStream(s.state.spec, s.state.upstream, s.state.downstream, e.chunk);
    } else {
      OneByte(s.state.spec, s.state.downstream, e.v);
    }
  }

  lemma OneByte(spec: Spec, position: Position, v: bv8)
    ensures EncodeStream(spec, position, [v]) == [Encode(spec, position, v)] && After(position, [v]) == position + 1
  {
    hide Encode;
    assert [v][1..] == [];
  }

  /** From `s` to `r`, each direction has carried the stream of its own counter. */
  predicate Carried(s: Session, events: seq<Event>, r: Session) {
    && s.state.Complete?
    && r.state.Complete? && r.state.spec == s.state.spec
    && r.decoded == s.decoded + DecodeStream(s.state.spec, s.state.upstream, Ins(events))
    && r.encoded == s.encoded + EncodeStream(s.state.spec, s.state.downstream, Outs(events))
  }

  lemma CarriedIn(s: Session, events: seq<Event>, r: Session)
    requires s.state.Complete? && events != [] && events[0].In? && Carried(Handle(s, events[0]), events[1..], r)
    ensures Carried(s, events, r)
  {
    hide DecodeStream, EncodeStream, Handle, Encode, After, Ins, Outs;
    var c, chunk, rest := s.state, events[0].chunk, events[1..];
    HandleOne(s, events[0]);
    FirstIn(c.spec, c.upstream, events);
    Associative(s.decoded, DecodeStream(c.spec, c.upstream, chunk), DecodeStream(c.spec, After(c.upstream, chunk), Ins(rest)));
  }

  lemma CarriedOut(s: Session, events: seq<Event>, r: Session)
    requires s.state.Complete? && events != [] && events[0].Out? && Carried(Handle(s, events[0]), events[1..], r)
    ensures Carried(s, events, r)
  {
    hide DecodeStream, EncodeStream, Handle, Encode, After, Ins, Outs;
    var c, out, rest := s.state, [events[0].v], events[1..];
    HandleOne(s, events[0]);
    FirstOut(c.spec, c.downstream, events);
    Associative(s.encoded, EncodeStream(c.spec, c.downstream, out), EncodeStream(c.spec, After(c.downstream, out), Outs(rest)));
  }

  /** However the two directions are cut and interleaved, each is the stream of its own counter. */
  lemma {:induction false} TwoCounters(s: Session, events: seq<Event>)
    requires s.state.Complete?
    ensures Carried(s, events, HandleAll(s, events))
    decreases |events|
  {
    hide DecodeStream, EncodeStream, Handle, Encode, After, Ins, Outs;
    if events == [] {
      NothingStreamed(s.state.spec, s.state.upstream, s.state.downstream);
      assert s.decoded + [] == s.decoded && s.encoded + [] == s.encoded;
    } else {
      hide Carried;
      HandleOne(s, events[0]);
      TwoCounters(Handle(s, events[0]), events[1..]);
      if events[0].In? {
        CarriedIn(s, events, HandleAll(s, events));
      } else {
        CarriedOut(s, events, HandleAll(s, events));
      }
    }
  }

  lemma FirstIn(spec: Spec, position: Position, events: seq<Event>)
    requires events != [] && events[0].In?
    ensures var chunk, rest := events[0].chunk, events[1..];
      && Outs(events) == Outs(rest)
      && DecodeStream(spec, position, Ins(events))
         == DecodeStream(spec, position, chunk) + DecodeStream(spec, After(position, chunk), Ins(rest))
  {
    hide DecodeStream, After;
    DecodeInParts(spec, position, events[0].chunk, Ins(events[1..]));
    assert [] + Outs(events[1..]) == Outs(events[1..]);
  }

  lemma FirstOut(spec: Spec, position: Position, events: seq<Event>)
    requires events != [] && events[0].Out?
    ensures var out, rest := [events[0].v], events[1..];
      && Ins(events) == Ins(rest)
      && EncodeStream(spec, position, Outs(events))
         == EncodeStream(spec, position, out) + EncodeStream(spec, After(position, out), Outs(rest))
  {
    hide EncodeStream, After;
    EncodeInParts(spec, position, [events[0].v], Outs(events[1..]));
    assert [] + Ins(events[1..]) == Ins(events[1..]);
  }

  lemma NothingStreamed(spec: Spec, up: Position, down: Position)
    ensures DecodeStream(spec, up, Ins([])) == [] && EncodeStream(spec, down, Outs([])) == []
  {
  }

  lemma Associative(a: Bytes, b: Bytes, c: Bytes)
    ensures (a + b) + c == a + (b + c)
  {
  }

  /** The first chunk, with a whole valid spec at its front, leaves the session as if the rest had come alone. */
  lemma FirstChunk(spec: Spec, head: Bytes)
    requires IsValid(spec)
    ensures var first := Wire(spec) + [0x00] + head;
      && Returns(Incomplete([]), first)
      && Handle(START, In(first)) == Handle(Session(Complete(spec, 0, 0), [], []), In(head))
  {
    hide IsValid, Decode, Wire, Scan;
    FirstCall(spec, head);
  }

  /**
    A client sends a spec and then what it has to say, obfuscated. As long as the first chunk holds the whole spec, the
    rest may be cut in any way and interleaved with the server's bytes in any way: the server understands what was
    said, and the client understands what the server sends.
   */
  lemma WholeSession(spec: Spec, head: Bytes, events: seq<Event>, said: Bytes)
    requires IsValid(spec) && head + Ins(events) == EncodeStream(spec, 0, said)
    ensures var first := Wire(spec) + [0x00] + head;
      && Returns(Incomplete([]), first)
      && var s := Handle(START, In(first));
      && s.state.Complete?
      && var r := HandleAll(s, events);
      && r.decoded == said
      && DecodeStream(spec, 0, r.encoded) == Outs(events)
  {
    hide IsValid, Encode, Decode, Wire, Scan, Handle, HandleAll, DecodeStream, EncodeStream, After;
    FirstChunk(spec, head);
    var open := Session(Complete(spec, 0, 0), [], []);
    HandleOne(open, In(head));
    var s := Handle(open, In(head));
    TwoCounters(s, events);
    DecodeInParts(spec, 0, head, Ins(events));
    StreamInverse(spec, 0, said);
    StreamInverse(spec, 0, Outs(events));
    Associative([], DecodeStream(spec, 0, head), DecodeStream(spec, After(0, head), Ins(events)));
    assert [] + DecodeStream(spec, 0, head) == DecodeStream(spec, 0, head);
    assert [] + EncodeStream(spec, 0, Outs(events)) == EncodeStream(spec, 0, Outs(events));
  }
}
