/**
  The framer of the job centre's requests: one line of JSON per request, with a limit on the length of a line.

  What a complete line means is left to the JSON library: a frame is the line itself, without its newline.
 */
module RequestCodec {
  import opened Wrappers
  import opened Lines
  import opened ByteTypes
  import opened Seqs

  const NEWLINE: Byte := 10

  datatype Frame = Line(bytes: Bytes) | TooLong

  // ------------------------------------------------------ what is promised

  function Judge(max: nat, line: Bytes): Frame {
    if |line| <= max then Line(line) else TooLong
  }

  /** The frames of the lines that `s` completes when `line` is already open. */
  function Complete(max: nat, s: Bytes, line: Bytes): seq<Frame> {
    if s == [] then []
    else if s[0] == NEWLINE then [Judge(max, line)] + Complete(max, s[1..], [])
    else Complete(max, s[1..], line + [s[0]])
  }

  /** A line is given up as soon as its unfinished beginning is over the limit. */
  function GivenUp(max: nat, line: Bytes): seq<Frame> {
    if |line| > max then [TooLong] else []
  }

  /** The frames of a whole input: one per line, and one error for an over-long line not yet finished. */
  function Frames(max: nat, s: Bytes): seq<Frame> {
    Complete(max, s, []) + GivenUp(max, Pending(s, NEWLINE, []))
  }

  // ------------------------------------------------- one call of the framer

  datatype Step = Step(frame: Option<Frame>, discarding: bool, rest: Bytes)

  /** A call that is not discarding. */
  function DecodeLine(max: nat, buffer: Bytes): Step {
    var k := LineEnd(buffer, NEWLINE);
    if k < |buffer| && k <= max then Step(Some(Line(buffer[..k])), false, buffer[k + 1..])
    else if |buffer| > max then Step(Some(TooLong), true, buffer)
    else Step(None, false, buffer)
  }

  /** What one call does with the buffered bytes; while discarding, the rest of the line goes first. */
  function Decode(max: nat, discarding: bool, buffer: Bytes): Step {
    if !discarding then DecodeLine(max, buffer)
    else
      var k := LineEnd(buffer, NEWLINE);
      if k < |buffer| then DecodeLine(max, buffer[k + 1..]) else Step(None, true, [])
  }

  /** The framer as the library holds it, with the index from which it has still to look for a newline. */
  class Codec {
    const maxLength: nat
    var nextIndex: nat
    var isDiscarding: bool

    constructor (maxLength: nat)
      ensures this.maxLength == maxLength && nextIndex == 0 && !isDiscarding
    {
      this.maxLength, nextIndex, isDiscarding := maxLength, 0, false;
    }

    /** No byte before the index is a newline, and the index is within the limit. */
    ghost predicate Valid(src: Bytes)
      reads this
    {
      nextIndex <= |src| && nextIndex <= maxLength && NEWLINE !in src[..nextIndex]
    }

    /** The first newline in `src` from `from` on and before `to`. */
    static method FindNewline(src: Bytes, from: nat, to: nat) returns (offset: Option<nat>)
      requires from <= to <= |src| && NEWLINE !in src[..from]
      ensures offset.None? <==> LineEnd(src, NEWLINE) >= to
      ensures offset.Some? ==> from + offset.value == LineEnd(src, NEWLINE) < to
    {
      var i := from;
      while i < to
        invariant from <= i <= to
        invariant NEWLINE !in src[..i]
      {
        if src[i] == NEWLINE {
          EndAt(src, NEWLINE, i);
          return Some(i - from);
        }
        i := i + 1;
      }
      EndAt(src, NEWLINE, to);
      offset := None;
    }

    method DecodeNext(input: Bytes) returns (frame: Option<Frame>, src: Bytes)
      requires Valid(input)
      modifies this
      ensures Step(frame, isDiscarding, src) == Decode(maxLength, old(isDiscarding), input)
      ensures Valid(src)
    {
      hide LineEnd, Decode;
      src := input;
      while true
        invariant Valid(src)
        invariant Decode(maxLength, isDiscarding, src) == Decode(maxLength, old(isDiscarding), input)
        decreases isDiscarding, |src|
      {
        var readTo := if maxLength + 1 < |src| then maxLength + 1 else |src|;
        var offset := FindNewline(src, nextIndex, readTo);
        DecodeCases(maxLength, src);
        match (isDiscarding, offset)
        case (true, Some(n)) =>
          src := src[n + nextIndex + 1..];
          isDiscarding := false;
          nextIndex := 0;
        case (true, None) =>
          DiscardMore(maxLength, src, readTo);
          src := src[readTo..];
          nextIndex := 0;
          if src == [] {
            DecodeCases(maxLength, src);
            return None, src;
          }
        case (false, Some(n)) =>
          var newlineIndex := n + nextIndex;
          nextIndex := 0;
          var line := src[..newlineIndex];
          src := src[newlineIndex + 1..];
          return Some(Line(line)), src;
        case (false, None) =>
          if |src| > maxLength {
            isDiscarding := true;
            return Some(TooLong), src;
          }
          nextIndex := readTo;
          assert src[..nextIndex] == src;
          return None, src;
      }
    }
  }

  /** `Decode` by the position of the first newline. */
  lemma DecodeCases(max: nat, s: Bytes)
    ensures var k := LineEnd(s, NEWLINE);
      && (k < |s| ==> Decode(max, true, s) == Decode(max, false, s[k + 1..]))
      && (k == |s| ==> Decode(max, true, s) == Step(None, true, []))
      && (k < |s| && k <= max ==> Decode(max, false, s) == Step(Some(Line(s[..k])), false, s[k + 1..]))
      && (max < k && |s| > max ==> Decode(max, false, s) == Step(Some(TooLong), true, s))
      && (|s| <= k && |s| <= max ==> Decode(max, false, s) == Step(None, false, s))
  {
  }

  /** Throwing away a piece without a newline changes nothing for the rest of the discarded line. */
  lemma DiscardMore(max: nat, s: Bytes, n: nat)
    requires n <= |s| && LineEnd(s, NEWLINE) >= n
    ensures Decode(max, true, s[n..]) == Decode(max, true, s)
  {
    hide LineEnd, DecodeLine;
    var k := LineEnd(s, NEWLINE);
    EndAfterDrop(s, NEWLINE, n);
    if k < |s| {
      assert s[n..][k - n + 1..] == s[k + 1..];
    }
  }

  // ------------------------------------------------ all calls, any chunking

  datatype Run = Run(frames: seq<Frame>, discarding: bool, rest: Bytes)

  /** Calls until nothing more can be decoded from the buffer. */
  function Drain(max: nat, discarding: bool, buffer: Bytes): Run
    decreases |buffer|, !discarding
  {
    var step := Decode(max, discarding, buffer);
    if step.frame.None? then Run([], step.discarding, step.rest)
    else
      DecodeShrinks(max, discarding, buffer);
      var more := Drain(max, step.discarding, step.rest);
      more.(frames := [step.frame.value] + more.frames)
  }

  lemma DecodeShrinks(max: nat, discarding: bool, buffer: Bytes)
    requires Decode(max, discarding, buffer).frame.Some?
    ensures var step := Decode(max, discarding, buffer);
      |step.rest| < |buffer| || (|step.rest| == |buffer| && step.discarding && !discarding)
  {
  }

  /** Feeds the chunks one after the other, each followed by calls until nothing more comes. */
  function Feed(max: nat, discarding: bool, buffer: Bytes, chunks: seq<Bytes>): seq<Frame>
    decreases |chunks|
  {
    if chunks == [] then []
    else
      var run := Drain(max, discarding, buffer + chunks[0]);
      run.frames + Feed(max, run.discarding, run.rest, chunks[1..])
  }

  /** The framer's state after the input read so far, of which `line` is the open line. */
  predicate StateFor(max: nat, discarding: bool, buffer: Bytes, line: Bytes) {
    if |line| > max then discarding && buffer == [] else !discarding && buffer == line
  }

  lemma {:induction false} Plain(max: nat, text: Bytes, line: Bytes)
    requires NEWLINE !in text
    ensures Complete(max, text, line) == [] && Pending(text, NEWLINE, line) == line + text
  {
    if text == [] {
      assert line + text == line;
    } else {
      Plain(max, text[1..], line + [text[0]]);
      assert line + [text[0]] + text[1..] == line + text;
    }
  }

  lemma {:induction false} InParts(max: nat, s: Bytes, t: Bytes, line: Bytes)
    ensures Complete(max, s + t, line) == Complete(max, s, line) + Complete(max, t, Pending(s, NEWLINE, line))
    ensures Pending(s + t, NEWLINE, line) == Pending(t, NEWLINE, Pending(s, NEWLINE, line))
  {
    if s == [] {
      assert s + t == t;
    } else {
      assert (s + t)[1..] == s[1..] + t;
      InParts(max, s[1..], t, if s[0] == NEWLINE then [] else line + [s[0]]);
    }
  }

  lemma AtNewline(max: nat, s: Bytes, line: Bytes)
    requires s != [] && s[0] == NEWLINE
    ensures Complete(max, s, line) == [Judge(max, line)] + Complete(max, s[1..], [])
    ensures Pending(s, NEWLINE, line) == Pending(s[1..], NEWLINE, [])
  {
  }

  /** The first line of `s`, when `line` is open, and what follows it. */
  lemma FirstLine(max: nat, s: Bytes, line: Bytes)
    ensures var k := LineEnd(s, NEWLINE);
      if k < |s| then
        Complete(max, s, line) == [Judge(max, line + s[..k])] + Complete(max, s[k + 1..], [])
        && Pending(s, NEWLINE, line) == Pending(s[k + 1..], NEWLINE, [])
      else
        Complete(max, s, line) == [] && Pending(s, NEWLINE, line) == line + s
  {
    hide Complete, Pending, LineEnd;
    var k := LineEnd(s, NEWLINE);
    if k < |s| {
      Plain(max, s[..k], line);
      InParts(max, s[..k], s[k..], line);
      AtNewline(max, s[k..], line + s[..k]);
      assert s[..k] + s[k..] == s;
      assert s[k..][1..] == s[k + 1..];
    } else {
      Plain(max, s, line);
    }
  }

  /** The first line of an input that begins with it. */
  lemma FirstWholeLine(max: nat, buffer: Bytes)
    ensures var k := LineEnd(buffer, NEWLINE);
      if k < |buffer| then
        Complete(max, buffer, []) == [Judge(max, buffer[..k])] + Complete(max, buffer[k + 1..], [])
        && Pending(buffer, NEWLINE, []) == Pending(buffer[k + 1..], NEWLINE, [])
      else
        Complete(max, buffer, []) == [] && Pending(buffer, NEWLINE, []) == buffer
  {
    hide Pending, Complete, LineEnd, Judge;
    FirstLine(max, buffer, []);
    NothingFirst(buffer[..LineEnd(buffer, NEWLINE)]);
    NothingFirst(buffer);
  }

  lemma FirstFrames(max: nat, buffer: Bytes)
    ensures var k := LineEnd(buffer, NEWLINE);
      if k < |buffer| then
        Frames(max, buffer) == [Judge(max, buffer[..k])] + Frames(max, buffer[k + 1..])
        && Pending(buffer, NEWLINE, []) == Pending(buffer[k + 1..], NEWLINE, [])
      else
        Frames(max, buffer) == GivenUp(max, buffer) && Pending(buffer, NEWLINE, []) == buffer
  {
    hide Pending, Complete, LineEnd, GivenUp, Judge, Frames;
    var k := LineEnd(buffer, NEWLINE);
    FirstWholeLine(max, buffer);
    FramesAre(max, buffer);
    if k < |buffer| {
      var rest := buffer[k + 1..];
      FramesAre(max, rest);
      Associative([Judge(max, buffer[..k])], Complete(max, rest, []), GivenUp(max, Pending(rest, NEWLINE, [])));
    } else {
      NothingFirst(GivenUp(max, buffer));
    }
  }

  lemma FramesAre(max: nat, s: Bytes)
    ensures Frames(max, s) == Complete(max, s, []) + GivenUp(max, Pending(s, NEWLINE, []))
  {
  }

  lemma Associative<T>(a: seq<T>, b: seq<T>, c: seq<T>)
    ensures (a + b) + c == a + (b + c)
  {
  }

  lemma NothingFirst<T>(a: seq<T>)
    ensures [] + a == a
  {
  }

  /** All calls on a buffer: the frames of its lines, and the error of an over-long rest. */
  lemma {:induction false} DrainFrames(max: nat, buffer: Bytes)
    ensures Drain(max, false, buffer).frames == Frames(max, buffer)
    ensures var r := Drain(max, false, buffer); StateFor(max, r.discarding, r.rest, Pending(buffer, NEWLINE, []))
    decreases |buffer|
  {
    hide Frames, Pending, LineEnd;
    var k := LineEnd(buffer, NEWLINE);
    FirstFrames(max, buffer);
    if k < |buffer| {
      DrainFrames(max, buffer[k + 1..]);
      if k > max {
        DrainDiscarding(max, buffer);
      }
    } else if |buffer| > max {
      DrainDiscarding(max, buffer);
    }
  }

  lemma DrainDiscarding(max: nat, buffer: Bytes)
    ensures var k := LineEnd(buffer, NEWLINE);
      Drain(max, true, buffer) == if k < |buffer| then Drain(max, false, buffer[k + 1..]) else Run([], true, [])
  {
  }

  /** An open line and a chunk are together one input. */
  lemma LineThen(max: nat, line: Bytes, chunk: Bytes)
    requires NEWLINE !in line
    ensures Complete(max, line + chunk, []) == Complete(max, chunk, line)
    ensures Pending(line + chunk, NEWLINE, []) == Pending(chunk, NEWLINE, line)
  {
    Plain(max, line, []);
    assert [] + line == line;
    InParts(max, line, chunk, []);
  }

  lemma {:induction false} PendingIsOpen(s: Bytes, line: Bytes)
    requires NEWLINE !in line
    ensures NEWLINE !in Pending(s, NEWLINE, line)
  {
    if s != [] {
      PendingIsOpen(s[1..], if s[0] == NEWLINE then [] else line + [s[0]]);
    }
  }

  lemma DiscardedChunk(max: nat, line: Bytes, chunk: Bytes)
    requires |line| > max
    ensures var r := Drain(max, true, chunk);
      && [TooLong] + r.frames == Complete(max, chunk, line) + GivenUp(max, Pending(chunk, NEWLINE, line))
      && StateFor(max, r.discarding, r.rest, Pending(chunk, NEWLINE, line))
  {
    hide Pending, Complete, LineEnd, Decode, Drain;
    var k := LineEnd(chunk, NEWLINE);
    DrainDiscarding(max, chunk);
    FirstLine(max, chunk, line);
    if k < |chunk| {
      DrainFrames(max, chunk[k + 1..]);
      assert Judge(max, line + chunk[..k]) == TooLong;
    }
  }

  /** One more chunk gives exactly the frames by which the whole input has grown. */
  lemma DrainChunk(max: nat, discarding: bool, buffer: Bytes, line: Bytes, chunk: Bytes)
    requires StateFor(max, discarding, buffer, line) && NEWLINE !in line
    ensures var r := Drain(max, discarding, buffer + chunk);
      && GivenUp(max, line) + r.frames == Complete(max, chunk, line) + GivenUp(max, Pending(chunk, NEWLINE, line))
      && StateFor(max, r.discarding, r.rest, Pending(chunk, NEWLINE, line))
  {
    hide Pending, Complete, Drain;
    if discarding {
      assert buffer + chunk == chunk;
      DiscardedChunk(max, line, chunk);
    } else {
      DrainFrames(max, line + chunk);
      LineThen(max, line, chunk);
      var frames := Drain(max, false, line + chunk).frames;
      assert GivenUp(max, line) + frames == frames;
    }
  }

  lemma {:induction false} FeedFrames(max: nat, discarding: bool, buffer: Bytes, line: Bytes, chunks: seq<Bytes>)
    requires StateFor(max, discarding, buffer, line) && NEWLINE !in line
    ensures GivenUp(max, line) + Feed(max, discarding, buffer, chunks)
         == Complete(max, Concat(chunks), line) + GivenUp(max, Pending(Concat(chunks), NEWLINE, line))
    decreases |chunks|
  {
    if chunks == [] {
      assert GivenUp(max, line) + [] == [] + GivenUp(max, line);
    } else {
      var chunk, rest := chunks[0], Concat(chunks[1..]);
      var run := Drain(max, discarding, buffer + chunk);
      var line' := Pending(chunk, NEWLINE, line);
      DrainChunk(max, discarding, buffer, line, chunk);
      PendingIsOpen(chunk, line);
      FeedFrames(max, run.discarding, run.rest, line', chunks[1..]);
      InParts(max, chunk, rest, line);
      Regroup(GivenUp(max, line), run.frames, Complete(max, chunk, line), GivenUp(max, line'),
              Feed(max, run.discarding, run.rest, chunks[1..]),
              Complete(max, rest, line'), GivenUp(max, Pending(rest, NEWLINE, line')));
    }
  }

  lemma Regroup<T>(a: seq<T>, r: seq<T>, c: seq<T>, g: seq<T>, f: seq<T>, c': seq<T>, g': seq<T>)
    requires a + r == c + g && g + f == c' + g'
    ensures a + (r + f) == (c + c') + g'
  {
    calc {
      a + (r + f);
      (a + r) + f;
      (c + g) + f;
      c + (g + f);
      c + (c' + g');
      (c + c') + g';
    }
  }

  /**
    However the input arrives in chunks, the framer yields the frames of the whole input: a line for every line
    within the limit, one error for every longer line.
   */
  lemma AnyChunking(max: nat, chunks: seq<Bytes>)
    ensures Feed(max, false, [], chunks) == Frames(max, Concat(chunks))
  {
    FeedFrames(max, false, [], [], chunks);
    assert GivenUp(max, []) + Feed(max, false, [], chunks) == Feed(max, false, [], chunks);
  }

  function Joined(lines: seq<Bytes>): Bytes {
    if lines == [] then [] else lines[0] + [10] + Joined(lines[1..])
  }

  function JudgeEach(max: nat, lines: seq<Bytes>): seq<Frame> {
    if lines == [] then [] else [Judge(max, lines[0])] + JudgeEach(max, lines[1..])
  }

  lemma JoinedFirst(lines: seq<Bytes>)
    ensures Joined(lines) == if lines == [] then [] else lines[0] + [NEWLINE] + Joined(lines[1..])
  {
  }

  /** The meaning of `Frames` for an input given as lines and an unfinished rest. */
  lemma {:induction false} FramesOfLines(max: nat, lines: seq<Bytes>, rest: Bytes)
    requires forall l <- lines :: NEWLINE !in l
    requires NEWLINE !in rest
    ensures Frames(max, Joined(lines) + rest) == JudgeEach(max, lines) + GivenUp(max, rest)
    decreases |lines|
  {
    hide Frames, LineEnd, Judge, GivenUp, Joined;
    JoinedFirst(lines);
    if lines == [] {
      assert [] + rest == rest && [] + GivenUp(max, rest) == GivenUp(max, rest);
      FramesOfRest(max, rest);
    } else {
      var line, more := lines[0], Joined(lines[1..]) + rest;
      FramesOfLines(max, lines[1..], rest);
      assert Joined(lines) + rest == line + [NEWLINE] + more;
      FramesOfFirst(max, line, more);
      Associative([Judge(max, line)], JudgeEach(max, lines[1..]), GivenUp(max, rest));
    }
  }

  lemma FramesOfRest(max: nat, rest: Bytes)
    requires NEWLINE !in rest
    ensures Frames(max, rest) == GivenUp(max, rest)
  {
    hide Frames, Judge, GivenUp;
    FirstFrames(max, rest);
  }

  lemma FramesOfFirst(max: nat, line: Bytes, more: Bytes)
    requires NEWLINE !in line
    ensures Frames(max, line + [NEWLINE] + more) == [Judge(max, line)] + Frames(max, more)
  {
    hide Frames, Judge, GivenUp;
    FirstFrames(max, line + [NEWLINE] + more);
    EndOfFirst(line, NEWLINE, more);
  }

  /** The encoder: a request's JSON text and a newline, refused over the limit. */
  function Encode(max: nat, data: Bytes): Option<Bytes> {
    if |data| > max then None else Some(data + [NEWLINE])
  }

  function EncodeAll(max: nat, requests: seq<Bytes>): Bytes
    requires forall r <- requests :: Encode(max, r).Some?
  {
    if requests == [] then [] else Encode(max, requests[0]).value + EncodeAll(max, requests[1..])
  }

  function AsLines(requests: seq<Bytes>): seq<Frame> {
    if requests == [] then [] else [Line(requests[0])] + AsLines(requests[1..])
  }

  lemma {:induction false} EncodedIsJoined(max: nat, requests: seq<Bytes>)
    requires forall r <- requests :: Encode(max, r).Some?
    ensures EncodeAll(max, requests) == Joined(requests)
    ensures JudgeEach(max, requests) == AsLines(requests)
  {
    if requests != [] {
      EncodedIsJoined(max, requests[1..]);
    }
  }

  /** Encoded requests come back whole and in order, however the bytes are cut on their way. */
  lemma EncodedRequestsComeBack(max: nat, requests: seq<Bytes>, chunks: seq<Bytes>)
    requires forall r <- requests :: Encode(max, r).Some? && NEWLINE !in r
    requires Concat(chunks) == EncodeAll(max, requests)
    ensures Feed(max, false, [], chunks) == AsLines(requests)
  {
    EncodedIsJoined(max, requests);
    AnyChunking(max, chunks);
    FramesOfLines(max, requests, []);
    assert Joined(requests) + [] == Joined(requests);
    assert JudgeEach(max, requests) + GivenUp(max, []) == JudgeEach(max, requests);
  }
}
