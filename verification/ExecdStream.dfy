/**
 * The incremental splitter of the execd event stream (`next_sse_frame`, `consume_execd_frames`,
 * `consume_final_execd_frame`) and the read loop around it. A blank line, written LF LF or
 * CR LF CR LF, ends a frame.
 */
module ExecdStream {
  import opened Collections
  import opened CappedText

  const LF: Byte := 10
  const CR: Byte := 13
  const LF_LF: seq<Byte> := [LF, LF]
  const CRLF_CRLF: seq<Byte> := [CR, LF, CR, LF]

  const TASK_OUTPUT_BYTES: nat := 64 * 1024
  const MAX_EXECD_FRAME_BUFFER_BYTES: nat := 512 * 1024

  // ---- Finding the next delimiter ----

  ghost predicate Match(buffer: seq<Byte>, pattern: seq<Byte>, i: nat) {
    i + |pattern| <= |buffer| && buffer[i..i + |pattern|] == pattern
  }

  /** The first position at or after `from` where the pattern stands. */
  function Position(buffer: seq<Byte>, pattern: seq<Byte>, from: nat): (r: Option<nat>)
    ensures r.Some? ==> from <= r.value && Match(buffer, pattern, r.value)
    ensures forall i :: from <= i && (r.None? || i < r.value) ==> !Match(buffer, pattern, i)
    decreases |buffer| - from
  {
    if from + |pattern| > |buffer| then None
    else if buffer[from..from + |pattern|] == pattern then Some(from)
    else if from == |buffer| then None
    else Position(buffer, pattern, from + 1)
  }

  datatype Cut = Cut(index: nat, delimiterLen: nat)

  /** `next_sse_frame`: the delimiter that starts first. */
  function NextSseFrame(buffer: seq<Byte>): Option<Cut> {
    var lf := Position(buffer, LF_LF, 0);
    var crlf := Position(buffer, CRLF_CRLF, 0);
    match (lf, crlf)
    case (Some(left), Some(right)) => Some(if left <= right then Cut(left, 2) else Cut(right, 4))
    case (Some(left), None) => Some(Cut(left, 2))
    case (None, Some(right)) => Some(Cut(right, 4))
    case (None, None) => None
  }

  /** A delimiter ends just before position e. */
  ghost predicate EndsDelimiter(s: seq<Byte>, e: nat) {
    || (2 <= e <= |s| && s[e - 2] == LF && s[e - 1] == LF)
    || (4 <= e <= |s| && s[e - 4] == CR && s[e - 3] == LF && s[e - 2] == CR && s[e - 1] == LF)
  }

  ghost predicate Delimited(s: seq<Byte>) {
    exists e: nat :: EndsDelimiter(s, e)
  }

  /**
   * The delimiter that starts first is also the one that ends first, so what comes later in the
   * stream cannot change an earlier cut.
   */
  lemma EarliestStartIsEarliestEnd(buffer: seq<Byte>)
    ensures NextSseFrame(buffer).None? <==> !Delimited(buffer)
    ensures NextSseFrame(buffer).Some? ==>
              var cut := NextSseFrame(buffer).value;
              && cut.index + cut.delimiterLen <= |buffer|
              && EndsDelimiter(buffer, cut.index + cut.delimiterLen)
              && (cut.delimiterLen == 2 <==> buffer[cut.index..cut.index + cut.delimiterLen] == LF_LF)
              && (cut.delimiterLen == 2 || buffer[cut.index..cut.index + cut.delimiterLen] == CRLF_CRLF)
              && forall e: nat :: e < cut.index + cut.delimiterLen ==> !EndsDelimiter(buffer, e)
  {
    var lf, crlf := Position(buffer, LF_LF, 0), Position(buffer, CRLF_CRLF, 0);
    forall e: nat | EndsDelimiter(buffer, e)
      ensures (lf.Some? && lf.value + 2 <= e) || (crlf.Some? && crlf.value + 4 <= e)
    {
      if buffer[e - 2] == LF {
        MatchLf(buffer, e - 2);
      } else {
        MatchCrlf(buffer, e - 4);
      }
    }
    if lf.Some? {
      MatchLf(buffer, lf.value);
      assert EndsDelimiter(buffer, lf.value + 2);
    }
    if crlf.Some? {
      MatchCrlf(buffer, crlf.value);
      assert EndsDelimiter(buffer, crlf.value + 4);
    }
  }

  lemma MatchLf(buffer: seq<Byte>, i: nat)
    ensures Match(buffer, LF_LF, i) <==> i + 2 <= |buffer| && buffer[i] == LF && buffer[i + 1] == LF
  {
    if i + 2 <= |buffer| {
      assert buffer[i..i + 2] == [buffer[i], buffer[i + 1]];
    }
  }

  lemma MatchCrlf(buffer: seq<Byte>, i: nat)
    ensures Match(buffer, CRLF_CRLF, i) <==>
            && i + 4 <= |buffer|
            && buffer[i] == CR && buffer[i + 1] == LF && buffer[i + 2] == CR && buffer[i + 3] == LF
  {
    if i + 4 <= |buffer| {
      assert buffer[i..i + 4] == [buffer[i], buffer[i + 1], buffer[i + 2], buffer[i + 3]];
    }
  }

  // ---- What splitting means, without an algorithm ----

  datatype Frame = Frame(body: seq<Byte>, delimiter: seq<Byte>)

  function Wire(f: Frame): seq<Byte> { f.body + f.delimiter }

  function Render(frames: seq<Frame>): seq<Byte> {
    if frames == [] then [] else Wire(frames[0]) + Render(frames[1..])
  }

  /** A body with one of the two delimiters, where no delimiter ends earlier. */
  ghost predicate Minimal(f: Frame) {
    && (f.delimiter == LF_LF || f.delimiter == CRLF_CRLF)
    && forall e: nat :: e < |Wire(f)| ==> !EndsDelimiter(Wire(f), e)
  }

  datatype Split = Split(frames: seq<Frame>, rest: seq<Byte>)

  /** The stream is the frames followed by a rest without any delimiter: nothing lost, nothing doubled. */
  ghost predicate IsSplit(stream: seq<Byte>, s: Split) {
    && stream == Render(s.frames) + s.rest
    && (forall i :: 0 <= i < |s.frames| ==> Minimal(s.frames[i]))
    && !Delimited(s.rest)
  }

  lemma EndsDelimiterPrefix(s: seq<Byte>, t: seq<Byte>, e: nat)
    requires e <= |s|
    ensures EndsDelimiter(s, e) <==> EndsDelimiter(s + t, e)
  {
  }

  lemma WireEndsDelimiter(f: Frame)
    requires Minimal(f)
    ensures EndsDelimiter(Wire(f), |Wire(f)|)
  {
    var w := Wire(f);
    assert forall i :: 0 <= i < |f.delimiter| ==> w[|f.body| + i] == f.delimiter[i];
  }

  /** Two frames that start the same stream are the same frame. */
  lemma FirstFrameUnique(f: Frame, ft: seq<Byte>, g: Frame, gt: seq<Byte>)
    requires Minimal(f) && Minimal(g)
    requires Wire(f) + ft == Wire(g) + gt
    ensures f == g && ft == gt
  {
    var v, w := Wire(f), Wire(g);
    WireEndsDelimiter(f);
    WireEndsDelimiter(g);
    EndsDelimiterPrefix(v, ft, |v|);
    EndsDelimiterPrefix(w, gt, |w|);
    if |v| < |w| {
      EndsDelimiterPrefix(w, gt, |v|);
    } else if |w| < |v| {
      EndsDelimiterPrefix(v, ft, |w|);
    }
    assert |v| == |w|;
    assert v == (v + ft)[..|v|] && w == (w + gt)[..|w|];
    assert ft == (v + ft)[|v|..] && gt == (w + gt)[|w|..];
    assert v[|v| - 2] == LF <==> f.delimiter == LF_LF;
    assert w[|w| - 2] == LF <==> g.delimiter == LF_LF;
    assert f.body == v[..|v| - |f.delimiter|] && g.body == w[..|w| - |g.delimiter|];
  }

  /** A stream has only one split. */
  lemma {:induction false} SplitUnique(stream: seq<Byte>, s: Split, t: Split)
    requires IsSplit(stream, s) && IsSplit(stream, t)
    ensures s == t
    decreases |s.frames|
  {
    if s.frames == [] && t.frames == [] {
      assert s.rest == [] + s.rest && t.rest == [] + t.rest;
    } else if s.frames == [] {
      FrameInRest(s.rest, t);
    } else if t.frames == [] {
      FrameInRest(t.rest, s);
    } else {
      var f, g := s.frames[0], t.frames[0];
      var s', t' := Split(s.frames[1..], s.rest), Split(t.frames[1..], t.rest);
      var u, v := Render(s'.frames) + s.rest, Render(t'.frames) + t.rest;
      assert stream == Wire(f) + u && stream == Wire(g) + v;
      FirstFrameUnique(f, u, g, v);
      SplitUnique(u, s', t');
      assert s.frames == [f] + s'.frames && t.frames == [g] + t'.frames;
    }
  }

  /** A rest without a delimiter cannot begin with a frame. */
  lemma FrameInRest(rest: seq<Byte>, s: Split)
    requires !Delimited(rest) && s.frames != [] && Minimal(s.frames[0])
    ensures rest != Render(s.frames) + s.rest && [] + rest != Render(s.frames) + s.rest
  {
    var w := Wire(s.frames[0]);
    var tail := Render(s.frames[1..]) + s.rest;
    assert Render(s.frames) + s.rest == w + tail;
    WireEndsDelimiter(s.frames[0]);
    EndsDelimiterPrefix(w, tail, |w|);
    assert [] + rest == rest;
  }

  /** Splits compose: the leftover of the first part is carried into the second. */
  lemma SplitComposes(a: seq<Byte>, b: seq<Byte>, s: Split, t: Split)
    requires IsSplit(a, s) && IsSplit(s.rest + b, t)
    ensures IsSplit(a + b, Split(s.frames + t.frames, t.rest))
  {
    calc {
      a + b;
      { Associative(Render(s.frames), s.rest, b); }
      Render(s.frames) + (s.rest + b);
      { Associative(Render(s.frames), Render(t.frames), t.rest); }
      Render(s.frames) + Render(t.frames) + t.rest;
      { RenderAppend(s.frames, t.frames); }
      Render(s.frames + t.frames) + t.rest;
    }
  }

  lemma Associative(x: seq<Byte>, y: seq<Byte>, z: seq<Byte>)
    ensures x + (y + z) == (x + y) + z
  {
  }

  lemma {:induction false} RenderAppend(a: seq<Frame>, b: seq<Frame>)
    ensures Render(a + b) == Render(a) + Render(b)
  {
    if a == [] {
      assert a + b == b;
    } else {
      calc {
        Render(a + b);
        { assert (a + b)[0] == a[0] && (a + b)[1..] == a[1..] + b; }
        Wire(a[0]) + Render(a[1..] + b);
        { RenderAppend(a[1..], b); }
        Wire(a[0]) + (Render(a[1..]) + Render(b));
        { Associative(Wire(a[0]), Render(a[1..]), Render(b)); }
        Render(a) + Render(b);
      }
    }
  }

  lemma RenderSnoc(frames: seq<Frame>, f: Frame)
    ensures Render(frames + [f]) == Render(frames) + Wire(f)
  {
    RenderAppend(frames, [f]);
    assert Render([f]) == Wire(f) + Render([]) == Wire(f);
  }

  // ---- Outcome of a command ----

  /** A frame decoded as JSON; everything the match does not name is ignored. */
  datatype ExecdEvent =
    | Init(commandId: string)
    | Stdout(text: string)
    | Stderr(text: string)
    | Status(exitCode: Option<int>)
    | Ignored

  datatype ExecdOutcome = ExecdOutcome(
    commandId: Option<string>,
    exitCode: Option<int>,
    stdout: Collected,
    stderr: Collected,
    cancelled: bool,
    streamError: Option<string>)

  const NO_OUTCOME := ExecdOutcome(None, None, Collected("", false), Collected("", false), false, None)

  /** The last part of `parse_execd_frame`. */
  function ApplyEvent(o: ExecdOutcome, e: ExecdEvent): ExecdOutcome {
    match e
    case Init(id) => if id == "" then o else o.(commandId := Some(id))
    case Stdout(text) => o.(stdout := Append(o.stdout, text, TASK_OUTPUT_BYTES))
    case Stderr(text) => o.(stderr := Append(o.stderr, text, TASK_OUTPUT_BYTES))
    case Status(code) => o.(exitCode := if code.Some? then code else o.exitCode)
    case Ignored => o
  }

  /** All frames of a stream, in order. */
  function ApplyFrames(decode: seq<Byte> -> ExecdEvent, o: ExecdOutcome, frames: seq<Frame>): ExecdOutcome {
    if frames == [] then o
    else ApplyEvent(ApplyFrames(decode, o, frames[..|frames| - 1]), decode(frames[|frames| - 1].body))
  }

  lemma {:induction false} ApplyFramesAppend(
    decode: seq<Byte> -> ExecdEvent, o: ExecdOutcome, a: seq<Frame>, b: seq<Frame>)
    ensures ApplyFrames(decode, o, a + b) == ApplyFrames(decode, ApplyFrames(decode, o, a), b)
  {
    if b == [] {
      assert a + b == a;
    } else {
      var b' := b[..|b| - 1];
      ApplyFramesAppend(decode, o, a, b');
      assert (a + b)[..|a + b| - 1] == a + b';
    }
  }

  // ---- What an outcome says about the events ----

  /** The texts of one output, in order. */
  function Texts(events: seq<ExecdEvent>, stdout: bool): seq<string> {
    if events == [] then []
    else
      var before := Texts(events[..|events| - 1], stdout);
      match events[|events| - 1]
      case Stdout(text) => if stdout then before + [text] else before
      case Stderr(text) => if stdout then before else before + [text]
      case _ => before
  }

  function CodeOf(e: ExecdEvent): Option<int> { if e.Status? then e.exitCode else None }

  function IdOf(e: ExecdEvent): Option<string> { if e.Init? && e.commandId != "" then Some(e.commandId) else None }

  /** The last value there is, if there is one. */
  ghost predicate IsLastSome<T(!new)>(r: Option<T>, items: seq<Option<T>>) {
    if r.None? then forall k :: 0 <= k < |items| ==> items[k].None?
    else exists k :: 0 <= k < |items| && items[k] == r && forall m :: k < m < |items| ==> items[m].None?
  }

  lemma LastSomeNext<T(!new)>(r: Option<T>, items: seq<Option<T>>, x: Option<T>)
    requires IsLastSome(r, items)
    ensures IsLastSome(if x.Some? then x else r, items + [x])
  {
    var more := items + [x];
    if x.Some? {
      assert more[|items|] == x;
    } else if r.Some? {
      var k :| 0 <= k < |items| && items[k] == r && forall m :: k < m < |items| ==> items[m].None?;
      assert more[k] == r;
    }
  }

  /**
   * Both outputs are the capped collections of their own texts, the exit code is the last one given, and
   * the command id is the last that is not empty.
   */
  ghost predicate Reports(o: ExecdOutcome, events: seq<ExecdEvent>) {
    && o.stdout == Collect(Texts(events, true), 65536) && o.stderr == Collect(Texts(events, false), 65536)
    && IsLastSome(o.exitCode, seq(|events|, k requires 0 <= k < |events| => CodeOf(events[k])))
    && IsLastSome(o.commandId, seq(|events|, k requires 0 <= k < |events| => IdOf(events[k])))
  }

  lemma CollectOne(texts: seq<string>, text: string)
    ensures Collect(texts + [text], 65536) == Append(Collect(texts, 65536), text, 65536)
  {
    assert (texts + [text])[..|texts|] == texts;
  }

  lemma ReportsNext(o: ExecdOutcome, events: seq<ExecdEvent>, e: ExecdEvent)
    requires Reports(o, events)
    ensures Reports(ApplyEvent(o, e), events + [e])
  {
    var more := events + [e];
    assert more[..|events|] == events;
    var codes := seq(|events|, k requires 0 <= k < |events| => CodeOf(events[k]));
    var ids := seq(|events|, k requires 0 <= k < |events| => IdOf(events[k]));
    LastSomeNext(o.exitCode, codes, CodeOf(e));
    LastSomeNext(o.commandId, ids, IdOf(e));
    assert seq(|more|, k requires 0 <= k < |more| => CodeOf(more[k])) == codes + [CodeOf(e)];
    assert seq(|more|, k requires 0 <= k < |more| => IdOf(more[k])) == ids + [IdOf(e)];
    match e {
      case Stdout(text) => CollectOne(Texts(events, true), text);
      case Stderr(text) => CollectOne(Texts(events, false), text);
      case _ =>
    }
  }

  function Decoded(decode: seq<Byte> -> ExecdEvent, frames: seq<Frame>): seq<ExecdEvent> {
    seq(|frames|, k requires 0 <= k < |frames| => decode(frames[k].body))
  }

  /** The frames add exactly their events to what an outcome says, and nothing else changes. */
  ghost predicate Adds(before: ExecdOutcome, after: ExecdOutcome, events: seq<ExecdEvent>) {
    && after.streamError == before.streamError && after.cancelled == before.cancelled
    && forall prior :: Reports(before, prior) ==> Reports(after, prior + events)
  }

  lemma FramesAdd(decode: seq<Byte> -> ExecdEvent, o: ExecdOutcome, frames: seq<Frame>)
    ensures Adds(o, ApplyFrames(decode, o, frames), Decoded(decode, frames))
  {
    FramesKeepEnding(decode, o, frames);
    forall prior | Reports(o, prior) ensures Reports(ApplyFrames(decode, o, frames), prior + Decoded(decode, frames)) {
      FramesReportAfter(decode, o, frames, prior);
    }
  }

  lemma {:induction false} FramesKeepEnding(decode: seq<Byte> -> ExecdEvent, o: ExecdOutcome, frames: seq<Frame>)
    ensures var after := ApplyFrames(decode, o, frames);
            after.streamError == o.streamError && after.cancelled == o.cancelled
  {
    if frames != [] {
      FramesKeepEnding(decode, o, frames[..|frames| - 1]);
    }
  }

  lemma {:induction false} FramesReportAfter(
    decode: seq<Byte> -> ExecdEvent, o: ExecdOutcome, frames: seq<Frame>, prior: seq<ExecdEvent>)
    requires Reports(o, prior)
    ensures Reports(ApplyFrames(decode, o, frames), prior + Decoded(decode, frames))
  {
    if frames == [] {
      assert prior + Decoded(decode, frames) == prior;
    } else {
      var init, last := frames[..|frames| - 1], decode(frames[|frames| - 1].body);
      FramesReportAfter(decode, o, init, prior);
      ReportsNext(ApplyFrames(decode, o, init), prior + Decoded(decode, init), last);
      assert Decoded(decode, frames) == Decoded(decode, init) + [last];
      assert prior + Decoded(decode, frames) == prior + Decoded(decode, init) + [last];
    }
  }

  lemma FramesReport(decode: seq<Byte> -> ExecdEvent, frames: seq<Frame>)
    ensures Reports(ApplyFrames(decode, NO_OUTCOME, frames), Decoded(decode, frames))
    ensures !ApplyFrames(decode, NO_OUTCOME, frames).cancelled
  {
    FramesAdd(decode, NO_OUTCOME, frames);
    assert Reports(NO_OUTCOME, []);
    assert [] + Decoded(decode, frames) == Decoded(decode, frames);
  }

  /** `consume_execd_frames`: cuts frames off the front of the buffer until none is complete. */
  method ConsumeExecdFrames(decode: seq<Byte> -> ExecdEvent, buffer: seq<Byte>, outcome: ExecdOutcome)
    returns (rest: seq<Byte>, o: ExecdOutcome)
    ensures exists frames ::
              && IsSplit(buffer, Split(frames, rest)) && o == ApplyFrames(decode, outcome, frames)
              && Adds(outcome, o, Decoded(decode, frames))
  {
    rest, o := buffer, outcome;
    ghost var frames: seq<Frame> := [];
    while true
      invariant PartlySplit(buffer, frames, rest)
      invariant o == ApplyFrames(decode, outcome, frames)
      decreases |rest|
    {
      EarliestStartIsEarliestEnd(rest);
      var next := NextSseFrame(rest);
      if next.None? {
        break;
      }
      var Cut(index, delimiterLen) := next.value;
      var body, tail := rest[..index], rest[index + delimiterLen..];
      ghost var f := Frame(body, rest[index..index + delimiterLen]);
      CutOne(buffer, frames, rest, f, tail);
      o := ApplyEvent(o, decode(body));
      assert (frames + [f])[..|frames|] == frames;
      rest, frames := tail, frames + [f];
    }
    FramesAdd(decode, outcome, frames);
    assert IsSplit(buffer, Split(frames, rest));
  }

  /** Some frames are cut off; the rest may hold more. */
  ghost predicate PartlySplit(stream: seq<Byte>, frames: seq<Frame>, rest: seq<Byte>) {
    stream == Render(frames) + rest && forall i :: 0 <= i < |frames| ==> Minimal(frames[i])
  }

  /** Cutting one more frame off the front of the rest. */
  lemma CutOne(stream: seq<Byte>, frames: seq<Frame>, rest: seq<Byte>, f: Frame, tail: seq<Byte>)
    requires PartlySplit(stream, frames, rest) && NextSseFrame(rest).Some?
    requires var cut := NextSseFrame(rest).value;
             && cut.index + cut.delimiterLen <= |rest|
             && f == Frame(rest[..cut.index], rest[cut.index..cut.index + cut.delimiterLen])
             && tail == rest[cut.index + cut.delimiterLen..]
    ensures PartlySplit(stream, frames + [f], tail)
  {
    CutIsMinimal(rest, f, tail);
    RenderSnoc(frames, f);
    Associative(Render(frames), Wire(f), tail);
  }

  lemma CutIsMinimal(rest: seq<Byte>, f: Frame, tail: seq<Byte>)
    requires NextSseFrame(rest).Some?
    requires var cut := NextSseFrame(rest).value;
             && cut.index + cut.delimiterLen <= |rest|
             && f == Frame(rest[..cut.index], rest[cut.index..cut.index + cut.delimiterLen])
             && tail == rest[cut.index + cut.delimiterLen..]
    ensures rest == Wire(f) + tail && Minimal(f)
  {
    EarliestStartIsEarliestEnd(rest);
    var cut := NextSseFrame(rest).value;
    WireOfCut(rest, cut.index, cut.delimiterLen);
    forall e: nat | e < |Wire(f)| ensures !EndsDelimiter(Wire(f), e) {
      EndsDelimiterPrefix(Wire(f), tail, e);
    }
  }

  lemma WireOfCut(rest: seq<Byte>, index: nat, len: nat)
    requires index + len <= |rest|
    ensures var f := Frame(rest[..index], rest[index..index + len]);
            Wire(f) == rest[..index + len] && rest == Wire(f) + rest[index + len..]
  {
  }

  // ---- The read loop ----

  /** What ends the loop once the chunks are used up. */
  datatype Ending = EndOfStream | ReadFailed(message: string) | HardTimeout | Cancellation

  const FRAME_LIMIT_MESSAGE := "OpenSandbox execd frame buffer exceeded its limit"

  /** How the outcome follows from the frames and the leftover. */
  function Finish(decode: seq<Byte> -> ExecdEvent, o: ExecdOutcome, rest: seq<Byte>, ending: Ending): ExecdOutcome {
    match ending
    case EndOfStream => if rest == [] then o else ApplyEvent(o, decode(rest))
    case ReadFailed(message) => o.(streamError := Some(message))
    case HardTimeout => o.(streamError := Some("timeout"))
    case Cancellation => o.(cancelled := true)
  }

  /** The buffer before chunk `read`, with the frames already cut off, would pass its limit with that chunk. */
  ghost predicate TooMuch(chunks: seq<seq<Byte>>, read: nat, s: Split) {
    && read < |chunks| && IsSplit(Flatten(chunks[..read]), s)
    && |s.rest| + |chunks[read]| > MAX_EXECD_FRAME_BUFFER_BYTES
  }

  /** Some chunk would make the buffer larger than its limit. */
  ghost predicate LimitStops(chunks: seq<seq<Byte>>) {
    exists read: nat, s :: TooMuch(chunks, read, s)
  }

  /** The first such chunk. */
  ghost predicate FirstTooMuch(chunks: seq<seq<Byte>>, read: nat, s: Split) {
    TooMuch(chunks, read, s) && forall k: nat, u :: k < read ==> !TooMuch(chunks, k, u)
  }

  /**
   * What reading these chunks gives: the outcome of all frames of the stream and of its ending, or, exactly
   * when some chunk is too much, that of the frames before the first such chunk, with the limit error.
   */
  ghost predicate IsOutcome(
    decode: seq<Byte> -> ExecdEvent, chunks: seq<seq<Byte>>, ending: Ending, outcome: ExecdOutcome)
  {
    if LimitStops(chunks) then
      exists read: nat, s ::
        && FirstTooMuch(chunks, read, s)
        && outcome == ApplyFrames(decode, NO_OUTCOME, s.frames).(streamError := Some(FRAME_LIMIT_MESSAGE))
    else
      exists s ::
        && IsSplit(Flatten(chunks), s)
        && outcome == Finish(decode, ApplyFrames(decode, NO_OUTCOME, s.frames), s.rest, ending)
  }

  /**
   * The same without the frame loop: which events the outcome reports, whether the leftover counts as a
   * last one, which error it carries, and whether it was cancelled.
   */
  ghost predicate Tells(
    decode: seq<Byte> -> ExecdEvent, chunks: seq<seq<Byte>>, ending: Ending, outcome: ExecdOutcome)
  {
    if LimitStops(chunks) then
      && outcome.streamError == Some("OpenSandbox execd frame buffer exceeded its limit") && !outcome.cancelled
      && exists read: nat, s :: FirstTooMuch(chunks, read, s) && Reports(outcome, Decoded(decode, s.frames))
    else
      && (outcome.cancelled <==> ending == Cancellation)
      && outcome.streamError == (match ending
                                 case ReadFailed(message) => Some(message)
                                 case HardTimeout => Some("timeout")
                                 case _ => None)
      && exists s ::
           && IsSplit(Flatten(chunks), s)
           && Reports(outcome, Decoded(decode, s.frames) +
                               if ending == EndOfStream && s.rest != [] then [decode(s.rest)] else [])
  }

  lemma OutcomeTells(decode: seq<Byte> -> ExecdEvent, chunks: seq<seq<Byte>>, ending: Ending, x: ExecdOutcome)
    requires IsOutcome(decode, chunks, ending, x)
    ensures Tells(decode, chunks, ending, x)
  {
    if LimitStops(chunks) {
      var read: nat, s :|
        && FirstTooMuch(chunks, read, s)
        && x == ApplyFrames(decode, NO_OUTCOME, s.frames).(streamError := Some(FRAME_LIMIT_MESSAGE));
      FramesReport(decode, s.frames);
    } else {
      var s :|
        IsSplit(Flatten(chunks), s) && x == Finish(decode, ApplyFrames(decode, NO_OUTCOME, s.frames), s.rest, ending);
      ErrorOfEnding(decode, chunks, ending, x);
      FinishReports(decode, s, ending);
    }
  }

  lemma FinishReports(decode: seq<Byte> -> ExecdEvent, s: Split, ending: Ending)
    ensures var x := Finish(decode, ApplyFrames(decode, NO_OUTCOME, s.frames), s.rest, ending);
            && (x.cancelled <==> ending == Cancellation)
            && Reports(x, Decoded(decode, s.frames) +
                          if ending == EndOfStream && s.rest != [] then [decode(s.rest)] else [])
  {
    var o, events := ApplyFrames(decode, NO_OUTCOME, s.frames), Decoded(decode, s.frames);
    FramesReport(decode, s.frames);
    if ending == EndOfStream && s.rest != [] {
      ReportsNext(o, events, decode(s.rest));
    } else {
      assert events + [] == events;
    }
  }

  /** The stream loop of `execute_sandbox_command`. */
  method ReadExecdStream(decode: seq<Byte> -> ExecdEvent, chunks: seq<seq<Byte>>, ending: Ending)
    returns (outcome: ExecdOutcome)
    ensures IsOutcome(decode, chunks, ending, outcome)
    ensures Tells(decode, chunks, ending, outcome)
  {
    outcome := ReadChunks(decode, chunks, ending);
    OutcomeTells(decode, chunks, ending, outcome);
  }

  method ReadChunks(decode: seq<Byte> -> ExecdEvent, chunks: seq<seq<Byte>>, ending: Ending)
    returns (outcome: ExecdOutcome)
    ensures IsOutcome(decode, chunks, ending, outcome)
  {
    var buffer: seq<Byte> := [];
    outcome := NO_OUTCOME;
    ghost var frames: seq<Frame> := [];
    for i := 0 to |chunks|
      invariant Reading(decode, chunks, i, frames, buffer, outcome)
    {
      if |buffer| + |chunks[i]| > MAX_EXECD_FRAME_BUFFER_BYTES {
        outcome := outcome.(streamError := Some(FRAME_LIMIT_MESSAGE));
        assert FirstTooMuch(chunks, i, Split(frames, buffer));
        return;
      }
      buffer, outcome, frames := ReadChunk(decode, chunks, i, frames, buffer, outcome);
    }
    assert chunks[..|chunks|] == chunks;
    assert IsSplit(Flatten(chunks), Split(frames, buffer)) && !LimitStops(chunks);
    outcome := Finish(decode, outcome, buffer, ending);
  }

  /** Before chunk i: the frames so far, the buffer, the outcome of the frames, and no chunk was too much. */
  ghost predicate Reading(
    decode: seq<Byte> -> ExecdEvent, chunks: seq<seq<Byte>>, i: nat,
    frames: seq<Frame>, buffer: seq<Byte>, outcome: ExecdOutcome)
  {
    && i <= |chunks| && IsSplit(Flatten(chunks[..i]), Split(frames, buffer))
    && outcome == ApplyFrames(decode, NO_OUTCOME, frames)
    && forall k: nat, u :: k < i ==> !TooMuch(chunks, k, u)
  }

  /** One chunk that is not too much. */
  method ReadChunk(
    decode: seq<Byte> -> ExecdEvent, chunks: seq<seq<Byte>>, i: nat,
    ghost frames: seq<Frame>, buffer: seq<Byte>, outcome: ExecdOutcome)
    returns (rest: seq<Byte>, o: ExecdOutcome, ghost all: seq<Frame>)
    requires Reading(decode, chunks, i, frames, buffer, outcome) && i < |chunks|
    requires |buffer| + |chunks[i]| <= MAX_EXECD_FRAME_BUFFER_BYTES
    ensures Reading(decode, chunks, i + 1, all, rest, o)
  {
    NotTooMuch(chunks, i, Split(frames, buffer));
    var extended := buffer + chunks[i];
    rest, o := ConsumeExecdFrames(decode, extended, outcome);
    ghost var more :| IsSplit(extended, Split(more, rest)) && o == ApplyFrames(decode, outcome, more);
    FlattenPrefix(chunks, i);
    SplitComposes(Flatten(chunks[..i]), chunks[i], Split(frames, buffer), Split(more, rest));
    ApplyFramesAppend(decode, NO_OUTCOME, frames, more);
    all := frames + more;
  }

  lemma NotTooMuch(chunks: seq<seq<Byte>>, i: nat, s: Split)
    requires i < |chunks| && IsSplit(Flatten(chunks[..i]), s)
    requires |s.rest| + |chunks[i]| <= MAX_EXECD_FRAME_BUFFER_BYTES
    ensures forall u :: !TooMuch(chunks, i, u)
  {
    forall u ensures !TooMuch(chunks, i, u) {
      if TooMuch(chunks, i, u) {
        SplitUnique(Flatten(chunks[..i]), s, u);
      }
    }
  }

  /** There is only one outcome. */
  lemma OutcomeUnique(
    decode: seq<Byte> -> ExecdEvent, chunks: seq<seq<Byte>>, ending: Ending, x: ExecdOutcome, y: ExecdOutcome)
    requires IsOutcome(decode, chunks, ending, x) && IsOutcome(decode, chunks, ending, y)
    ensures x == y
  {
    if LimitStops(chunks) {
      var m: nat, s :|
        FirstTooMuch(chunks, m, s) &&
        x == ApplyFrames(decode, NO_OUTCOME, s.frames).(streamError := Some(FRAME_LIMIT_MESSAGE));
      var n: nat, t :|
        FirstTooMuch(chunks, n, t) &&
        y == ApplyFrames(decode, NO_OUTCOME, t.frames).(streamError := Some(FRAME_LIMIT_MESSAGE));
      assert !(m < n) && !(n < m);
      SplitUnique(Flatten(chunks[..m]), s, t);
    } else {
      SameOutcome(decode, chunks, chunks, ending, x, y);
    }
  }

  lemma {:induction false} FramesLeaveNoError(decode: seq<Byte> -> ExecdEvent, frames: seq<Frame>)
    ensures ApplyFrames(decode, NO_OUTCOME, frames).streamError == None
  {
    if frames != [] {
      FramesLeaveNoError(decode, frames[..|frames| - 1]);
    }
  }

  /** The error of an outcome is the limit error exactly when the limit stops the reading. */
  lemma LimitIsReported(
    decode: seq<Byte> -> ExecdEvent, chunks: seq<seq<Byte>>, ending: Ending, x: ExecdOutcome)
    requires IsOutcome(decode, chunks, ending, x) && ending != ReadFailed(FRAME_LIMIT_MESSAGE)
    ensures x.streamError == Some(FRAME_LIMIT_MESSAGE) <==> LimitStops(chunks)
  {
    if !LimitStops(chunks) {
      ErrorOfEnding(decode, chunks, ending, x);
      assert "timeout"[0] == 't';
    }
  }

  /** Without the limit, the error is that of the ending. */
  lemma ErrorOfEnding(
    decode: seq<Byte> -> ExecdEvent, chunks: seq<seq<Byte>>, ending: Ending, x: ExecdOutcome)
    requires IsOutcome(decode, chunks, ending, x) && !LimitStops(chunks)
    ensures x.streamError == ErrorOf(ending)
  {
    var s :|
      IsSplit(Flatten(chunks), s) &&
      x == Finish(decode, ApplyFrames(decode, NO_OUTCOME, s.frames), s.rest, ending);
    FramesLeaveNoError(decode, s.frames);
    FinishError(decode, ApplyFrames(decode, NO_OUTCOME, s.frames), s.rest, ending);
  }

  lemma FinishError(decode: seq<Byte> -> ExecdEvent, o: ExecdOutcome, rest: seq<Byte>, ending: Ending)
    requires o.streamError == None
    ensures Finish(decode, o, rest, ending).streamError == ErrorOf(ending)
  {
  }

  /** The error an ending leaves. */
  function ErrorOf(ending: Ending): Option<string> {
    match ending
    case ReadFailed(message) => Some(message)
    case HardTimeout => Some("timeout")
    case _ => None
  }

  /**
   * Chunking independence: two ways of cutting the same stream give the same frames, the same
   * leftover and the same outcome.
   */
  lemma ChunkingIndependence(
    decode: seq<Byte> -> ExecdEvent, a: seq<seq<Byte>>, s: Split, b: seq<seq<Byte>>, t: Split, ending: Ending)
    requires Flatten(a) == Flatten(b)
    requires IsSplit(Flatten(a), s) && IsSplit(Flatten(b), t)
    ensures s == t
    ensures Finish(decode, ApplyFrames(decode, NO_OUTCOME, s.frames), s.rest, ending)
         == Finish(decode, ApplyFrames(decode, NO_OUTCOME, t.frames), t.rest, ending)
  {
    SplitUnique(Flatten(a), s, t);
  }

  /** So readings that the limit does not stop agree. */
  lemma SameOutcome(
    decode: seq<Byte> -> ExecdEvent, a: seq<seq<Byte>>, b: seq<seq<Byte>>, ending: Ending,
    x: ExecdOutcome, y: ExecdOutcome)
    requires Flatten(a) == Flatten(b) && !LimitStops(a) && !LimitStops(b)
    requires IsOutcome(decode, a, ending, x) && IsOutcome(decode, b, ending, y)
    ensures x == y
  {
    var s :|
      IsSplit(Flatten(a), s) && x == Finish(decode, ApplyFrames(decode, NO_OUTCOME, s.frames), s.rest, ending);
    var t :|
      IsSplit(Flatten(b), t) && y == Finish(decode, ApplyFrames(decode, NO_OUTCOME, t.frames), t.rest, ending);
    ChunkingIndependence(decode, a, s, b, t, ending);
  }

  /**
   * The same stream read in two chunkings. The outcomes agree when the limit stops neither; they differ
   * when it stops one of them; and their errors agree exactly when it stops both or neither.
   */
  method ReadTwice(decode: seq<Byte> -> ExecdEvent, a: seq<seq<Byte>>, b: seq<seq<Byte>>, ending: Ending)
    returns (x: ExecdOutcome, y: ExecdOutcome)
    requires Flatten(a) == Flatten(b)
    ensures !LimitStops(a) && !LimitStops(b) ==> x == y
    ensures ending != ReadFailed(FRAME_LIMIT_MESSAGE) ==>
              (x.streamError == y.streamError <==> (LimitStops(a) <==> LimitStops(b)))
    ensures |Flatten(a)| <= 524_288 ==> x == y
  {
    x := ReadExecdStream(decode, a, ending);
    y := ReadExecdStream(decode, b, ending);
    if |Flatten(a)| <= MAX_EXECD_FRAME_BUFFER_BYTES {
      LimitNotReached(a);
      LimitNotReached(b);
    }
    if !LimitStops(a) && !LimitStops(b) {
      SameOutcome(decode, a, b, ending, x, y);
    }
    if ending != ReadFailed(FRAME_LIMIT_MESSAGE) {
      LimitIsReported(decode, a, ending, x);
      LimitIsReported(decode, b, ending, y);
    }
  }

  /** A stream that fits into the buffer limit is never refused, however it is cut. */
  lemma LimitNotReached(chunks: seq<seq<Byte>>)
    requires |Flatten(chunks)| <= MAX_EXECD_FRAME_BUFFER_BYTES
    ensures !LimitStops(chunks)
  {
    if read: nat, s :| TooMuch(chunks, read, s) {
      FlattenPrefix(chunks, read);
      FlattenSplit(chunks, read + 1);
    }
  }

  // ---- A longer stream: the chunking can matter ----

  function LineFeeds(n: nat): seq<Byte> { seq(n, i => LF) }

  lemma TwoLineFeedsAreAFrame()
    ensures IsSplit([LF, LF], Split([Frame([], LF_LF)], []))
  {
    var f := Frame([], LF_LF);
    assert Wire(f) == [LF, LF];
    assert Render([f]) == Wire(f) + Render([]);
  }

  const AT_ONCE: seq<seq<Byte>> := [LineFeeds(524_289)]
  const IN_TWO: seq<seq<Byte>> := [LineFeeds(2), LineFeeds(524_287)]

  /** One line feed more than the limit, at once or with the first two ahead: only the former is refused. */
  lemma ChunkingCanMatter(decode: seq<Byte> -> ExecdEvent, x: ExecdOutcome, y: ExecdOutcome)
    requires IsOutcome(decode, AT_ONCE, EndOfStream, x) && IsOutcome(decode, IN_TWO, EndOfStream, y)
    ensures Flatten(AT_ONCE) == Flatten(IN_TWO) && LimitStops(AT_ONCE) && !LimitStops(IN_TWO)
    ensures x.streamError == Some(FRAME_LIMIT_MESSAGE) && y.streamError == None
  {
    SameLineFeeds();
    AtOnceTooMuch();
    InTwoNotTooMuch();
    LimitIsReported(decode, AT_ONCE, EndOfStream, x);
    ErrorOfEnding(decode, IN_TWO, EndOfStream, y);
  }

  lemma SameLineFeeds()
    ensures Flatten(AT_ONCE) == Flatten(IN_TWO)
  {
    FlattenPrefix(AT_ONCE, 0);
    assert AT_ONCE[..1] == AT_ONCE && AT_ONCE[..0] == [];
    FlattenPrefix(IN_TWO, 0);
    FlattenPrefix(IN_TWO, 1);
    assert IN_TWO[..2] == IN_TWO && IN_TWO[..0] == [];
    assert LineFeeds(2) + LineFeeds(524_287) == LineFeeds(524_289);
  }

  lemma AtOnceTooMuch()
    ensures LimitStops(AT_ONCE)
  {
    assert AT_ONCE[..0] == [];
    assert IsSplit([], Split([], []));
    assert TooMuch(AT_ONCE, 0, Split([], []));
  }

  lemma InTwoNotTooMuch()
    ensures !LimitStops(IN_TWO)
  {
    if read: nat, s :| TooMuch(IN_TWO, read, s) {
      FlattenPrefix(IN_TWO, 0);
      assert IN_TWO[..0] == [] && Flatten(IN_TWO[..1]) == LineFeeds(2) == [LF, LF];
      TwoLineFeedsAreAFrame();
      if read == 1 {
        SplitUnique([LF, LF], s, Split([Frame([], LF_LF)], []));
      }
    }
  }
}
