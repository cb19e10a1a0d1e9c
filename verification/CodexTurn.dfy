/**
 * Event sequence numbers of one Codex turn (`send_turn_events` and the process loop under it). Every
 * activity line takes a number, but only the first 512 activity events are kept, so the returned
 * events can have a gap. The gap has an exact shape.
 */
module CodexTurn {
  import opened Collections
  import opened CappedBytes

  const MAX_ACTIVITY_EVENTS: nat := 512
  const MAX_PROCESS_OUTPUT_BYTES: nat := 256 * 1024

  datatype Kind =
    | RuntimeRunning
    | TurnStarted
    | Activity
    | OutputTruncated(stdoutTruncated: bool, stderrTruncated: bool, droppedActivityCount: nat)
    | ApprovalRequested
    | RuntimeBlocked
    | RuntimeError
    | TurnInterrupted
    | ProviderMessageCompleted
    | TurnCompleted
    | RuntimeReady

  datatype Event = Event(seqNo: int, kind: Kind)

  type Seqs = map<string, int>

  /** The last number given out in a session. */
  function Counter(seqs: Seqs, session: string): int {
    if session in seqs then seqs[session] else 0
  }

  /** `next_runtime_seq` and the event built around it. */
  method NextEvent(seqs: Seqs, session: string, kind: Kind) returns (after: Seqs, event: Event)
    ensures after == seqs[session := Counter(seqs, session) + 1]
    ensures event == Event(Counter(seqs, session) + 1, kind)
  {
    after := seqs[session := if session in seqs then seqs[session] + 1 else 1];
    event := Event(after[session], kind);
  }

  /** `emit_codex_activity_event`. */
  method EmitActivity(events: seq<Event>, dropped: nat, event: Event) returns (kept: seq<Event>, d: nat)
    ensures |events| < MAX_ACTIVITY_EVENTS ==> kept == events + [event] && d == dropped
    ensures |events| >= MAX_ACTIVITY_EVENTS ==> kept == events && d == dropped + 1
  {
    if |events| < MAX_ACTIVITY_EVENTS {
      return events + [event], dropped;
    }
    return events, dropped + 1;
  }

  // ---- The process ----

  /** A line from one of the two streams, in the order the loop reads them. */
  datatype ProcessLine = ProcessLine(fromStdout: bool, bytes: seq<Byte>)

  function Stream(lines: seq<ProcessLine>, fromStdout: bool): seq<seq<Byte>> {
    if lines == [] then []
    else Stream(lines[..|lines| - 1], fromStdout) +
         if lines[|lines| - 1].fromStdout == fromStdout then [lines[|lines| - 1].bytes] else []
  }

  datatype ProcessOutput = ProcessOutput(
    stdout: seq<Byte>, stdoutTruncated: bool,
    stderr: seq<Byte>, stderrTruncated: bool,
    activity: seq<Event>, dropped: nat)

  /** Consecutive events of one kind, numbered from `from`. */
  function Numbered(from: int, kinds: seq<Kind>): seq<Event> {
    seq(|kinds|, i requires 0 <= i < |kinds| => Event(from + i, kinds[i]))
  }

  function Activities(n: nat): seq<Kind> {
    seq(n, i => Activity)
  }

  function Kept(lines: nat): nat {
    if lines <= MAX_ACTIVITY_EVENTS then lines else MAX_ACTIVITY_EVENTS
  }

  /** After n lines: n numbers are used, the first 512 became events, the rest are counted. */
  ghost predicate Counted(seqs: Seqs, after: Seqs, session: string, activity: seq<Event>, dropped: nat, n: nat) {
    && Counter(after, session) == Counter(seqs, session) + n
    && after - {session} == seqs - {session}
    && activity == Numbered(Counter(seqs, session) + 1, Activities(Kept(n)))
    && dropped == n - Kept(n)
  }

  /** Both captured streams hold the first bytes of what their lines wrote. */
  ghost predicate Captured(out: ProcessOutput, lines: seq<ProcessLine>) {
    && HoldsFirst(out.stdout, out.stdoutTruncated, LineStream(Stream(lines, true)), MAX_PROCESS_OUTPUT_BYTES)
    && HoldsFirst(out.stderr, out.stderrTruncated, LineStream(Stream(lines, false)), MAX_PROCESS_OUTPUT_BYTES)
  }

  /** The capture half of one loop iteration. */
  method CaptureLine(out: ProcessOutput, ghost lines: seq<ProcessLine>, line: ProcessLine) returns (r: ProcessOutput)
    requires Captured(out, lines)
    ensures Captured(r, lines + [line])
    ensures r.activity == out.activity && r.dropped == out.dropped
  {
    StreamNext(lines, line);
    ghost var stream := LineStream(Stream(lines, line.fromStdout));
    if line.fromStdout {
      var bytes, cut := AppendCappedProcessLine(
        out.stdout, line.bytes, MAX_PROCESS_OUTPUT_BYTES, out.stdoutTruncated, stream);
      r := out.(stdout := bytes, stdoutTruncated := cut);
    } else {
      var bytes, cut := AppendCappedProcessLine(
        out.stderr, line.bytes, MAX_PROCESS_OUTPUT_BYTES, out.stderrTruncated, stream);
      r := out.(stderr := bytes, stderrTruncated := cut);
    }
  }

  /** The activity half of one loop iteration. */
  method CountLine(
    ghost seqs: Seqs, before: Seqs, session: string, activity: seq<Event>, dropped: nat, ghost n: nat)
    returns (after: Seqs, kept: seq<Event>, d: nat)
    requires Counted(seqs, before, session, activity, dropped, n)
    ensures Counted(seqs, after, session, kept, d, n + 1)
  {
    var event;
    after, event := NextEvent(before, session, Activity);
    ActivitiesNext(Counter(seqs, session) + 1, Kept(n));
    kept, d := EmitActivity(activity, dropped, event);
  }

  /** The line loop. */
  method RunProcess(seqs: Seqs, session: string, lines: seq<ProcessLine>) returns (after: Seqs, out: ProcessOutput)
    ensures Counted(seqs, after, session, out.activity, out.dropped, |lines|)
    ensures Captured(out, lines)
  {
    after, out := seqs, ProcessOutput([], false, [], false, [], 0);
    for i := 0 to |lines|
      invariant ReadSoFar(seqs, after, session, out, lines[..i])
    {
      after, out := ReadLine(seqs, after, session, out, lines, i);
    }
    assert lines[..|lines|] == lines;
  }

  ghost predicate ReadSoFar(
    seqs: Seqs, after: Seqs, session: string, out: ProcessOutput, lines: seq<ProcessLine>)
  {
    Counted(seqs, after, session, out.activity, out.dropped, |lines|) && Captured(out, lines)
  }

  /** One iteration of the line loop. */
  method ReadLine(
    ghost seqs: Seqs, before: Seqs, session: string, out: ProcessOutput, lines: seq<ProcessLine>, i: nat)
    returns (after: Seqs, r: ProcessOutput)
    requires i < |lines| && ReadSoFar(seqs, before, session, out, lines[..i])
    ensures ReadSoFar(seqs, after, session, r, lines[..i + 1])
  {
    var captured := CaptureLine(out, lines[..i], lines[i]);
    var activity, dropped;
    after, activity, dropped := CountLine(seqs, before, session, out.activity, out.dropped, i);
    r := captured.(activity := activity, dropped := dropped);
    SoFarNext(seqs, after, session, captured, r, lines, i);
  }

  lemma SoFarNext(
    seqs: Seqs, after: Seqs, session: string, captured: ProcessOutput, r: ProcessOutput,
    lines: seq<ProcessLine>, i: nat)
    requires i < |lines| && Captured(captured, lines[..i] + [lines[i]])
    requires r == captured.(activity := r.activity, dropped := r.dropped)
    requires Counted(seqs, after, session, r.activity, r.dropped, i + 1)
    ensures ReadSoFar(seqs, after, session, r, lines[..i + 1])
  {
    assert lines[..i + 1] == lines[..i] + [lines[i]];
  }

  lemma ActivitiesNext(from: int, n: nat)
    ensures Numbered(from, Activities(n + 1)) == Numbered(from, Activities(n)) + [Event(from + n, Activity)]
    ensures |Numbered(from, Activities(n))| == n
  {
  }

  lemma StreamNext(lines: seq<ProcessLine>, line: ProcessLine)
    ensures Stream(lines + [line], !line.fromStdout) == Stream(lines, !line.fromStdout)
    ensures LineStream(Stream(lines + [line], line.fromStdout))
         == LineStream(Stream(lines, line.fromStdout)) + line.bytes + [NEWLINE]
  {
    assert (lines + [line])[..|lines|] == lines;
    var before := Stream(lines, line.fromStdout);
    assert (before + [line.bytes])[..|before|] == before;
  }

  // ---- The turn ----

  /** How the process ended and what it left behind. */
  datatype Ending =
    | Exited(success: bool, approvals: nat, message: string)
    | Cancelled
    | Errored

  /** The kinds that follow the activity and the limit warning. */
  function Closing(ending: Ending): seq<Kind> {
    match ending
    case Exited(true, approvals, message) =>
      if approvals > 0 then seq(approvals, i => ApprovalRequested) + [RuntimeBlocked]
      else if message == "" then [RuntimeError]
      else [ProviderMessageCompleted, TurnCompleted, RuntimeReady]
    case Exited(false, _, _) => [RuntimeError]
    case Cancelled => [TurnInterrupted]
    case Errored => [RuntimeError]
  }

  /** Appends one numbered event per kind. */
  method AppendEvents(seqs: Seqs, session: string, events: seq<Event>, kinds: seq<Kind>)
    returns (after: Seqs, all: seq<Event>)
    ensures Counter(after, session) == Counter(seqs, session) + |kinds|
    ensures after - {session} == seqs - {session}
    ensures all == events + Numbered(Counter(seqs, session) + 1, kinds)
  {
    after, all := seqs, events;
    for i := 0 to |kinds|
      invariant Counter(after, session) == Counter(seqs, session) + i
      invariant after - {session} == seqs - {session}
      invariant all == events + Numbered(Counter(seqs, session) + 1, kinds[..i])
    {
      var event;
      after, event := NextEvent(after, session, kinds[i]);
      assert kinds[..i + 1] == kinds[..i] + [kinds[i]];
      NumberedAppend(Counter(seqs, session) + 1, kinds[..i], [kinds[i]]);
      assert Numbered(Counter(seqs, session) + 1 + i, [kinds[i]]) == [event];
      all := all + [event];
    }
    assert kinds[..|kinds|] == kinds;
  }

  lemma NumberedAppend(from: int, a: seq<Kind>, b: seq<Kind>)
    ensures Numbered(from, a + b) == Numbered(from, a) + Numbered(from + |a|, b)
  {
  }

  /** The warning of `append_codex_process_limit_events`, if one is due. */
  function LimitKinds(out: ProcessOutput): seq<Kind> {
    if out.stdoutTruncated || out.stderrTruncated || out.dropped > 0
    then [OutputTruncated(out.stdoutTruncated, out.stderrTruncated, out.dropped)] else []
  }

  /** What follows the two opening events, when `next` is the first free number after all lines. */
  function Tail(next: int, activity: seq<Event>, limit: seq<Kind>, ending: Ending): seq<Event> {
    if ending.Exited?
    then activity + Numbered(next, limit) + Numbered(next + |limit|, Closing(ending))
    else Numbered(next, Closing(ending))
  }

  /** The match on the process result in `send_turn_events`. */
  method AppendTail(
    seqs: Seqs, session: string, events: seq<Event>, output: ProcessOutput, ending: Ending, ghost next: int)
    returns (after: Seqs, all: seq<Event>)
    requires next == Counter(seqs, session) + 1
    ensures all == events + Tail(next, output.activity, LimitKinds(output), ending)
    ensures after - {session} == seqs - {session}
    ensures Counter(after, session) ==
            Counter(seqs, session) + (if ending.Exited? then |LimitKinds(output)| else 0) + |Closing(ending)|
  {
    after, all := seqs, events;
    if ending.Exited? {
      all := events + output.activity;
      after, all := AppendEvents(after, session, all, LimitKinds(output));
    }
    after, all := AppendEvents(after, session, all, Closing(ending));
  }

  /** The part of `send_turn_events` from the first event on, with a workspace that is allowed. */
  method SendTurnEvents(seqs: Seqs, session: string, lines: seq<ProcessLine>, ending: Ending)
    returns (after: Seqs, events: seq<Event>, ghost out: ProcessOutput)
    ensures out.dropped == |lines| - Kept(|lines|) && Captured(out, lines)
    ensures events == Returned(Counter(seqs, session), |lines|, LimitKinds(out), ending)
    ensures after - {session} == seqs - {session}
    ensures Counter(after, session) ==
            Counter(seqs, session) + 2 + |lines| + (if ending.Exited? then |LimitKinds(out)| else 0) + |Closing(ending)|
    ensures Opens(events) && Ends(events, ending)
    ensures Warns(events, |LineStream(Stream(lines, true))| > 262144, |LineStream(Stream(lines, false))| > 262144,
                  |lines|, ending)
    ensures Count(KindsOf(events), Activity) ==
            if ending.Exited? then (if |lines| <= 512 then |lines| else 512) else 0
  {
    var output;
    after, events, output := SendAll(seqs, session, lines, ending);
    out := output;
    TurnTells(Counter(seqs, session), |lines|, output, ending, events);
  }

  method SendAll(seqs: Seqs, session: string, lines: seq<ProcessLine>, ending: Ending)
    returns (after: Seqs, events: seq<Event>, out: ProcessOutput)
    ensures out.dropped == |lines| - Kept(|lines|) && Captured(out, lines)
    ensures events == Returned(Counter(seqs, session), |lines|, LimitKinds(out), ending)
    ensures after - {session} == seqs - {session}
    ensures Counter(after, session) ==
            Counter(seqs, session) + 2 + |lines| + (if ending.Exited? then |LimitKinds(out)| else 0) + |Closing(ending)|
  {
    ghost var next := Counter(seqs, session) + 3 + |lines|;
    var mid, opening, output := OpenAndRun(seqs, session, lines);
    out := output;
    after, events := AppendTail(mid, session, opening, output, ending, next);
    ReturnedParts(Counter(seqs, session), |lines|, opening, output, ending, next);
  }

  lemma ReturnedParts(
    c: int, lines: nat, opening: seq<Event>, output: ProcessOutput, ending: Ending, next: int)
    requires opening == Numbered(c + 1, [RuntimeRunning, TurnStarted]) && next == c + 3 + lines
    requires output.activity == Numbered(c + 3, Activities(Kept(lines)))
    ensures opening + Tail(next, output.activity, LimitKinds(output), ending)
         == Returned(c, lines, LimitKinds(output), ending)
  {
  }

  /** The two opening events and the process. */
  method OpenAndRun(seqs: Seqs, session: string, lines: seq<ProcessLine>)
    returns (after: Seqs, opening: seq<Event>, output: ProcessOutput)
    ensures opening == Numbered(Counter(seqs, session) + 1, [RuntimeRunning, TurnStarted])
    ensures output.activity == Numbered(Counter(seqs, session) + 3, Activities(Kept(|lines|)))
    ensures output.dropped == |lines| - Kept(|lines|) && Captured(output, lines)
    ensures after - {session} == seqs - {session} && Counter(after, session) == Counter(seqs, session) + 2 + |lines|
  {
    after, opening := AppendEvents(seqs, session, [], [RuntimeRunning, TurnStarted]);
    after, output := RunProcess(after, session, lines);
  }

  /** The events of a turn as a formula: two openers, the kept activity, then the tail after all numbers used. */
  function Returned(c: int, lines: nat, limit: seq<Kind>, ending: Ending): seq<Event> {
    Numbered(c + 1, [RuntimeRunning, TurnStarted]) +
    Tail(c + 3 + lines, Numbered(c + 3, Activities(Kept(lines))), limit, ending)
  }

  // ---- What the events of a turn say ----

  function KindsOf(events: seq<Event>): seq<Kind> {
    seq(|events|, i requires 0 <= i < |events| => events[i].kind)
  }

  /** A turn opens with its two openers, which occur nowhere else. */
  ghost predicate Opens(events: seq<Event>) {
    var kinds := KindsOf(events);
    && |kinds| >= 3 && kinds[0] == RuntimeRunning && kinds[1] == TurnStarted
    && Count(kinds, RuntimeRunning) == 1 && Count(kinds, TurnStarted) == 1
  }

  /**
   * How a turn ends. A successful exit asks for each approval and then blocks, or completes with its
   * message, or fails for want of one; a cancelled turn is interrupted; everything else is an error.
   */
  ghost predicate Ends(events: seq<Event>, ending: Ending)
    requires |events| >= 3
  {
    var kinds, n := KindsOf(events), |events|;
    var blocked := ending.Exited? && ending.success && ending.approvals > 0;
    var completed := ending.Exited? && ending.success && ending.approvals == 0 && ending.message != "";
    var failed := !blocked && !completed && ending != Cancelled;
    && Count(kinds, ApprovalRequested) == (if blocked then ending.approvals else 0)
    && Count(kinds, RuntimeBlocked) == (if blocked then 1 else 0) && (blocked ==> kinds[n - 1] == RuntimeBlocked)
    && Count(kinds, ProviderMessageCompleted) == (if completed then 1 else 0)
    && Count(kinds, TurnCompleted) == (if completed then 1 else 0)
    && Count(kinds, RuntimeReady) == (if completed then 1 else 0)
    && (completed ==> kinds[n - 3..] == [ProviderMessageCompleted, TurnCompleted, RuntimeReady])
    && Count(kinds, TurnInterrupted) == (if ending == Cancelled then 1 else 0)
    && (ending == Cancelled ==> kinds[n - 1] == TurnInterrupted)
    && Count(kinds, RuntimeError) == (if failed then 1 else 0) && (failed ==> kinds[n - 1] == RuntimeError)
  }

  /**
   * A turn that ran to its exit warns exactly when an output or the activity was cut, and the one warning
   * says which.
   */
  ghost predicate Warns(events: seq<Event>, outCut: bool, errCut: bool, lines: nat, ending: Ending) {
    var kinds, dropped := KindsOf(events), if lines <= 512 then 0 else lines - 512;
    var warning := OutputTruncated(outCut, errCut, dropped);
    var due := ending.Exited? && (outCut || errCut || dropped > 0);
    && Count(kinds, warning) == (if due then 1 else 0)
    && forall k :: k in kinds && k.OutputTruncated? ==> k == warning
  }

  /** The lines of one stream are those of its parts, and a line belongs to the stream it came from. */
  lemma {:induction false} StreamAppend(a: seq<ProcessLine>, b: seq<ProcessLine>, fromStdout: bool)
    ensures Stream(a + b, fromStdout) == Stream(a, fromStdout) + Stream(b, fromStdout)
  {
    if b == [] {
      assert a + b == a;
    } else {
      var b', last := b[..|b| - 1], b[|b| - 1];
      var more := if last.fromStdout == fromStdout then [last.bytes] else [];
      calc {
        Stream(a + b, fromStdout);
        { assert (a + b)[..|a + b| - 1] == a + b' && (a + b)[|a + b| - 1] == last; }
        Stream(a + b', fromStdout) + more;
        { StreamAppend(a, b', fromStdout); }
        Stream(a, fromStdout) + Stream(b', fromStdout) + more;
        Stream(a, fromStdout) + (Stream(b', fromStdout) + more);
      }
    }
  }

  lemma StreamOfLine(line: ProcessLine, fromStdout: bool)
    ensures Stream([line], fromStdout) == if line.fromStdout == fromStdout then [line.bytes] else []
  {
    assert [line][..0] == [];
  }

  /** How often a kind occurs. */
  function Count(kinds: seq<Kind>, kind: Kind): nat {
    if kinds == [] then 0 else Count(kinds[..|kinds| - 1], kind) + if kinds[|kinds| - 1] == kind then 1 else 0
  }

  lemma {:induction false} CountAppend(a: seq<Kind>, b: seq<Kind>, kind: Kind)
    ensures Count(a + b, kind) == Count(a, kind) + Count(b, kind)
  {
    if b == [] {
      assert a + b == a;
    } else {
      CountAppend(a, b[..|b| - 1], kind);
      assert (a + b)[..|a + b| - 1] == a + b[..|b| - 1];
    }
  }

  lemma CountOne(a: Kind, kind: Kind)
    ensures Count([a], kind) == if a == kind then 1 else 0
  {
    assert [a][..0] == [];
  }

  lemma {:induction false} NoneThere(kinds: seq<Kind>, kind: Kind)
    requires kind !in kinds
    ensures Count(kinds, kind) == 0
  {
    if kinds != [] {
      NoneThere(kinds[..|kinds| - 1], kind);
    }
  }

  lemma {:induction false} Repeated(n: nat, repeated: Kind, kind: Kind)
    ensures Count(seq(n, i => repeated), kind) == if repeated == kind then n else 0
  {
    if n > 0 {
      Repeated(n - 1, repeated, kind);
      assert seq(n, i => repeated)[..n - 1] == seq(n - 1, i => repeated);
    }
  }

  /** The kinds of the events of a turn, in order. */
  function TurnKinds(lines: nat, limit: seq<Kind>, ending: Ending): seq<Kind> {
    [RuntimeRunning, TurnStarted] +
    (if ending.Exited? then Activities(Kept(lines)) + limit else []) + Closing(ending)
  }

  lemma KindsAppend(a: seq<Event>, b: seq<Event>)
    ensures KindsOf(a + b) == KindsOf(a) + KindsOf(b)
  {
  }

  lemma KindsNumbered(from: int, kinds: seq<Kind>)
    ensures KindsOf(Numbered(from, kinds)) == kinds
  {
  }

  lemma KindsOfTail(c: int, lines: nat, limit: seq<Kind>, ending: Ending)
    ensures KindsOf(Tail(c + 3 + lines, Numbered(c + 3, Activities(Kept(lines))), limit, ending)) ==
            (if ending.Exited? then Activities(Kept(lines)) + limit else []) + Closing(ending)
  {
    var next := c + 3 + lines;
    if ending.Exited? {
      var activity, warning := Numbered(c + 3, Activities(Kept(lines))), Numbered(next, limit);
      KindsNumbered(c + 3, Activities(Kept(lines)));
      KindsNumbered(next, limit);
      KindsNumbered(next + |limit|, Closing(ending));
      KindsAppend(activity, warning);
      KindsAppend(activity + warning, Numbered(next + |limit|, Closing(ending)));
    } else {
      KindsNumbered(next, Closing(ending));
      assert [] + Closing(ending) == Closing(ending);
    }
  }

  lemma KindsOfTurn(c: int, lines: nat, limit: seq<Kind>, ending: Ending)
    ensures KindsOf(Returned(c, lines, limit, ending)) == TurnKinds(lines, limit, ending)
  {
    var opening := Numbered(c + 1, [RuntimeRunning, TurnStarted]);
    var tail := Tail(c + 3 + lines, Numbered(c + 3, Activities(Kept(lines))), limit, ending);
    KindsNumbered(c + 1, [RuntimeRunning, TurnStarted]);
    KindsOfTail(c, lines, limit, ending);
    KindsAppend(opening, tail);
    assert KindsOf(tail) == (if ending.Exited? then Activities(Kept(lines)) + limit else []) + Closing(ending);
  }

  /** How often a kind occurs in a turn. */
  lemma TurnCounts(lines: nat, limit: seq<Kind>, ending: Ending, kind: Kind)
    ensures Count(TurnKinds(lines, limit, ending), kind) ==
            (if kind == RuntimeRunning || kind == TurnStarted then 1 else 0) +
            (if ending.Exited? then (if kind == Activity then Kept(lines) else 0) + Count(limit, kind) else 0) +
            Count(Closing(ending), kind)
  {
    var opening: seq<Kind> := [RuntimeRunning, TurnStarted];
    var middle := if ending.Exited? then Activities(Kept(lines)) + limit else [];
    CountAppend(opening, middle, kind);
    CountAppend(opening + middle, Closing(ending), kind);
    CountAppend(Activities(Kept(lines)), limit, kind);
    Repeated(Kept(lines), Activity, kind);
    assert Activities(Kept(lines)) == seq(Kept(lines), i => Activity);
    CountAppend([RuntimeRunning], [TurnStarted], kind);
    CountOne(RuntimeRunning, kind);
    CountOne(TurnStarted, kind);
    assert opening == [RuntimeRunning] + [TurnStarted];
  }

  /** A turn of these kinds opens and ends as it should. */
  lemma TurnReads(kinds: seq<Kind>, events: seq<Event>, lines: nat, limit: seq<Kind>, ending: Ending)
    requires kinds == KindsOf(events) == TurnKinds(lines, limit, ending)
    requires forall k :: k in limit ==> k.OutputTruncated?
    ensures Opens(events) && Ends(events, ending)
    ensures Count(kinds, Activity) == if ending.Exited? then (if lines <= 512 then lines else 512) else 0
  {
    LastKinds(lines, limit, ending);
    CountsAre(lines, limit, ending, RuntimeRunning);
    CountsAre(lines, limit, ending, TurnStarted);
    CountsAre(lines, limit, ending, Activity);
    CountsAre(lines, limit, ending, ApprovalRequested);
    CountsAre(lines, limit, ending, RuntimeBlocked);
    CountsAre(lines, limit, ending, ProviderMessageCompleted);
    CountsAre(lines, limit, ending, TurnCompleted);
    CountsAre(lines, limit, ending, RuntimeReady);
    CountsAre(lines, limit, ending, TurnInterrupted);
    CountsAre(lines, limit, ending, RuntimeError);
    EndsByCounts(kinds, events, ending);
  }

  lemma CountsAre(lines: nat, limit: seq<Kind>, ending: Ending, kind: Kind)
    requires (forall k :: k in limit ==> k.OutputTruncated?) && !kind.OutputTruncated?
    ensures Count(TurnKinds(lines, limit, ending), kind) ==
            (if kind == RuntimeRunning || kind == TurnStarted then 1
             else if kind == Activity then (if ending.Exited? then Kept(lines) else 0)
             else ClosingCount(ending, kind))
  {
    TurnCounts(lines, limit, ending, kind);
    ClosingCountIs(ending, kind);
    NoneThere(limit, kind);
  }

  lemma ClosingCountIs(ending: Ending, kind: Kind)
    ensures Count(Closing(ending), kind) == ClosingCount(ending, kind)
  {
    match ending
    case Exited(true, approvals, message) =>
      if approvals > 0 {
        Repeated(approvals, ApprovalRequested, kind);
        CountAppend(seq(approvals, i => ApprovalRequested), [RuntimeBlocked], kind);
        CountOne(RuntimeBlocked, kind);
      } else if message == "" {
        CountOne(RuntimeError, kind);
      } else {
        CountThree(ProviderMessageCompleted, TurnCompleted, RuntimeReady, kind);
      }
    case Cancelled => CountOne(TurnInterrupted, kind);
    case _ => CountOne(RuntimeError, kind);
  }

  lemma CountThree(a: Kind, b: Kind, c: Kind, kind: Kind)
    ensures Count([a, b, c], kind) ==
            (if a == kind then 1 else 0) + (if b == kind then 1 else 0) + if c == kind then 1 else 0
  {
    assert [a, b, c] == [a] + [b] + [c];
    CountAppend([a] + [b], [c], kind);
    CountAppend([a], [b], kind);
    CountOne(a, kind);
    CountOne(b, kind);
    CountOne(c, kind);
  }

  /** How often a kind closes a turn. */
  function ClosingCount(ending: Ending, kind: Kind): nat {
    match ending
    case Exited(true, approvals, message) =>
      if approvals > 0 then (if kind == ApprovalRequested then approvals else if kind == RuntimeBlocked then 1 else 0)
      else if message == "" then (if kind == RuntimeError then 1 else 0)
      else if kind in {ProviderMessageCompleted, TurnCompleted, RuntimeReady} then 1 else 0
    case Cancelled => if kind == TurnInterrupted then 1 else 0
    case _ => if kind == RuntimeError then 1 else 0
  }

  lemma EndsByCounts(kinds: seq<Kind>, events: seq<Event>, ending: Ending)
    requires kinds == KindsOf(events) && |kinds| >= 2 + |Closing(ending)|
    requires kinds[|kinds| - |Closing(ending)|..] == Closing(ending)
    requires Count(kinds, ApprovalRequested) == ClosingCount(ending, ApprovalRequested)
    requires Count(kinds, RuntimeBlocked) == ClosingCount(ending, RuntimeBlocked)
    requires Count(kinds, ProviderMessageCompleted) == ClosingCount(ending, ProviderMessageCompleted)
    requires Count(kinds, TurnCompleted) == ClosingCount(ending, TurnCompleted)
    requires Count(kinds, RuntimeReady) == ClosingCount(ending, RuntimeReady)
    requires Count(kinds, TurnInterrupted) == ClosingCount(ending, TurnInterrupted)
    requires Count(kinds, RuntimeError) == ClosingCount(ending, RuntimeError)
    ensures |events| >= 3 && Ends(events, ending)
  {
    var closing, n := Closing(ending), |kinds|;
    assert closing != [] && kinds[n - 1] == kinds[n - |closing|..][|closing| - 1];
  }

  lemma TurnWarns(events: seq<Event>, outCut: bool, errCut: bool, lines: nat, limit: seq<Kind>, ending: Ending)
    requires KindsOf(events) == TurnKinds(lines, limit, ending)
    requires var dropped := if lines <= 512 then 0 else lines - 512;
             limit == if outCut || errCut || dropped > 0 then [OutputTruncated(outCut, errCut, dropped)] else []
    ensures Warns(events, outCut, errCut, lines, ending)
  {
    var kinds, dropped := KindsOf(events), if lines <= 512 then 0 else lines - 512;
    TurnCounts(lines, limit, ending, OutputTruncated(outCut, errCut, dropped));
    ClosingHasNoWarning(ending);
    NoneThere(Closing(ending), OutputTruncated(outCut, errCut, dropped));
    if limit != [] {
      CountOne(OutputTruncated(outCut, errCut, dropped), OutputTruncated(outCut, errCut, dropped));
    }
    forall k | k in kinds && k.OutputTruncated? ensures k == OutputTruncated(outCut, errCut, dropped) {
      OnlyLimitWarns(lines, limit, ending, k);
    }
  }

  lemma OnlyLimitWarns(lines: nat, limit: seq<Kind>, ending: Ending, kind: Kind)
    requires kind in TurnKinds(lines, limit, ending) && kind.OutputTruncated?
    ensures kind in limit
  {
    ClosingHasNoWarning(ending);
    var opening: seq<Kind> := [RuntimeRunning, TurnStarted];
    var middle := if ending.Exited? then Activities(Kept(lines)) + limit else [];
    assert kind in opening || kind in middle || kind in Closing(ending);
    assert kind !in Activities(Kept(lines));
  }

  /** What the events of a turn say, from their formula. */
  lemma TurnTells(c: int, lines: nat, out: ProcessOutput, ending: Ending, events: seq<Event>)
    requires events == Returned(c, lines, LimitKinds(out), ending) && out.dropped == lines - Kept(lines)
    ensures Opens(events) && Ends(events, ending)
    ensures Warns(events, out.stdoutTruncated, out.stderrTruncated, lines, ending)
    ensures Count(KindsOf(events), Activity) == if ending.Exited? then (if lines <= 512 then lines else 512) else 0
  {
    KindsOfTurn(c, lines, LimitKinds(out), ending);
    TurnReads(KindsOf(events), events, lines, LimitKinds(out), ending);
    TurnWarns(events, out.stdoutTruncated, out.stderrTruncated, lines, LimitKinds(out), ending);
  }

  lemma LastKinds(lines: nat, limit: seq<Kind>, ending: Ending)
    ensures var kinds, closing := TurnKinds(lines, limit, ending), Closing(ending);
            closing != [] && |kinds| >= 2 + |closing| && kinds[|kinds| - |closing|..] == closing
            && kinds[|kinds| - 1] == closing[|closing| - 1] && kinds[0] == RuntimeRunning && kinds[1] == TurnStarted
  {
  }

  // ---- The shape of the gap ----

  /** The number missing before event i. */
  function GapBefore(events: seq<Event>, i: nat): int
    requires 1 <= i < |events|
  {
    events[i].seqNo - events[i - 1].seqNo - 1
  }

  /**
   * For a process that ran to its exit: numbers strictly increase, and the only gap is right before
   * the truncation warning and as wide as the number of dropped activities it reports.
   */
  lemma GapOfExitedTurn(c: int, lines: nat, out: ProcessOutput, ending: Ending)
    requires ending.Exited? && out.dropped == lines - Kept(lines)
    ensures var events := Returned(c, lines, LimitKinds(out), ending);
            && events[0].seqNo == c + 1
            && forall i :: 1 <= i < |events| ==>
                 GapBefore(events, i) ==
                   if events[i].kind.OutputTruncated? then events[i].kind.droppedActivityCount else 0
  {
    ReturnedAt(c, lines, LimitKinds(out), ending);
    ClosingHasNoWarning(ending);
  }

  /** Position by position, what the formula says. */
  lemma ReturnedAt(c: int, lines: nat, limit: seq<Kind>, ending: Ending)
    requires ending.Exited?
    ensures var events := Returned(c, lines, limit, ending);
            var kept := Kept(lines);
            && |events| == 2 + kept + |limit| + |Closing(ending)|
            && events[0] == Event(c + 1, RuntimeRunning) && events[1] == Event(c + 2, TurnStarted)
            && (forall i :: 2 <= i < 2 + kept ==> events[i] == Event(c + 1 + i, Activity))
            && (forall i :: 0 <= i < |limit| ==> events[2 + kept + i] == Event(c + 3 + lines + i, limit[i]))
            && (forall i :: 2 + kept + |limit| <= i < |events| ==>
                  events[i] == Event(c + 1 + lines - kept + i, Closing(ending)[i - 2 - kept - |limit|]))
  {
    FourParts(Numbered(c + 1, [RuntimeRunning, TurnStarted]), Numbered(c + 3, Activities(Kept(lines))),
              Numbered(c + 3 + lines, limit), Numbered(c + 3 + lines + |limit|, Closing(ending)));
  }

  lemma FourParts(p: seq<Event>, q: seq<Event>, r: seq<Event>, s: seq<Event>)
    ensures var all := p + (q + r + s);
            && |all| == |p| + |q| + |r| + |s|
            && (forall i :: 0 <= i < |p| ==> all[i] == p[i])
            && (forall i :: |p| <= i < |p| + |q| ==> all[i] == q[i - |p|])
            && (forall i :: 0 <= i < |r| ==> all[|p| + |q| + i] == r[i])
            && (forall i :: |p| + |q| + |r| <= i < |all| ==> all[i] == s[i - |p| - |q| - |r|])
  {
  }

  lemma ClosingHasNoWarning(ending: Ending)
    ensures forall i :: 0 <= i < |Closing(ending)| ==> !Closing(ending)[i].OutputTruncated?
  {
  }

  /** The warning is there whenever something was dropped, so the gap is never silent. */
  lemma DroppedIsReported(c: int, lines: nat, out: ProcessOutput, ending: Ending)
    requires ending.Exited? && out.dropped == lines - Kept(lines) && lines > MAX_ACTIVITY_EVENTS
    ensures var events := Returned(c, lines, LimitKinds(out), ending);
            && |events| > 2 + MAX_ACTIVITY_EVENTS
            && events[2 + MAX_ACTIVITY_EVENTS].kind.OutputTruncated?
            && GapBefore(events, 2 + MAX_ACTIVITY_EVENTS) == lines - MAX_ACTIVITY_EVENTS
  {
    ReturnedAt(c, lines, LimitKinds(out), ending);
    assert LimitKinds(out)[0].OutputTruncated?;
  }

  /** A turn that failed or was cancelled returns none of its activity: the gap is every line read, unreported. */
  lemma GapOfFailedTurn(c: int, lines: nat, limit: seq<Kind>, ending: Ending)
    requires !ending.Exited?
    ensures var events := Returned(c, lines, limit, ending);
            |events| == 3 && GapBefore(events, 1) == 0 && GapBefore(events, 2) == lines
  {
  }

  // ---- A whole session ----

  datatype CodexTurn = CodexTurn(lines: seq<ProcessLine>, ending: Ending)

  /** The numbers a turn uses for nothing that is returned. */
  function Missing(turn: CodexTurn): nat {
    if turn.ending.Exited? then |turn.lines| - Kept(|turn.lines|) else |turn.lines|
  }

  function AllMissing(turns: seq<CodexTurn>): nat {
    if turns == [] then 0 else AllMissing(turns[..|turns| - 1]) + Missing(turns[|turns| - 1])
  }

  /** Numbers strictly increase, and lie above `low` and up to `high`. */
  ghost predicate RisesWithin(events: seq<Event>, low: int, high: int) {
    && low <= high
    && (forall i :: 0 <= i < |events| ==> low < events[i].seqNo <= high)
    && (forall i, j :: 0 <= i < j < |events| ==> events[i].seqNo < events[j].seqNo)
  }

  lemma RisesAppend(a: seq<Event>, b: seq<Event>, low: int, mid: int, high: int)
    requires RisesWithin(a, low, mid) && RisesWithin(b, mid, high)
    ensures RisesWithin(a + b, low, high)
  {
  }

  lemma NumberedRises(from: int, kinds: seq<Kind>)
    ensures RisesWithin(Numbered(from, kinds), from - 1, from - 1 + |kinds|)
  {
  }

  /** The counter after a turn that started at c. */
  function CounterAfter(c: int, turn: CodexTurn, limit: seq<Kind>): int {
    c + 2 + |turn.lines| + (if turn.ending.Exited? then |limit| else 0) + |Closing(turn.ending)|
  }

  /** The numbers of one turn rise, and each number it used is on an event or missing. */
  lemma TurnRises(c: int, turn: CodexTurn, limit: seq<Kind>)
    ensures RisesWithin(Returned(c, |turn.lines|, limit, turn.ending), c, CounterAfter(c, turn, limit))
    ensures CounterAfter(c, turn, limit) - c == |Returned(c, |turn.lines|, limit, turn.ending)| + Missing(turn)
  {
    var opening := Numbered(c + 1, [RuntimeRunning, TurnStarted]);
    var tail := Tail(c + 3 + |turn.lines|, Numbered(c + 3, Activities(Kept(|turn.lines|))), limit, turn.ending);
    assert Returned(c, |turn.lines|, limit, turn.ending) == opening + tail;
    NumberedRises(c + 1, [RuntimeRunning, TurnStarted]);
    TailRises(c, turn, limit, tail);
    RisesAppend(opening, tail, c, c + 2, CounterAfter(c, turn, limit));
  }

  lemma TailRises(c: int, turn: CodexTurn, limit: seq<Kind>, tail: seq<Event>)
    requires tail == Tail(c + 3 + |turn.lines|, Numbered(c + 3, Activities(Kept(|turn.lines|))), limit, turn.ending)
    ensures RisesWithin(tail, c + 2, CounterAfter(c, turn, limit))
    ensures CounterAfter(c, turn, limit) - c == 2 + |tail| + Missing(turn)
  {
    var n := |turn.lines|;
    var next := c + 3 + n;
    if turn.ending.Exited? {
      ThreeRise(c + 3, Activities(Kept(n)), next, limit, next + |limit|, Closing(turn.ending));
    } else {
      NumberedRises(next, Closing(turn.ending));
    }
  }

  /** Three numbered lists, with room left at most after the first. */
  lemma ThreeRise(p: int, a: seq<Kind>, q: int, b: seq<Kind>, r: int, d: seq<Kind>)
    requires p + |a| <= q && q + |b| == r
    ensures RisesWithin(Numbered(p, a) + Numbered(q, b) + Numbered(r, d), p - 1, r - 1 + |d|)
  {
    NumberedRises(p, a);
    NumberedRises(q, b);
    NumberedRises(r, d);
    RisesAppend(Numbered(p, a), Numbered(q, b), p - 1, q - 1, r - 1);
    RisesAppend(Numbered(p, a) + Numbered(q, b), Numbered(r, d), p - 1, r - 1, r - 1 + |d|);
  }

  /** What a session has used and returned so far. */
  ghost predicate Sent(seqs: Seqs, after: Seqs, session: string, events: seq<Event>, missing: nat) {
    && after - {session} == seqs - {session}
    && RisesWithin(events, Counter(seqs, session), Counter(after, session))
    && Counter(after, session) - Counter(seqs, session) == |events| + missing
  }

  /**
   * Any series of turns of one session: over all of them numbers strictly increase, and every number
   * that was given out is on a returned event or is one of the missing ones.
   */
  method SendTurns(seqs: Seqs, session: string, turns: seq<CodexTurn>) returns (after: Seqs, events: seq<Event>)
    ensures Sent(seqs, after, session, events, AllMissing(turns))
  {
    after, events := seqs, [];
    for i := 0 to |turns|
      invariant Sent(seqs, after, session, events, AllMissing(turns[..i]))
    {
      ghost var before := after;
      var sent;
      after, sent := SendOne(after, session, turns[i]);
      SentAppend(seqs, before, after, session, events, AllMissing(turns[..i]), sent, Missing(turns[i]));
      assert turns[..i + 1][..i] == turns[..i];
      events := events + sent;
    }
    assert turns[..|turns|] == turns;
  }

  method SendOne(seqs: Seqs, session: string, turn: CodexTurn) returns (after: Seqs, events: seq<Event>)
    ensures Sent(seqs, after, session, events, Missing(turn))
  {
    var out;
    after, events, out := SendAll(seqs, session, turn.lines, turn.ending);
    TurnRises(Counter(seqs, session), turn, LimitKinds(out));
  }

  lemma SentAppend(
    seqs: Seqs, mid: Seqs, after: Seqs, session: string, a: seq<Event>, m: nat, b: seq<Event>, n: nat)
    requires Sent(seqs, mid, session, a, m) && Sent(mid, after, session, b, n)
    ensures Sent(seqs, after, session, a + b, m + n)
  {
    RisesAppend(a, b, Counter(seqs, session), Counter(mid, session), Counter(after, session));
  }
}
