/**
 * One task run on the Node as its caller sees it (`execute_task`, `run_task_in_sandbox`,
 * `assemble_task_result`, `push_task_state`, `remaining_task_time`): lifecycle events, check results,
 * deadline budgets and the result package. External calls are answered by the environment.
 */
module TaskRun {
  import opened Collections
  import opened ShellWords
  import opened TaskRuntime

  datatype RunState =
    | Queued | PreparingWorkspace | StartingRuntime | Running | Checking | CollectingEvidence
    | Succeeded | Failed | Cancelling | Cancelled | TimedOut

  /** `task_state_seq`. */
  function TaskStateSeq(s: RunState): int {
    match s
    case Queued => 10
    case PreparingWorkspace => 20
    case StartingRuntime => 30
    case Running => 40
    case Checking => 50
    case CollectingEvidence => 60
    case Succeeded => 70
    case Failed => 80
    case Cancelling => 90
    case Cancelled => 100
    case TimedOut => 110
  }

  const STATES: seq<RunState> := [
    Queued, PreparingWorkspace, StartingRuntime, Running, Checking, CollectingEvidence,
    Succeeded, Failed, Cancelling, Cancelled, TimedOut]

  /** The rank of a state is ten times its place among all states, so no two states share one. */
  lemma RanksIdentifyStates(s: RunState, t: RunState)
    ensures exists i :: 0 <= i < |STATES| && STATES[i] == s && TaskStateSeq(s) == 10 * (i + 1)
    ensures TaskStateSeq(s) == TaskStateSeq(t) ==> s == t
  {
    var i := TaskStateSeq(s) / 10 - 1;
    assert STATES[i] == s;
  }

  predicate Terminal(s: RunState) { s in {Succeeded, Failed, Cancelled, TimedOut} }

  datatype CleanupState = CleanupPending | CleanupDone | CleanupFailed

  datatype CheckSpec = CheckSpec(name: string, command: string, args: seq<string>, timeout: nat)

  datatype CheckResult = CheckResult(name: string, command: string, success: bool, exitCode: Option<int>)

  datatype Risk = MappingCleanup | SandboxOrMapping(id: SandboxId) | SandboxCleanup(id: SandboxId)
                | ArtifactMissing(path: string) | EvidenceRisk(message: string) | CredentialProfile

  datatype Result = Result(
    state: RunState,
    cleanup: CleanupState,
    checks: seq<CheckResult>,
    risks: seq<Risk>,
    terminalReason: Option<string>)

  // ---- The environment of the command phase ----

  /** The answer to one sandbox command, with the time that passed before and during it. */
  datatype Reply = Reply(delay: nat, duration: nat, exitCode: Option<int>, error: Option<string>, cancelled: bool)

  predicate ReplyPassed(r: Reply) { r.exitCode == Some(0) && r.error.None? }

  /** A command that was started: when, and with what budget. */
  datatype Issued = Issued(start: nat, budget: nat)

  /** `remaining_task_time`. */
  function RemainingTaskTime(deadline: nat, now: nat): Option<nat> {
    if now >= deadline then None else Some(deadline - now)
  }

  function Min(a: nat, b: nat): nat { if a <= b then a else b }

  // ---- The check loop ----

  /** The clock each time the loop looks at it. */
  function ReadTimes(start: nat, replies: seq<Reply>): (times: seq<nat>)
    ensures |times| == |replies|
    decreases |replies|
  {
    if replies == [] then []
    else
      var now := start + replies[0].delay;
      [now] + ReadTimes(now + replies[0].duration, replies[1..])
  }

  lemma {:induction false} ReadTimesNext(start: nat, replies: seq<Reply>, i: nat)
    requires i < |replies|
    ensures var times := ReadTimes(start, replies);
            times[i] == (if i == 0 then start else times[i - 1] + replies[i - 1].duration) + replies[i].delay
    decreases i
  {
    if i > 0 {
      var now := start + replies[0].delay;
      ReadTimesNext(now + replies[0].duration, replies[1..], i - 1);
    }
  }

  datatype CheckEnding = AllChecked | DeadlinePassed | CheckCancelled | CheckTimedOut

  /** The line of a check command. */
  function CheckCommand(c: CheckSpec): string { ShellJoin([c.command] + c.args) }

  function ResultOf(c: CheckSpec, r: Reply): CheckResult {
    CheckResult(c.name, CheckCommand(c), ReplyPassed(r), r.exitCode)
  }

  /** A check after which the loop stops: cancelled, or timed out with no more time than its own limit. */
  predicate Stops(checks: seq<CheckSpec>, deadline: nat, times: seq<nat>, replies: seq<Reply>, i: nat)
    requires i < |checks| <= |replies| == |times|
  {
    replies[i].cancelled || (replies[i].error == Some("timeout") && deadline - times[i] <= checks[i].timeout)
  }

  /** The budget of check i: what is left, but no more than its own limit. */
  function IssuedFor(check: CheckSpec, deadline: nat, now: nat): Issued
    requires now < deadline
  {
    Issued(now, Min(deadline - now, check.timeout))
  }

  /** The first n checks ran, each started before the deadline. */
  ghost predicate Ran(
    checks: seq<CheckSpec>, deadline: nat, times: seq<nat>, replies: seq<Reply>,
    n: nat, results: seq<CheckResult>, issued: seq<Issued>)
  {
    && n <= |checks| <= |replies| == |times| && |results| == |issued| == n
    && forall i :: 0 <= i < n ==>
                     && times[i] < deadline
                     && results[i] == ResultOf(checks[i], replies[i])
                     && issued[i] == IssuedFor(checks[i], deadline, times[i])
  }

  /** What a check that ran means: its result is that of its reply, and its budget is the tighter of two limits. */
  ghost predicate CheckFact(
    check: CheckSpec, deadline: nat, now: nat, reply: Reply, result: CheckResult, issued: Issued)
  {
    && result.name == check.name && SplitWords(result.command) == Some([check.command] + check.args)
    && result.exitCode == reply.exitCode && (result.success <==> reply.exitCode == Some(0) && reply.error.None?)
    && issued.start == now && issued.budget <= check.timeout && now + issued.budget <= deadline
    && (issued.budget == check.timeout || now + issued.budget == deadline)
  }

  ghost predicate CheckFacts(
    checks: seq<CheckSpec>, deadline: nat, times: seq<nat>, replies: seq<Reply>,
    results: seq<CheckResult>, issued: seq<Issued>)
  {
    && |results| == |issued| <= |checks| <= |replies| == |times|
    && forall i :: 0 <= i < |results| ==> CheckFact(checks[i], deadline, times[i], replies[i], results[i], issued[i])
  }

  lemma RanFacts(
    checks: seq<CheckSpec>, deadline: nat, times: seq<nat>, replies: seq<Reply>,
    results: seq<CheckResult>, issued: seq<Issued>)
    requires Ran(checks, deadline, times, replies, |results|, results, issued)
    ensures CheckFacts(checks, deadline, times, replies, results, issued)
  {
    forall i | 0 <= i < |results|
      ensures CheckFact(checks[i], deadline, times[i], replies[i], results[i], issued[i])
    {
      CheckCommandReadsBack(checks[i]);
    }
  }

  /** None of the first n checks stopped the loop. */
  ghost predicate NoneStopped(checks: seq<CheckSpec>, deadline: nat, times: seq<nat>, replies: seq<Reply>, n: nat)
    requires n <= |checks| <= |replies| == |times|
  {
    forall i :: 0 <= i < n ==> !Stops(checks, deadline, times, replies, i)
  }

  /** Why the loop ended after n checks. */
  ghost predicate EndsAs(
    ending: CheckEnding, checks: seq<CheckSpec>, deadline: nat, times: seq<nat>, replies: seq<Reply>, n: nat)
    requires n <= |checks| <= |replies| == |times|
  {
    match ending
    case AllChecked => n == |checks| && NoneStopped(checks, deadline, times, replies, n)
    case DeadlinePassed => n < |checks| && NoneStopped(checks, deadline, times, replies, n) && times[n] >= deadline
    case CheckCancelled => n > 0 && NoneStopped(checks, deadline, times, replies, n - 1) && replies[n - 1].cancelled
    case CheckTimedOut =>
      && n > 0 && NoneStopped(checks, deadline, times, replies, n - 1)
      && !replies[n - 1].cancelled && replies[n - 1].error == Some("timeout")
      && deadline - times[n - 1] <= checks[n - 1].timeout
  }

  /** The loop over the declared checks. */
  method RunChecks(checks: seq<CheckSpec>, deadline: nat, start: nat, replies: seq<Reply>)
    returns (ending: CheckEnding, results: seq<CheckResult>, issued: seq<Issued>)
    requires |checks| <= |replies|
    ensures var times := ReadTimes(start, replies);
            && Ran(checks, deadline, times, replies, |results|, results, issued)
            && EndsAs(ending, checks, deadline, times, replies, |results|)
    ensures CheckFacts(checks, deadline, ReadTimes(start, replies), replies, results, issued)
  {
    ending, results, issued := CheckLoop(checks, deadline, start, replies);
    RanFacts(checks, deadline, ReadTimes(start, replies), replies, results, issued);
  }

  method CheckLoop(checks: seq<CheckSpec>, deadline: nat, start: nat, replies: seq<Reply>)
    returns (ending: CheckEnding, results: seq<CheckResult>, issued: seq<Issued>)
    requires |checks| <= |replies|
    ensures var times := ReadTimes(start, replies);
            && Ran(checks, deadline, times, replies, |results|, results, issued)
            && EndsAs(ending, checks, deadline, times, replies, |results|)
  {
    results, issued := [], [];
    var clock := start;
    ghost var times := ReadTimes(start, replies);
    for i := 0 to |checks|
      invariant Going(checks, deadline, times, replies, i, results, issued)
      invariant clock == if i == 0 then start else times[i - 1] + replies[i - 1].duration
    {
      ReadTimesNext(start, replies, i);
      CheckStep(checks, deadline, times, replies, i, results, issued);
      var check, reply := checks[i], replies[i];
      clock := clock + reply.delay;
      var remaining := RemainingTaskTime(deadline, clock);
      if remaining.None? {
        return DeadlinePassed, results, issued;
      }
      var checkUsesTaskDeadline := remaining.value <= check.timeout;
      issued := issued + [Issued(clock, Min(remaining.value, check.timeout))];
      results := results + [ResultOf(check, reply)];
      clock := clock + reply.duration;
      if reply.cancelled {
        return CheckCancelled, results, issued;
      }
      if checkUsesTaskDeadline && reply.error == Some("timeout") {
        return CheckTimedOut, results, issued;
      }
    }
    ending := AllChecked;
  }

  /** n checks ran and the loop goes on. */
  ghost predicate Going(
    checks: seq<CheckSpec>, deadline: nat, times: seq<nat>, replies: seq<Reply>,
    n: nat, results: seq<CheckResult>, issued: seq<Issued>)
  {
    Ran(checks, deadline, times, replies, n, results, issued) && NoneStopped(checks, deadline, times, replies, n)
  }

  /** What one more check, or the deadline before it, makes of that. */
  lemma CheckStep(
    checks: seq<CheckSpec>, deadline: nat, times: seq<nat>, replies: seq<Reply>,
    n: nat, results: seq<CheckResult>, issued: seq<Issued>)
    requires n < |checks| && Going(checks, deadline, times, replies, n, results, issued)
    ensures times[n] >= deadline ==> EndsAs(DeadlinePassed, checks, deadline, times, replies, n)
    ensures times[n] < deadline ==>
              var r := results + [ResultOf(checks[n], replies[n])];
              var s := issued + [IssuedFor(checks[n], deadline, times[n])];
              && Ran(checks, deadline, times, replies, n + 1, r, s)
              && (replies[n].cancelled ==> EndsAs(CheckCancelled, checks, deadline, times, replies, n + 1))
              && (!replies[n].cancelled && Stops(checks, deadline, times, replies, n) ==>
                    EndsAs(CheckTimedOut, checks, deadline, times, replies, n + 1))
              && (!Stops(checks, deadline, times, replies, n) ==>
                    Going(checks, deadline, times, replies, n + 1, r, s))
  {
  }

  // ---- The sandbox ----

  /** The answers of the sandbox: error codes of waiting for it and of its endpoint, and the commands. */
  datatype SandboxEnv = SandboxEnv(
    readyError: Option<string>,
    endpointError: Option<string>,
    codex: Reply,
    checks: seq<Reply>)

  datatype Spec = Spec(task: TaskId, timeout: nat, checks: seq<CheckSpec>)

  datatype Execution = Execution(state: RunState, checks: seq<CheckResult>, terminalReason: Option<string>)

  /** The clock after the Codex command. */
  function AfterCodex(start: nat, env: SandboxEnv): nat { start + env.codex.delay + env.codex.duration }

  /** Everything went well, said without the loop. */
  ghost predicate EverythingPassed(spec: Spec, start: nat, env: SandboxEnv)
    requires |spec.checks| <= |env.checks|
  {
    var deadline := start + spec.timeout;
    && env.readyError.None? && env.endpointError.None?
    && env.codex.delay < spec.timeout
    && ReplyPassed(env.codex) && !env.codex.cancelled
    && ChecksPassed(spec, deadline, AfterCodex(start, env), env.checks)
  }

  /** Results of the declared checks, in their order, without gaps. */
  ghost predicate IsCheckPrefix(spec: Spec, env: SandboxEnv, results: seq<CheckResult>) {
    && |results| <= |spec.checks| && |results| <= |env.checks|
    && forall i :: 0 <= i < |results| ==> results[i] == ResultOf(spec.checks[i], env.checks[i])
  }

  /** Every command starts before the deadline and gets no more time than is left. */
  ghost predicate WithinDeadline(deadline: nat, issued: seq<Issued>) {
    forall i :: 0 <= i < |issued| ==> issued[i].start < deadline && issued[i].start + issued[i].budget <= deadline
  }

  /** The run gets to its checks. */
  predicate ReachesChecks(spec: Spec, env: SandboxEnv) {
    && env.readyError.None? && env.endpointError.None? && env.codex.delay < spec.timeout
    && !env.codex.cancelled && env.codex.error != Some("timeout")
  }

  /** The state of a run that does not get to its checks. */
  function EarlyState(spec: Spec, env: SandboxEnv): RunState {
    if env.readyError == Some("task_run.cancelled") then Cancelled
    else if env.readyError.Some? || env.endpointError.Some? then Failed
    else if env.codex.delay < spec.timeout && env.codex.cancelled then Cancelled
    else TimedOut
  }

  /**
   * What `run_task_in_sandbox` does with the answers of the sandbox: the state and reason of its result,
   * the events, and the commands with their budgets.
   */
  ghost predicate SandboxRun(
    spec: Spec, start: nat, env: SandboxEnv, x: Execution, events: seq<RunState>, issued: seq<Issued>,
    ending: CheckEnding)
  {
    var deadline := start + spec.timeout;
    var times := ReadTimes(start + env.codex.delay + env.codex.duration, env.checks);
    if env.readyError.Some? then
      var state := if env.readyError == Some("task_run.cancelled") then Cancelled else Failed;
      x == Execution(state, [], env.readyError) && events == [] && issued == []
    else if env.endpointError.Some? then
      x == Execution(Failed, [], env.endpointError) && events == [] && issued == []
    else if env.codex.delay >= spec.timeout then
      x == Execution(TimedOut, [], Some("task_run.timed_out")) && events == [Running] && issued == []
    else
      && issued != [] && issued[0] == Issued(start + env.codex.delay, spec.timeout - env.codex.delay)
      && if env.codex.cancelled then
           x == Execution(Cancelled, [], Some("task_run.cancelled")) && events == [Running] && |issued| == 1
         else if env.codex.error == Some("timeout") then
           x == Execution(TimedOut, [], Some("task_run.timed_out")) && events == [Running] && |issued| == 1
         else
           && events == [Running, Checking]
           && CheckFacts(spec.checks, deadline, times, env.checks, x.checks, issued[1..])
           && Verdict(spec, env.codex, x, ending)
  }

  /** How the checks and Codex decide the state and the reason. */
  ghost predicate Verdict(spec: Spec, codex: Reply, x: Execution, ending: CheckEnding) {
    var codexPassed := codex.exitCode == Some(0) && codex.error.None?;
    match ending
    case CheckCancelled => x.state == Cancelled && x.terminalReason == Some("task_run.cancelled")
    case AllChecked =>
      && |x.checks| == |spec.checks|
      && if codexPassed && forall i :: 0 <= i < |x.checks| ==> x.checks[i].success
         then x.state == Succeeded && x.terminalReason == None
         else x.state == Failed && x.terminalReason ==
              Some(if codexPassed then "task_run.check_failed" else "task_run.provider_failed")
    case _ => x.state == TimedOut && x.terminalReason == Some("task_run.timed_out")
  }

  /** What the command phase started and reported: the Codex command, then the checks as far as they got. */
  ghost predicate CommandPhase(
    spec: Spec, start: nat, env: SandboxEnv, x: Execution, issued: seq<Issued>, ending: CheckEnding)
  {
    && (issued != [] ==>
          && env.codex.delay < spec.timeout
          && issued[0] == Issued(start + env.codex.delay, spec.timeout - env.codex.delay))
    && if ReachesChecks(spec, env)
       then issued != []
            && Concluded(spec, start + spec.timeout, AfterCodex(start, env), env.checks, x, issued[1..], ending)
       else x.state == EarlyState(spec, env) && x.checks == [] && |issued| <= 1
  }

  /** `run_task_in_sandbox`; `start` is the moment the deadline is set. */
  method RunTaskInSandbox(spec: Spec, start: nat, env: SandboxEnv)
    returns (x: Execution, events: seq<RunState>, issued: seq<Issued>, ghost ending: CheckEnding)
    requires |spec.checks| <= |env.checks|
    ensures Terminal(x.state)
    ensures x.terminalReason.None? <==> x.state == Succeeded
    ensures IsCheckPrefix(spec, env, x.checks)
    ensures x.state == Succeeded <==> EverythingPassed(spec, start, env)
    ensures x.state == Succeeded ==> |x.checks| == |spec.checks|
    ensures WithinDeadline(start + spec.timeout, issued)
    ensures events == if ReachesChecks(spec, env) then [Running, Checking]
                      else if env.readyError.None? && env.endpointError.None? then [Running] else []
    ensures CommandPhase(spec, start, env, x, issued, ending)
    ensures SandboxRun(spec, start, env, x, events, issued, ending)
  {
    var early, begun, codex := RunCodex(spec, start, env);
    if early.Some? {
      EarlyPhase(spec, start, env, early.value, codex);
      return early.value, begun, codex, AllChecked;
    }
    events := [Running, Checking];
    x, issued, ending := CheckAfterCodex(spec, start, env, codex[0]);
  }

  /** The rest of a run whose Codex command has ended. */
  method CheckAfterCodex(spec: Spec, start: nat, env: SandboxEnv, codex: Issued)
    returns (x: Execution, issued: seq<Issued>, ghost ending: CheckEnding)
    requires |spec.checks| <= |env.checks| && ReachesChecks(spec, env)
    requires codex == Issued(start + env.codex.delay, spec.timeout - env.codex.delay)
    ensures Terminal(x.state)
    ensures x.terminalReason.None? <==> x.state == Succeeded
    ensures IsCheckPrefix(spec, env, x.checks)
    ensures x.state == Succeeded <==> EverythingPassed(spec, start, env)
    ensures x.state == Succeeded ==> |x.checks| == |spec.checks|
    ensures WithinDeadline(start + spec.timeout, issued)
    ensures CommandPhase(spec, start, env, x, issued, ending)
    ensures SandboxRun(spec, start, env, x, [Running, Checking], issued, ending)
  {
    var checks;
    x, checks, ending :=
      CheckAndConclude(spec, start + spec.timeout, AfterCodex(start, env), env.codex, env.checks);
    ChecksPhase(spec, start, env, x, codex, checks, ending);
    ChecksRun(spec, start, env, x, codex, checks, ending);
    PassedAfterCodex(spec, start, env);
    issued := [codex] + checks;
  }

  lemma EarlyPhase(spec: Spec, start: nat, env: SandboxEnv, x: Execution, issued: seq<Issued>)
    requires |spec.checks| <= |env.checks| && !ReachesChecks(spec, env)
    requires x.state == EarlyState(spec, env) && x.checks == []
    requires issued == [] ||
             (env.codex.delay < spec.timeout &&
              issued == [Issued(start + env.codex.delay, spec.timeout - env.codex.delay)])
    ensures Terminal(x.state) && x.state != Succeeded && !EverythingPassed(spec, start, env)
    ensures CommandPhase(spec, start, env, x, issued, AllChecked) && IsCheckPrefix(spec, env, x.checks)
    ensures WithinDeadline(start + spec.timeout, issued)
  {
  }

  lemma ChecksPhase(
    spec: Spec, start: nat, env: SandboxEnv, x: Execution, first: Issued, rest: seq<Issued>, ending: CheckEnding)
    requires ReachesChecks(spec, env) && first == Issued(start + env.codex.delay, spec.timeout - env.codex.delay)
    requires Concluded(spec, start + spec.timeout, AfterCodex(start, env), env.checks, x, rest, ending)
    ensures CommandPhase(spec, start, env, x, [first] + rest, ending) && IsCheckPrefix(spec, env, x.checks)
    ensures WithinDeadline(start + spec.timeout, [first] + rest)
  {
    ConcludedShape(spec, start + spec.timeout, AfterCodex(start, env), env, x, rest, ending);
    assert ([first] + rest)[1..] == rest;
  }

  lemma PassedAfterCodex(spec: Spec, start: nat, env: SandboxEnv)
    requires |spec.checks| <= |env.checks| && ReachesChecks(spec, env)
    ensures EverythingPassed(spec, start, env) <==>
            ReplyPassed(env.codex) && ChecksPassed(spec, start + spec.timeout, AfterCodex(start, env), env.checks)
  {
  }

  lemma ChecksRun(
    spec: Spec, start: nat, env: SandboxEnv, x: Execution, first: Issued, rest: seq<Issued>, ending: CheckEnding)
    requires ReachesChecks(spec, env) && first == Issued(start + env.codex.delay, spec.timeout - env.codex.delay)
    requires var times := ReadTimes(AfterCodex(start, env), env.checks);
             CheckFacts(spec.checks, start + spec.timeout, times, env.checks, x.checks, rest)
    requires Verdict(spec, env.codex, x, ending)
    ensures SandboxRun(spec, start, env, x, [Running, Checking], [first] + rest, ending)
  {
    assert ([first] + rest)[1..] == rest;
  }

  /** The part before the checks: wait for the sandbox, look up its endpoint, run Codex. */
  method RunCodex(spec: Spec, start: nat, env: SandboxEnv)
    returns (early: Option<Execution>, events: seq<RunState>, issued: seq<Issued>)
    ensures early.None? <==> ReachesChecks(spec, env)
    ensures early.Some? ==>
              early.value.state == EarlyState(spec, env) && early.value.checks == [] && early.value.terminalReason.Some?
    ensures early.Some? ==> SandboxRun(spec, start, env, early.value, events, issued, AllChecked)
    ensures events == if env.readyError.None? && env.endpointError.None? then [Running] else []
    ensures issued == if env.readyError.None? && env.endpointError.None? && env.codex.delay < spec.timeout
                      then [Issued(start + env.codex.delay, spec.timeout - env.codex.delay)] else []
  {
    events, issued := [], [];
    var deadline := start + spec.timeout;
    if env.readyError.Some? {
      if env.readyError == Some("task_run.cancelled") {
        return Some(Execution(Cancelled, [], Some("task_run.cancelled"))), events, issued;
      }
      return Some(Execution(Failed, [], env.readyError)), events, issued;
    }
    if env.endpointError.Some? {
      return Some(Execution(Failed, [], env.endpointError)), events, issued;
    }
    events := [Running];
    var codexTimeout := RemainingTaskTime(deadline, start + env.codex.delay);
    if codexTimeout.None? {
      return Some(Execution(TimedOut, [], Some("task_run.timed_out"))), events, issued;
    }
    issued := [Issued(start + env.codex.delay, codexTimeout.value)];
    if env.codex.cancelled {
      return Some(Execution(Cancelled, [], Some("task_run.cancelled"))), events, issued;
    }
    if env.codex.error == Some("timeout") {
      return Some(Execution(TimedOut, [], Some("task_run.timed_out"))), events, issued;
    }
    early := None;
  }

  /** What the check phase did, and that its ending decides the state. */
  ghost predicate Concluded(
    spec: Spec, deadline: nat, start: nat, replies: seq<Reply>, x: Execution, issued: seq<Issued>, ending: CheckEnding)
  {
    var times := ReadTimes(start, replies);
    && Ran(spec.checks, deadline, times, replies, |x.checks|, x.checks, issued)
    && EndsAs(ending, spec.checks, deadline, times, replies, |x.checks|)
    && (ending == CheckCancelled <==> x.state == Cancelled)
    && (ending == DeadlinePassed || ending == CheckTimedOut <==> x.state == TimedOut)
  }

  /** How the command phase ended: its state, the number of checks that ran, and why the loop over them stopped. */
  ghost predicate EndedWith(spec: Spec, start: nat, env: SandboxEnv, state: RunState, n: nat, ending: CheckEnding)
    requires n <= |spec.checks| <= |env.checks|
  {
    var deadline, times := start + spec.timeout, ReadTimes(AfterCodex(start, env), env.checks);
    if !ReachesChecks(spec, env) then state == EarlyState(spec, env) && n == 0
    else
      && (forall i :: 0 <= i < n ==> times[i] < deadline)
      && EndsAs(ending, spec.checks, deadline, times, env.checks, n)
      && match ending
         case CheckCancelled => state == Cancelled
         case AllChecked => state == if EverythingPassed(spec, start, env) then Succeeded else Failed
         case _ => state == TimedOut
  }

  ghost predicate Outcome(spec: Spec, start: nat, env: SandboxEnv, state: RunState, n: nat)
    requires n <= |spec.checks| <= |env.checks|
  {
    exists ending :: EndedWith(spec, start, env, state, n, ending)
  }

  lemma HowItEnded(spec: Spec, start: nat, env: SandboxEnv, x: Execution, issued: seq<Issued>, ending: CheckEnding)
    requires |x.checks| <= |spec.checks| <= |env.checks| && Terminal(x.state)
    requires x.state == Succeeded <==> EverythingPassed(spec, start, env)
    requires CommandPhase(spec, start, env, x, issued, ending)
    ensures Outcome(spec, start, env, x.state, |x.checks|)
  {
    assert EndedWith(spec, start, env, x.state, |x.checks|, ending);
  }

  /** The answers of the environment leave one outcome. */
  lemma OutcomeUnique(spec: Spec, start: nat, env: SandboxEnv, s: RunState, n: nat, t: RunState, m: nat)
    requires n <= |spec.checks| <= |env.checks| && m <= |spec.checks|
    requires Outcome(spec, start, env, s, n) && Outcome(spec, start, env, t, m)
    ensures s == t && n == m
  {
    var a :| EndedWith(spec, start, env, s, n, a);
    var b :| EndedWith(spec, start, env, t, m, b);
    var deadline, times := start + spec.timeout, ReadTimes(AfterCodex(start, env), env.checks);
    if ReachesChecks(spec, env) {
      if n <= m {
        EndingUnique(spec.checks, deadline, times, env.checks, a, n, b, m);
      } else {
        EndingUnique(spec.checks, deadline, times, env.checks, b, m, a, n);
      }
    }
  }

  lemma ConcludedShape(
    spec: Spec, deadline: nat, start: nat, env: SandboxEnv, x: Execution, issued: seq<Issued>, ending: CheckEnding)
    requires Concluded(spec, deadline, start, env.checks, x, issued, ending)
    ensures IsCheckPrefix(spec, env, x.checks) && WithinDeadline(deadline, issued)
  {
  }

  /** Runs the checks after Codex, then decides how the run ended. */
  method CheckAndConclude(spec: Spec, deadline: nat, start: nat, codex: Reply, replies: seq<Reply>)
    returns (x: Execution, issued: seq<Issued>, ghost ending: CheckEnding)
    requires |spec.checks| <= |replies|
    ensures Terminal(x.state)
    ensures x.terminalReason.None? <==> x.state == Succeeded
    ensures x.state == Succeeded <==> ReplyPassed(codex) && ChecksPassed(spec, deadline, start, replies)
    ensures x.state == Succeeded ==> |x.checks| == |spec.checks|
    ensures Concluded(spec, deadline, start, replies, x, issued, ending)
    ensures CheckFacts(spec.checks, deadline, ReadTimes(start, replies), replies, x.checks, issued)
    ensures Verdict(spec, codex, x, ending)
  {
    var ended, checks, checksIssued := RunChecks(spec.checks, deadline, start, replies);
    ending, issued := ended, checksIssued;
    ghost var times := ReadTimes(start, replies);
    match ended {
      case DeadlinePassed =>
        return Execution(TimedOut, checks, Some("task_run.timed_out")), issued, ending;
      case CheckCancelled =>
        return Execution(Cancelled, checks, Some("task_run.cancelled")), issued, ending;
      case CheckTimedOut =>
        StoppedNotPassed(spec, deadline, start, replies, |checks| - 1);
        return Execution(TimedOut, checks, Some("task_run.timed_out")), issued, ending;
      case AllChecked =>
    }
    SuccessOfChecks(spec, deadline, times, replies, checks, issued);
    if ReplyPassed(codex) && AllSucceeded(checks) {
      x := Execution(Succeeded, checks, None);
    } else {
      var code := if ReplyPassed(codex) then "task_run.check_failed" else "task_run.provider_failed";
      x := Execution(Failed, checks, Some(code));
    }
  }

  /** Every declared check starts before the deadline and passes, said without the loop. */
  ghost predicate ChecksPassed(spec: Spec, deadline: nat, start: nat, replies: seq<Reply>)
    requires |spec.checks| <= |replies|
  {
    forall i :: 0 <= i < |spec.checks| ==>
                  && ReadTimes(start, replies)[i] < deadline
                  && ReplyPassed(replies[i]) && !replies[i].cancelled
  }

  /** A check that stops the loop is a check that did not pass. */
  lemma StoppedNotPassed(spec: Spec, deadline: nat, start: nat, replies: seq<Reply>, i: nat)
    requires i < |spec.checks| <= |replies|
    requires Stops(spec.checks, deadline, ReadTimes(start, replies), replies, i)
    ensures !ChecksPassed(spec, deadline, start, replies)
  {
  }

  /** All results are good exactly when all replies are. */
  lemma SuccessOfChecks(
    spec: Spec, deadline: nat, times: seq<nat>, replies: seq<Reply>, results: seq<CheckResult>, issued: seq<Issued>)
    requires Ran(spec.checks, deadline, times, replies, |spec.checks|, results, issued)
    requires NoneStopped(spec.checks, deadline, times, replies, |spec.checks|)
    ensures AllSucceeded(results) <==>
            forall i :: 0 <= i < |spec.checks| ==>
                          times[i] < deadline && ReplyPassed(replies[i]) && !replies[i].cancelled
  {
    forall i | 0 <= i < |spec.checks|
      ensures times[i] < deadline && !replies[i].cancelled
      ensures results[i].success <==> ReplyPassed(replies[i])
    {
      assert !Stops(spec.checks, deadline, times, replies, i);
    }
  }

  predicate AllSucceeded(checks: seq<CheckResult>) {
    forall i :: 0 <= i < |checks| ==> checks[i].success
  }

  /** What ends the loop, and after how many checks, is determined by the declared limits and the replies. */
  lemma EndingUnique(
    checks: seq<CheckSpec>, deadline: nat, times: seq<nat>, replies: seq<Reply>,
    a: CheckEnding, n: nat, b: CheckEnding, m: nat)
    requires n <= m <= |checks| <= |replies| == |times|
    requires forall i :: 0 <= i < m ==> times[i] < deadline
    requires EndsAs(a, checks, deadline, times, replies, n) && EndsAs(b, checks, deadline, times, replies, m)
    ensures a == b && n == m
  {
    if n > 0 && (a == CheckCancelled || a == CheckTimedOut) {
      assert Stops(checks, deadline, times, replies, n - 1);
    }
    if m > 0 && (b == CheckCancelled || b == CheckTimedOut) {
      assert Stops(checks, deadline, times, replies, m - 1);
    }
  }

  /** The shell in the sandbox sees exactly the declared command and arguments. */
  lemma CheckCommandReadsBack(c: CheckSpec)
    ensures SplitWords(CheckCommand(c)) == Some([c.command] + c.args)
  {
    ShellRoundTrip([c.command] + c.args);
  }

  /** How long the command at i of a run took. */
  function DurationOf(env: SandboxEnv, i: nat): nat
    requires i <= |env.checks|
  {
    if i == 0 then env.codex.duration else env.checks[i - 1].duration
  }

  /** The clock when the last command of a run with n checks has ended. */
  function PhaseEnd(start: nat, env: SandboxEnv, n: nat): nat
    requires n <= |env.checks|
  {
    if n == 0 then AfterCodex(start, env)
    else ReadTimes(AfterCodex(start, env), env.checks)[n - 1] + env.checks[n - 1].duration
  }

  /**
   * In a run whose commands keep their budgets, each started command ends by the deadline, and so does
   * the whole command phase.
   */
  lemma CommandsEndByDeadline(
    spec: Spec, start: nat, env: SandboxEnv, x: Execution, issued: seq<Issued>, ending: CheckEnding)
    requires |spec.checks| <= |env.checks| && CommandPhase(spec, start, env, x, issued, ending)
    requires forall i :: 0 <= i < |issued| ==> DurationOf(env, i) <= issued[i].budget
    ensures forall i :: 0 <= i < |issued| ==> issued[i].start + DurationOf(env, i) <= start + spec.timeout
    ensures issued != [] ==> PhaseEnd(start, env, |x.checks|) <= start + spec.timeout
    ensures issued != [] ==> |issued| == |x.checks| + 1
  {
    var deadline, times := start + spec.timeout, ReadTimes(AfterCodex(start, env), env.checks);
    forall i | 1 <= i < |issued| ensures issued[i].start + DurationOf(env, i) <= deadline {
      assert issued[i] == issued[1..][i - 1] == IssuedFor(spec.checks[i - 1], deadline, times[i - 1]);
    }
    if |x.checks| > 0 {
      var last := |x.checks|;
      assert issued[last] == issued[1..][last - 1];
      assert DurationOf(env, last) == env.checks[last - 1].duration;
    }
  }

  /**
   * A check of a run that timed out is a failed check. It ends the run exactly when no more time was
   * left than its own limit. Otherwise the next check starts, unless there is none or the deadline has
   * passed by then.
   */
  lemma LocalTimeoutContinues(
    spec: Spec, start: nat, env: SandboxEnv, x: Execution, issued: seq<Issued>, ending: CheckEnding, i: nat)
    requires |spec.checks| <= |env.checks| && CommandPhase(spec, start, env, x, issued, ending)
    requires i < |x.checks| <= |spec.checks| && !env.checks[i].cancelled && env.checks[i].error == Some("timeout")
    ensures !x.checks[i].success
    ensures var deadline, times := start + spec.timeout, ReadTimes(AfterCodex(start, env), env.checks);
            if deadline - times[i] <= spec.checks[i].timeout
            then |x.checks| == i + 1 && ending == CheckTimedOut && x.state == TimedOut
            else if i + 1 == |spec.checks| then |x.checks| == i + 1 && ending == AllChecked
            else if times[i + 1] >= deadline
            then |x.checks| == i + 1 && ending == DeadlinePassed && x.state == TimedOut
            else |x.checks| > i + 1
  {
    var deadline, times := start + spec.timeout, ReadTimes(AfterCodex(start, env), env.checks);
    TimeoutAt(spec.checks, deadline, times, env.checks, |x.checks|, ending, i);
  }

  /** The same for the loop alone: n checks ran, and check i among them timed out. */
  lemma TimeoutAt(
    checks: seq<CheckSpec>, deadline: nat, times: seq<nat>, replies: seq<Reply>, n: nat, ending: CheckEnding, i: nat)
    requires i < n <= |checks| <= |replies| == |times| && !replies[i].cancelled && replies[i].error == Some("timeout")
    requires EndsAs(ending, checks, deadline, times, replies, n)
    requires forall k :: 0 <= k < n ==> times[k] < deadline
    ensures if deadline - times[i] <= checks[i].timeout then n == i + 1 && ending == CheckTimedOut
            else if i + 1 == |checks| then n == i + 1 && ending == AllChecked
            else if times[i + 1] >= deadline then n == i + 1 && ending == DeadlinePassed
            else n > i + 1
  {
    assert Stops(checks, deadline, times, replies, i) <==> deadline - times[i] <= checks[i].timeout;
    assert i + 1 < n ==> times[i + 1] < deadline;
  }

  // ---- The whole run ----

  /** The evidence, with the artifacts that were not retained, or why there is none. */
  datatype Evidence = Collected(missing: seq<string>) | NotCollected(code: string, message: string)

  /** `assemble_task_result`. */
  function AssembleTaskResult(x: Execution, evidence: Evidence, cleanup: CleanupState): (r: Result)
    ensures forall i :: 0 <= i < |r.risks| ==> !CleanupRisk(r.risks[i])
    ensures FromRun(r, x, evidence)
  {
    match evidence
    case Collected(missing) =>
      Result(x.state, cleanup, x.checks, seq(|missing|, i requires 0 <= i < |missing| => ArtifactMissing(missing[i])),
             x.terminalReason)
    case NotCollected(code, message) => Result(Failed, cleanup, x.checks, [EvidenceRisk(message)], Some(code))
  }

  /** The part of a result that comes from the run in the sandbox and from the evidence. */
  ghost predicate FromRun(r: Result, x: Execution, evidence: Evidence) {
    && r.checks == x.checks
    && match evidence
       case Collected(missing) =>
         && r.state == x.state && r.terminalReason == x.terminalReason
         && |missing| <= |r.risks| && forall i :: 0 <= i < |missing| ==> r.risks[i] == ArtifactMissing(missing[i])
       case NotCollected(code, message) =>
         && r.state == Failed && r.terminalReason == Some(code)
         && r.risks != [] && r.risks[0] == EvidenceRisk(message)
  }

  /** A run in the sandbox, followed by the evidence, with the result and the events it gives. */
  ghost predicate RanInSandbox(
    spec: Spec, start: nat, env: SandboxEnv, evidence: Evidence, r: Result, events: seq<RunState>)
  {
    exists x, begun, issued, ending ::
      && SandboxRun(spec, start, env, x, begun, issued, ending)
      && FromRun(r, x, evidence) && events == begun + [CollectingEvidence]
  }

  /**
   * What a result says and which events came with it: which call decided the state, the reason that call
   * gave, and whether everything was cleaned up.
   */
  ghost predicate Explained(
    spec: Spec, e: Env, start: nat, env: SandboxEnv, evidence: Evidence, r: Result, events: seq<RunState>)
  {
    && (r.cleanup == CleanupDone <==>
          && (e.hasStore ==> e.remove.acked)
          && (e.cancelledEarly || e.create.CreateFailed? || e.delete.confirmed))
    && (r.cleanup == CleanupDone || r.cleanup == CleanupFailed)
    && if e.cancelledEarly then
         && r.state == Cancelled && r.terminalReason == Some("task_run.cancelled") && r.checks == []
         && events == [PreparingWorkspace, Cancelled]
       else if e.create.CreateFailed? then
         && r.state == Failed && r.terminalReason == Some(e.create.code) && r.checks == []
         && events == [PreparingWorkspace, StartingRuntime, Failed]
       else if e.hasStore && !e.second.acked then
         && r.state == Failed && r.terminalReason == Some("task_run.mapping_persistence_failed") && r.checks == []
         && events == [PreparingWorkspace, StartingRuntime, Failed]
       else
         exists phases ::
           && RanInSandbox(spec, start, env, evidence, r, phases)
           && events == [PreparingWorkspace, StartingRuntime] + phases + [r.state]
  }

  ghost predicate Rising(events: seq<RunState>) {
    forall i, j :: 0 <= i < j < |events| ==> TaskStateSeq(events[i]) < TaskStateSeq(events[j])
  }

  /** A complete lifecycle: rising ranks, and the last event alone is terminal. */
  ghost predicate Lifecycle(events: seq<RunState>, state: RunState) {
    && Rising(events)
    && events != [] && events[|events| - 1] == state && Terminal(state)
    && forall i :: 0 <= i < |events| - 1 ==> !Terminal(events[i])
  }

  predicate CleanupRisk(r: Risk) { r.MappingCleanup? || r.SandboxOrMapping? || r.SandboxCleanup? }

  /** What every result promises, together with its events. */
  ghost predicate Sound(
    spec: Spec, e: Env, start: nat, env: SandboxEnv, evidence: Evidence, r: Result, events: seq<RunState>)
    requires |spec.checks| <= |env.checks|
  {
    && Lifecycle(events, r.state)
    && (r.terminalReason.None? <==> r.state == Succeeded)
    && IsCheckPrefix(spec, env, r.checks) && (r.state == Succeeded ==> |r.checks| == |spec.checks|)
    && (r.state == Succeeded <==> Successful(spec, e, start, env, evidence))
    && (if e.cancelledEarly then r.state == Cancelled
        else if e.create.CreateFailed? || !Acked(e, e.second) || evidence.NotCollected? then r.state == Failed
        else Outcome(spec, start, env, r.state, |r.checks|))
    && r.cleanup == (if CleanupCompleted(e) then CleanupDone else CleanupFailed)
    && (r.cleanup == CleanupFailed <==> exists i :: 0 <= i < |r.risks| && CleanupRisk(r.risks[i]))
    && Explained(spec, e, start, env, evidence, r, events)
  }

  ghost predicate Successful(spec: Spec, e: Env, start: nat, env: SandboxEnv, evidence: Evidence)
    requires |spec.checks| <= |env.checks|
  {
    && !e.cancelledEarly && e.create.Created? && Acked(e, e.second)
    && EverythingPassed(spec, start, env) && evidence.Collected?
  }

  /** `execute_task`, once its payload and configuration are in order. */
  method ExecuteTask(spec: Spec, e: Env, start: nat, env: SandboxEnv, evidence: Evidence)
    returns (result: Option<Result>, events: seq<RunState>, trace: seq<Action>)
    requires |spec.checks| <= |env.checks|
    ensures trace == ExecutionTrace(spec.task, e) && CallsInOrder(trace, spec.task, e)
    ensures result.Some? <==> e.prepared && (e.hasStore ==> e.first.acked)
    ensures result.Some? ==> Sound(spec, e, start, env, evidence, result.value, events)
    ensures result.None? ==> events == [PreparingWorkspace]
  {
    var t := spec.task;
    CallOrder(t, e);
    events, trace := [PreparingWorkspace], [];
    if !e.prepared {
      return None, events, trace;
    }
    trace := Stored(e, Upsert(t, None, e.first.onDisk));
    if !Acked(e, e.first) {
      return None, events, trace;
    }
    if e.cancelledEarly {
      trace := trace + Stored(e, Remove(t, e.remove.onDisk));
      var r := WithoutSandbox(Cancelled, "task_run.cancelled", Acked(e, e.remove));
      events := [PreparingWorkspace, Cancelled];
      NoSandboxIsSound(spec, e, start, env, evidence, r, events);
      return Some(r), events, trace;
    }
    events := [PreparingWorkspace, StartingRuntime];
    if e.create.CreateFailed? {
      trace := trace + [Create(e.create.orphan)] + Stored(e, Remove(t, e.remove.onDisk));
      var r := WithoutSandbox(Failed, e.create.code, Acked(e, e.remove));
      events := events + [Failed];
      NoSandboxIsSound(spec, e, start, env, evidence, r, events);
      return Some(r), events, trace;
    }
    var id := e.create.id;
    trace := trace + [Create(Some(id))] + Stored(e, Upsert(t, Some(id), e.second.onDisk));
    var r, more := UseSandbox(spec, e, start, env, evidence, id);
    trace := trace + [Delete(id, e.delete.gone, e.delete.confirmed)];
    if e.delete.confirmed {
      trace := trace + Stored(e, Remove(t, e.remove.onDisk));
    }
    return Some(r), events + more, trace;
  }

  lemma NoSandboxIsSound(
    spec: Spec, e: Env, start: nat, env: SandboxEnv, evidence: Evidence, r: Result, events: seq<RunState>)
    requires |spec.checks| <= |env.checks|
    requires if e.cancelledEarly
             then r == WithoutSandbox(Cancelled, "task_run.cancelled", Acked(e, e.remove)) &&
                  events == [PreparingWorkspace, Cancelled]
             else e.create.CreateFailed? && r == WithoutSandbox(Failed, e.create.code, Acked(e, e.remove)) &&
                  events == [PreparingWorkspace, StartingRuntime, Failed]
    ensures Sound(spec, e, start, env, evidence, r, events)
  {
  }

  /** The part of `execute_task` with a sandbox, and how it ends when the cleanup answers as given. */
  method UseSandbox(spec: Spec, e: Env, start: nat, env: SandboxEnv, evidence: Evidence, id: SandboxId)
    returns (r: Result, more: seq<RunState>)
    requires |spec.checks| <= |env.checks| && e.create == Created(id) && !e.cancelledEarly
    ensures Sound(spec, e, start, env, evidence, r, [PreparingWorkspace, StartingRuntime] + more)
  {
    var cleanup := if e.delete.confirmed && Acked(e, e.remove) then CleanupDone else CleanupFailed;
    var phases;
    r, phases := RunAndCollect(spec, start, env, evidence, Acked(e, e.second), cleanup, id);
    more := phases + [r.state];
    LifecycleOf(phases, r.state);
    SandboxIsSound(spec, e, start, env, evidence, r, phases);
    assert [PreparingWorkspace, StartingRuntime] + phases + [r.state] == [PreparingWorkspace, StartingRuntime] + more;
  }

  lemma SandboxIsSound(
    spec: Spec, e: Env, start: nat, env: SandboxEnv, evidence: Evidence, r: Result, phases: seq<RunState>)
    requires e.create.Created? && !e.cancelledEarly
    requires r.cleanup == if e.delete.confirmed && Acked(e, e.remove) then CleanupDone else CleanupFailed
    requires if Acked(e, e.second) then RanInSandbox(spec, start, env, evidence, r, phases)
             else phases == [] && r.checks == [] && r.state == Failed &&
                  r.terminalReason == Some("task_run.mapping_persistence_failed")
    ensures Explained(spec, e, start, env, evidence, r, [PreparingWorkspace, StartingRuntime] + phases + [r.state])
  {
  }

  /** The event lists between the start of the runtime and the terminal event. */
  ghost predicate Phases(events: seq<RunState>) {
    || events == []
    || events == [CollectingEvidence]
    || events == [Running, CollectingEvidence]
    || events == [Running, Checking, CollectingEvidence]
  }

  lemma LifecycleOf(phases: seq<RunState>, state: RunState)
    requires Phases(phases) && Terminal(state)
    ensures Lifecycle([PreparingWorkspace, StartingRuntime] + phases + [state], state)
  {
  }

  /** The part of `execute_task` with a sandbox: run if it is recorded, collect evidence, assemble. */
  method RunAndCollect(
    spec: Spec, start: nat, env: SandboxEnv, evidence: Evidence,
    recorded: bool, cleanup: CleanupState, id: SandboxId)
    returns (r: Result, events: seq<RunState>)
    requires |spec.checks| <= |env.checks|
    ensures Terminal(r.state) && (r.terminalReason.None? <==> r.state == Succeeded)
    ensures r.state == Succeeded <==> recorded && EverythingPassed(spec, start, env) && evidence.Collected?
    ensures IsCheckPrefix(spec, env, r.checks) && (r.state == Succeeded ==> |r.checks| == |spec.checks|)
    ensures if recorded && evidence.Collected? then Outcome(spec, start, env, r.state, |r.checks|)
            else r.state == Failed
    ensures r.cleanup == cleanup
    ensures cleanup == CleanupFailed <==> exists i :: 0 <= i < |r.risks| && CleanupRisk(r.risks[i])
    ensures Phases(events)
    ensures if recorded then RanInSandbox(spec, start, env, evidence, r, events)
            else events == [] && r.checks == [] && r.terminalReason == Some("task_run.mapping_persistence_failed")
  {
    if !recorded {
      r := Result(Failed, cleanup, [], if cleanup == CleanupFailed then [SandboxOrMapping(id)] else [],
                  Some("task_run.mapping_persistence_failed"));
      assert cleanup == CleanupFailed ==> CleanupRisk(r.risks[0]);
      return r, [];
    }
    var x, phases := RunInSandbox(spec, start, env);
    ghost var issued, ending :| SandboxRun(spec, start, env, x, phases, issued, ending);
    events := phases + [CollectingEvidence];
    var assembled := AssembleTaskResult(x, evidence, cleanup);
    r := assembled.(risks := FinalRisks(assembled.risks, cleanup, id));
    assert forall i :: 0 <= i < |assembled.risks| ==> r.risks[i] == r.risks[..|assembled.risks|][i];
    assert FromRun(r, x, evidence);
  }

  /** What `execute_task` needs to know about `run_task_in_sandbox`. */
  method RunInSandbox(spec: Spec, start: nat, env: SandboxEnv) returns (x: Execution, events: seq<RunState>)
    requires |spec.checks| <= |env.checks|
    ensures Terminal(x.state) && (x.terminalReason.None? <==> x.state == Succeeded)
    ensures x.state == Succeeded <==> EverythingPassed(spec, start, env)
    ensures IsCheckPrefix(spec, env, x.checks) && (x.state == Succeeded ==> |x.checks| == |spec.checks|)
    ensures Outcome(spec, start, env, x.state, |x.checks|)
    ensures Phases(events + [CollectingEvidence])
    ensures exists issued, ending :: SandboxRun(spec, start, env, x, events, issued, ending)
  {
    var issued;
    ghost var ending;
    x, events, issued, ending := RunTaskInSandbox(spec, start, env);
    HowItEnded(spec, start, env, x, issued, ending);
  }

  /** The risks of a run with a sandbox: those of the evidence, a failed cleanup, and the standing one. */
  function FinalRisks(evidence: seq<Risk>, cleanup: CleanupState, id: SandboxId): (risks: seq<Risk>)
    requires forall i :: 0 <= i < |evidence| ==> !CleanupRisk(evidence[i])
    ensures cleanup == CleanupFailed <==> exists i :: 0 <= i < |risks| && CleanupRisk(risks[i])
    ensures |evidence| < |risks| && risks[..|evidence|] == evidence && CredentialProfile in risks
    ensures cleanup == CleanupFailed ==> SandboxCleanup(id) in risks
  {
    var risks := evidence + (if cleanup == CleanupFailed then [SandboxCleanup(id)] else []) + [CredentialProfile];
    assert cleanup == CleanupFailed ==> risks[|evidence|] == SandboxCleanup(id);
    assert risks[|risks| - 1] == CredentialProfile;
    risks
  }

  /** The result of a run that ended without a sandbox. */
  function WithoutSandbox(state: RunState, reason: string, removed: bool): (r: Result)
    ensures r.cleanup == (if removed then CleanupDone else CleanupFailed)
    ensures !removed <==> exists i :: 0 <= i < |r.risks| && CleanupRisk(r.risks[i])
    ensures r.state == state && r.terminalReason == Some(reason) && r.checks == []
  {
    assert !removed ==> CleanupRisk([MappingCleanup][0]);
    var risks := if removed then [] else [MappingCleanup];
    Result(state, if removed then CleanupDone else CleanupFailed, [], risks, Some(reason))
  }
}
