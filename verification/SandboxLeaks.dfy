/**
 * Which sandboxes of a task execution are left running for good: exactly those that were started, were
 * not stopped, and whose id was never saved. Passes over the mapping table can do nothing about them.
 */
module SandboxLeaks {
  import opened Collections
  import opened TaskRuntime
  import opened Reconciliation

  // ---- What the run says about the new sandbox ----

  /** The table names the sandbox for the task. */
  predicate Names(m: Mappings, t: TaskId, id: SandboxId) { t in m && m[t] == Some(id) }

  lemma NamesArePairs(m: Mappings, t: TaskId, id: SandboxId)
    ensures Names(m, t, id) <==> (t, id) in Pairs(m)
  {
  }

  /** The id is not in use anywhere yet. */
  ghost predicate Unused(id: SandboxId, w: World) {
    && id !in w.live && id !in w.confirmed
    && forall x :: (x, id) !in w.recorded && !Names(w.mem, x, id) && !Names(w.disk, x, id)
  }

  predicate Started(actions: seq<Action>, id: SandboxId) { Create(Some(id)) in actions }

  /** Some delete of it took effect, acknowledged or not. */
  predicate Stopped(actions: seq<Action>, id: SandboxId) {
    Delete(id, true, true) in actions || Delete(id, true, false) in actions
  }

  predicate Writes(a: Action, t: TaskId, id: SandboxId) {
    a == Upsert(t, Some(id), true) || a == Upsert(t, Some(id), false)
  }

  predicate Saves(a: Action) { a == Flush || (a.Upsert? && a.onDisk) || (a.Remove? && a.onDisk) }

  ghost predicate Written(actions: seq<Action>, t: TaskId, id: SandboxId) {
    exists i :: 0 <= i < |actions| && Writes(actions[i], t, id)
  }

  /** Some save happened at or after the write of the id. */
  ghost predicate SavedWithId(actions: seq<Action>, t: TaskId, id: SandboxId) {
    exists i, j :: 0 <= i <= j < |actions| && Writes(actions[i], t, id) && Saves(actions[j])
  }

  /** The run as far as it got: the sandbox was started, nothing stopped it, and its id was never saved. */
  ghost predicate Leaks(actions: seq<Action>, t: TaskId, id: SandboxId) {
    Started(actions, id) && !Stopped(actions, id) && !SavedWithId(actions, t, id)
  }

  lemma WrittenSnoc(init: seq<Action>, last: Action, t: TaskId, id: SandboxId)
    ensures Written(init + [last], t, id) <==> Written(init, t, id) || Writes(last, t, id)
  {
    var more := init + [last];
    if Written(init, t, id) {
      var i :| 0 <= i < |init| && Writes(init[i], t, id);
      assert more[i] == init[i];
    }
    if Writes(last, t, id) {
      assert more[|init|] == last;
    }
  }

  lemma SavedSnoc(init: seq<Action>, last: Action, t: TaskId, id: SandboxId)
    ensures SavedWithId(init + [last], t, id) <==>
            SavedWithId(init, t, id) || (Saves(last) && Written(init + [last], t, id))
  {
    var more := init + [last];
    if SavedWithId(init, t, id) {
      var i, j :| 0 <= i <= j < |init| && Writes(init[i], t, id) && Saves(init[j]);
      assert Writes(more[i], t, id) && Saves(more[j]);
    }
    if Saves(last) && Written(more, t, id) {
      var i :| 0 <= i < |more| && Writes(more[i], t, id);
      assert Saves(more[|init|]);
    }
    if SavedWithId(more, t, id) {
      var i, j :| 0 <= i <= j < |more| && Writes(more[i], t, id) && Saves(more[j]);
      if j < |init| {
        assert Writes(init[i], t, id) && Saves(init[j]);
      }
    }
  }

  /** What the state says about the new sandbox, in terms of the run alone. */
  ghost predicate Tracked(t: TaskId, id: SandboxId, actions: seq<Action>, w: World) {
    && (id in w.live <==> Started(actions, id) && !Stopped(actions, id))
    && (!Stopped(actions, id) ==>
          && id !in w.confirmed
          && (forall x :: Names(w.mem, x, id) <==> x == t && Written(actions, t, id))
          && (forall x :: Names(w.disk, x, id) <==> x == t && SavedWithId(actions, t, id))
          && (SavedWithId(actions, t, id) ==> (t, id) in w.recorded))
    && (id in w.confirmed ==> Stopped(actions, id))
  }

  /** Where an action of the protocol can stand, as far as the new sandbox is concerned. */
  ghost predicate Fits(t: TaskId, id: SandboxId, before: seq<Action>, a: Action) {
    && a != Restart
    && (a.Create? ==> a.born == Some(id) && !Stopped(before, id))
    && (a.Delete? ==> a.target == id && (a.confirmed ==> a.gone))
    && (a.Upsert? ==> a.task == t && (Writes(a, t, id) || (a.sandbox.None? && !Written(before, t, id))))
    && (a.Remove? ==> a.task == t && (Written(before, t, id) ==> Stopped(before, id)))
  }

  lemma {:induction false} StripMembers(actions: seq<Action>, a: Action)
    requires a != Flush
    ensures a in Strip(actions) <==> a in actions
  {
    if actions != [] {
      var init, last := actions[..|actions| - 1], actions[|actions| - 1];
      StripMembers(init, a);
      assert actions == init + [last];
    }
  }

  lemma TraceFits(t: TaskId, e: Env, id: SandboxId, init: seq<Action>, n: nat)
    requires Honest(e) && Born(e) == Some(id)
    requires n < |ExecutionTrace(t, e)| && Strip(init) == ExecutionTrace(t, e)[..n]
    ensures Fits(t, id, init, ExecutionTrace(t, e)[n])
  {
    TraceShape(t, e, n);
    StripKeepsFacts(init, t, id);
    FollowsFits(t, e, id, Strip(init), ExecutionTrace(t, e)[n]);
    if ExecutionTrace(t, e)[n].Create? {
      BornOnly(t, e, n);
    }
  }

  lemma FollowsFits(t: TaskId, e: Env, id: SandboxId, done: seq<Action>, a: Action)
    requires Follows(t, e, done, a) && Born(e) == Some(id)
    ensures a != Restart
    ensures a.Create? && a.born.Some? ==> !Stopped(done, id)
    ensures a.Delete? ==> a.target == id && (a.confirmed ==> a.gone)
    ensures a.Upsert? ==> a.task == t && (Writes(a, t, id) || (a.sandbox.None? && done == []))
    ensures a.Remove? ==> a.task == t && (NamedBy(t, e, done, id) ==> Stopped(done, id))
    ensures a.Remove? && e.create.Created? ==>
              (Upsert(t, Some(id), true) in done || Upsert(t, Some(id), false) in done ==> Stopped(done, id))
  {
  }

  /** The trace creates what was born, and nothing else. */
  lemma BornOnly(t: TaskId, e: Env, n: nat)
    requires n < |ExecutionTrace(t, e)| && ExecutionTrace(t, e)[n].Create?
    ensures ExecutionTrace(t, e)[n].born == Born(e)
  {
  }

  /** What was stopped and written does not depend on saves by others. */
  lemma StripKeepsFacts(actions: seq<Action>, t: TaskId, id: SandboxId)
    ensures Started(actions, id) <==> Started(Strip(actions), id)
    ensures Stopped(actions, id) <==> Stopped(Strip(actions), id)
    ensures Written(actions, t, id) <==>
            Upsert(t, Some(id), true) in Strip(actions) || Upsert(t, Some(id), false) in Strip(actions)
  {
    StripMembers(actions, Create(Some(id)));
    StripMembers(actions, Delete(id, true, true));
    StripMembers(actions, Delete(id, true, false));
    StripMembers(actions, Upsert(t, Some(id), true));
    StripMembers(actions, Upsert(t, Some(id), false));
  }

  lemma TrackedNext(t: TaskId, id: SandboxId, init: seq<Action>, a: Action, w: World)
    requires Tracked(t, id, init, w) && (a == Flush || Fits(t, id, init, a))
    ensures Tracked(t, id, init + [a], Apply(w, a))
  {
    WrittenSnoc(init, a, t, id);
    SavedSnoc(init, a, t, id);
    var more, v := init + [a], Apply(w, a);
    assert forall x :: x in more <==> x in init || x == a;
    NamesArePairs(v.mem, t, id);
    if !Stopped(more, id) {
      forall x ensures Names(v.mem, x, id) <==> x == t && Written(more, t, id) {
        assert Names(w.mem, x, id) <==> x == t && Written(init, t, id);
      }
    }
  }

  lemma {:induction false} TrackedAlways(t: TaskId, e: Env, id: SandboxId, w: World, actions: seq<Action>)
    requires Honest(e) && Born(e) == Some(id) && Unused(id, w) && Strip(actions) <= ExecutionTrace(t, e)
    ensures Tracked(t, id, actions, ApplyAll(w, actions))
  {
    if actions != [] {
      var init, last := actions[..|actions| - 1], actions[|actions| - 1];
      assert actions == init + [last];
      if last != Flush {
        var n := |Strip(init)|;
        assert Strip(actions)[..n] == Strip(init) && last == Strip(actions)[n] == ExecutionTrace(t, e)[n];
        TraceFits(t, e, id, init, n);
      }
      TrackedAlways(t, e, id, w, init);
      TrackedNext(t, id, init, last, ApplyAll(w, init));
    }
  }

  // ---- What passes can do about it ----

  /** A pass deletes only sandboxes that its snapshot names. */
  lemma {:induction false} DeletesNamed(snapshot: Mappings, order: seq<TaskId>, replies: seq<PassReply>, a: Action)
    requires |replies| == |order| && forall i :: 0 <= i < |order| ==> order[i] in snapshot
    requires a in ReconcileTrace(snapshot, order, replies) && a.Delete?
    ensures exists x :: Names(snapshot, x, a.target)
    decreases |order|
  {
    var id := snapshot[order[0]];
    var head, rest := Handle(order[0], id, replies[0]), ReconcileTrace(snapshot, order[1..], replies[1..]);
    if a in head {
      assert Names(snapshot, order[0], a.target);
    } else {
      assert a in rest;
      DeletesNamed(snapshot, order[1..], replies[1..], a);
    }
  }

  /** A confirmed delete means not running. */
  ghost predicate Settled(id: SandboxId, w: World) { id in w.confirmed ==> id !in w.live }

  ghost predicate NotNamed(m: Mappings, id: SandboxId) { forall x :: !Names(m, x, id) }

  /** What a pass over w has done about a sandbox when it has come to v. */
  ghost predicate PassState(id: SandboxId, w: World, v: World) {
    && (id !in w.live ==> id !in v.live)
    && (Settled(id, w) ==> Settled(id, v))
    && w.recorded <= v.recorded
    && (id in w.live && NotNamed(w.disk, id) ==> id in v.live && NotNamed(v.mem, id) && NotNamed(v.disk, id))
  }

  lemma PassStateNext(id: SandboxId, w: World, v: World, a: Action)
    requires PassState(id, w, v)
    requires a == Flush || a.Remove? || a.Delete?
    requires a.Delete? ==> (a.confirmed ==> a.gone) && (NotNamed(w.disk, id) ==> a.target != id)
    ensures PassState(id, w, Apply(v, a))
  {
    if NotNamed(v.mem, id) {
      assert a.Remove? ==> forall x :: Names(v.mem - {a.task}, x, id) ==> Names(v.mem, x, id);
    }
  }

  lemma {:induction false} PassEffect(w: World, id: SandboxId, p: Pass)
    requires PossiblePass(w, p)
    ensures PassState(id, w, AfterPass(w, p))
    decreases |p.actions|
  {
    if p.actions != [] {
      var init, last := p.actions[..|p.actions| - 1], p.actions[|p.actions| - 1];
      NextOfPass(w, id, p);
      PassEffect(w, id, p.(actions := init));
      PassStateNext(id, w, AfterPass(w, p.(actions := init)), last);
    }
  }

  /** What the last action of a pass can be. */
  lemma NextOfPass(w: World, id: SandboxId, p: Pass)
    requires PossiblePass(w, p) && p.actions != []
    ensures PossiblePass(w, p.(actions := p.actions[..|p.actions| - 1]))
    ensures var a := p.actions[|p.actions| - 1];
            && (a == Flush || a.Remove? || a.Delete?)
            && (a.Delete? ==> (a.confirmed ==> a.gone) && (NotNamed(w.disk, id) ==> a.target != id))
  {
    var init, last := p.actions[..|p.actions| - 1], p.actions[|p.actions| - 1];
    var trace := ReconcileTrace(w.disk, p.order, p.replies);
    if last != Flush {
      var n := |Strip(init)|;
      assert Strip(p.actions)[..n] == Strip(init) && last == Strip(p.actions)[n] == trace[n];
      PassShape(w.disk, p.order, p.replies, n);
      if last.Delete? {
        DeletesNamed(w.disk, p.order, p.replies, last);
      }
    }
  }

  lemma {:induction false} PassesEffect(w: World, id: SandboxId, passes: seq<Pass>)
    requires Possible(w, passes)
    ensures var after := AfterPasses(w, passes);
            && (id !in w.live ==> id !in after.live)
            && (Settled(id, w) ==> Settled(id, after))
            && w.recorded <= after.recorded
            && (id in w.live && NotNamed(w.disk, id) ==> id in after.live && NotNamed(after.disk, id))
    decreases |passes|
  {
    if passes != [] {
      PassEffect(w, id, passes[0]);
      PassesEffect(AfterPass(w, passes[0]), id, passes[1..]);
    }
  }

  /**
   * Which sandboxes outlive recovery: after one execution that got anywhere, any restarts and passes,
   * and then a pass without faults, the sandbox its create request brought to life is still running
   * exactly when the run started it, did not stop it, and never saved the table with its id.
   */
  lemma LeakExactly(t: TaskId, e: Env, w: World, actions: seq<Action>, passes: seq<Pass>, p: Pass, id: SandboxId)
    requires Honest(e) && FreshStart(t, e, w) && Strip(actions) <= ExecutionTrace(t, e)
    requires Born(e) == Some(id) && Unused(id, w)
    requires Possible(ApplyAll(w, actions), passes)
    requires FaultlessPass(AfterPasses(ApplyAll(w, actions), passes), p)
    ensures id in AfterPass(AfterPasses(ApplyAll(w, actions), passes), p).live <==> Leaks(actions, t, id)
  {
    var crashed := ApplyAll(w, actions);
    var before := AfterPasses(crashed, passes);
    TrackedAlways(t, e, id, w, actions);
    PassesEffect(crashed, id, passes);
    FaultlessPassEmptiesTable(before, p);
    if Names(before.disk, t, id) {
      NamesArePairs(before.disk, t, id);
      assert (t, id).1 in RecordedIds(before.disk);
    }
    if id in RecordedIds(before.disk) {
      var q :| q in Pairs(before.disk) && q.1 == id;
      NamesArePairs(before.disk, q.0, id);
    }
    if SavedWithId(actions, t, id) && !Stopped(actions, id) {
      ExecutionIsSafe(t, e, w, actions);
      PassesKeepDurable(crashed, passes);
      assert (t, id) in before.recorded;
    }
  }

  /**
   * Once the second write is on disk, no crash and no failure leaves the sandbox running for good: the
   * first pass without faults finds it stopped.
   */
  lemma RecordedIsStopped(t: TaskId, e: Env, w: World, actions: seq<Action>, passes: seq<Pass>, p: Pass)
    requires Honest(e) && FreshStart(t, e, w) && Strip(actions) <= ExecutionTrace(t, e)
    requires e.hasStore && ReachesResult(e) && !e.cancelledEarly && e.create.Created? && e.second.onDisk
    requires |Strip(actions)| >= 3 && Unused(e.create.id, w)
    requires Possible(ApplyAll(w, actions), passes)
    requires FaultlessPass(AfterPasses(ApplyAll(w, actions), passes), p)
    ensures e.create.id !in AfterPass(AfterPasses(ApplyAll(w, actions), passes), p).live
  {
    var id := e.create.id;
    LeakExactly(t, e, w, actions, passes, p, id);
    CallOrder(t, e);
    assert Strip(actions)[2] == ExecutionTrace(t, e)[2] == Upsert(t, Some(id), true);
    StripMembers(actions, Upsert(t, Some(id), true));
    var i :| 0 <= i < |actions| && actions[i] == Upsert(t, Some(id), true);
    assert Writes(actions[i], t, id) && Saves(actions[i]);
  }

  /** Whatever happens later, passes that fail or crash included, such a sandbox is never stopped. */
  lemma LeakIsForGood(t: TaskId, e: Env, w: World, actions: seq<Action>, passes: seq<Pass>, id: SandboxId)
    requires Honest(e) && Strip(actions) <= ExecutionTrace(t, e) && Born(e) == Some(id) && Unused(id, w)
    requires Possible(ApplyAll(w, actions), passes) && Leaks(actions, t, id)
    ensures id in AfterPasses(ApplyAll(w, actions), passes).live
  {
    TrackedAlways(t, e, id, w, actions);
    PassesEffect(ApplyAll(w, actions), id, passes);
  }

  /** A sandbox whose create request failed after it came to life is always left running. */
  lemma OrphanAlwaysLeaks(t: TaskId, e: Env, w: World, actions: seq<Action>, passes: seq<Pass>, id: SandboxId)
    requires Honest(e) && Strip(actions) <= ExecutionTrace(t, e) && Unused(id, w)
    requires e.create.CreateFailed? && e.create.orphan == Some(id)
    requires Started(actions, id) && Possible(ApplyAll(w, actions), passes)
    ensures Leaks(actions, t, id) && id in AfterPasses(ApplyAll(w, actions), passes).live
  {
    StripKeepsFacts(actions, t, id);
    OrphanUntouched(t, e, id, Strip(actions));
    LeakIsForGood(t, e, w, actions, passes, id);
  }

  /** Without its id, the execution neither deletes nor records it. */
  lemma OrphanUntouched(t: TaskId, e: Env, id: SandboxId, done: seq<Action>)
    requires done <= ExecutionTrace(t, e) && e.create.CreateFailed? && e.create.orphan == Some(id)
    ensures forall i :: 0 <= i < |done| ==> !done[i].Delete? && !(done[i].Upsert? && done[i].sandbox.Some?)
  {
  }

  const NOTHING := World(map[], map[], {}, {}, {})
  const DONE := Call(true, true)

  const STARTED: seq<Action> := [Upsert("run", None, true), Create(Some("box"))]

  const UNDISTURBED := Env(true, true, DONE, false, Created("box"), DONE, DeleteReply(true, true), DONE)

  /** The crash between create and second write: the sandbox runs on, whatever the passes do. */
  lemma CrashWindowLeaks(passes: seq<Pass>)
    requires Possible(ApplyAll(NOTHING, STARTED), passes)
    ensures "box" in AfterPasses(ApplyAll(NOTHING, STARTED), passes).live
  {
    StartedRun();
    LeakIsForGood("run", UNDISTURBED, NOTHING, STARTED, passes, "box");
  }

  /** The first two calls of an undisturbed execution are such a run. */
  lemma StartedRun()
    ensures Strip(STARTED) <= ExecutionTrace("run", UNDISTURBED) && Leaks(STARTED, "run", "box")
  {
    assert STARTED[..1] == [Upsert("run", None, true)] && STARTED[..1][..0] == [];
    assert Strip(STARTED[..1]) == STARTED[..1];
    assert Strip(STARTED) == STARTED;
  }

  /** A create that failed after all: the run ends with `Completed` cleanup, an empty table and a running sandbox. */
  lemma CompletedWithOrphan()
    ensures var e := UNDISTURBED.(create := CreateFailed(Some("box"), "timeout"));
            var after := ApplyAll(NOTHING, ExecutionTrace("run", e));
            && Honest(e) && FreshStart("run", e, NOTHING) && ReachesResult(e) && CleanupCompleted(e)
            && after.mem == map[] && after.disk == map[] && after.live == {"box"}
  {
    var e := UNDISTURBED.(create := CreateFailed(Some("box"), "timeout"));
    var trace := ExecutionTrace("run", e);
    assert trace == [Upsert("run", None, true), Create(Some("box")), Remove("run", true)];
    assert trace[..2][..1] == [Upsert("run", None, true)] && trace[..2][..1][..0] == [];
    assert ApplyAll(NOTHING, trace[..2][..1]) == Apply(ApplyAll(NOTHING, []), Upsert("run", None, true));
    assert ApplyAll(NOTHING, trace[..2]) == Apply(ApplyAll(NOTHING, trace[..2][..1]), Create(Some("box")));
  }
}
