/**
 * The reconciliation of task runtime mappings after a restart (`reconcile_task_runtime_mappings`), and
 * what one execution and any number of passes after it guarantee together.
 */
module Reconciliation {
  import opened Collections
  import opened TaskRuntime

  // ---- One pass ----

  /** The answers for one mapping of a pass. */
  datatype PassReply = PassReply(delete: DeleteReply, remove: Call)

  ghost predicate HonestPass(replies: seq<PassReply>) {
    forall i :: 0 <= i < |replies| ==>
                  && (replies[i].delete.confirmed ==> replies[i].delete.gone)
                  && (replies[i].remove.acked ==> replies[i].remove.onDisk)
  }

  /** The calls for one mapping of the snapshot. */
  function Handle(t: TaskId, id: Option<SandboxId>, reply: PassReply): seq<Action> {
    var removed := [Remove(t, reply.remove.onDisk)];
    if id.None? then removed
    else
      var deleted := [Delete(id.value, reply.delete.gone, reply.delete.confirmed)];
      if reply.delete.confirmed then deleted + removed else deleted
  }

  /** A failing delete goes on with the next mapping, a failing removal ends the pass. */
  predicate EndsPass(id: Option<SandboxId>, reply: PassReply) {
    (id.None? || reply.delete.confirmed) && !reply.remove.acked
  }

  /** The calls of one pass over the snapshot, in the order its entries are visited. */
  function ReconcileTrace(snapshot: Mappings, order: seq<TaskId>, replies: seq<PassReply>): seq<Action>
    requires |replies| == |order| && forall i :: 0 <= i < |order| ==> order[i] in snapshot
  {
    if order == [] then []
    else
      var id := snapshot[order[0]];
      Handle(order[0], id, replies[0]) +
      if EndsPass(id, replies[0]) then [] else ReconcileTrace(snapshot, order[1..], replies[1..])
  }

  /** Every mapping once. */
  ghost predicate Visits(snapshot: Mappings, order: seq<TaskId>) {
    && (forall t :: t in snapshot <==> t in order)
    && (forall i :: 0 <= i < |order| ==> order[i] in snapshot)
    && (forall i, j :: 0 <= i < j < |order| ==> order[i] != order[j])
  }

  /**
   * The calls entry by entry: the sandbox of an entry that names one is deleted; if that is confirmed, or
   * there is none, its mapping is removed; and the pass goes on to the next entry unless a removal was
   * not acknowledged.
   */
  ghost predicate PerEntry(snapshot: Mappings, order: seq<TaskId>, replies: seq<PassReply>, parts: seq<seq<Action>>)
    requires |replies| == |order| && forall i :: 0 <= i < |order| ==> order[i] in snapshot
  {
    && |parts| <= |order|
    && (forall i :: 0 <= i < |parts| ==>
          var id, reply := snapshot[order[i]], replies[i];
          var removal := Remove(order[i], reply.remove.onDisk);
          if id.None? then parts[i] == [removal]
          else
            var deletion := Delete(id.value, reply.delete.gone, reply.delete.confirmed);
            parts[i] == if reply.delete.confirmed then [deletion, removal] else [deletion])
    && (forall i :: 0 <= i < |parts| - 1 ==> GoesOn(snapshot[order[i]], replies[i]))
    && (|parts| < |order| ==> parts != [] && !GoesOn(snapshot[order[|parts| - 1]], replies[|parts| - 1]))
  }

  /** After an entry the pass goes on unless its mapping should have gone and the removal was not acknowledged. */
  ghost predicate GoesOn(id: Option<SandboxId>, reply: PassReply) {
    reply.remove.acked || (id.Some? && !reply.delete.confirmed)
  }

  lemma {:induction false} PassParts(snapshot: Mappings, order: seq<TaskId>, replies: seq<PassReply>)
    returns (parts: seq<seq<Action>>)
    requires |replies| == |order| && forall i :: 0 <= i < |order| ==> order[i] in snapshot
    ensures PerEntry(snapshot, order, replies, parts) && ReconcileTrace(snapshot, order, replies) == Flatten(parts)
    decreases |order|
  {
    if order == [] {
      return [];
    }
    var head := Handle(order[0], snapshot[order[0]], replies[0]);
    if EndsPass(snapshot[order[0]], replies[0]) {
      parts := [head];
      assert Flatten(parts) == head + Flatten<Action>([]);
    } else {
      var rest := PassParts(snapshot, order[1..], replies[1..]);
      parts := [head] + rest;
      assert parts[1..] == rest;
      PartsCons(snapshot, order, replies, head, rest);
    }
  }

  lemma PartsCons(
    snapshot: Mappings, order: seq<TaskId>, replies: seq<PassReply>, head: seq<Action>, rest: seq<seq<Action>>)
    requires |replies| == |order| > 0 && forall i :: 0 <= i < |order| ==> order[i] in snapshot
    requires head == Handle(order[0], snapshot[order[0]], replies[0]) && !EndsPass(snapshot[order[0]], replies[0])
    requires PerEntry(snapshot, order[1..], replies[1..], rest)
    ensures PerEntry(snapshot, order, replies, [head] + rest)
  {
    var parts := [head] + rest;
    forall i | 1 <= i < |order|
      ensures order[i] == order[1..][i - 1] && replies[i] == replies[1..][i - 1]
    {
    }
    assert forall i :: 1 <= i < |parts| ==> parts[i] == rest[i - 1];
  }

  lemma NoneToVisit(snapshot: Mappings, order: seq<TaskId>)
    requires Visits(snapshot, order)
    ensures snapshot == map[] ==> order == []
  {
    if order != [] {
      assert order[0] in snapshot;
    }
  }

  /** `reconcile_task_runtime_mappings`. */
  method ReconcileTaskRuntimeMappings(configured: bool, snapshot: Mappings, order: seq<TaskId>, replies: seq<PassReply>)
    returns (trace: seq<Action>, ok: bool)
    requires Visits(snapshot, order) && |replies| == |order|
    ensures configured ==> trace == ReconcileTrace(snapshot, order, replies)
    ensures configured ==> exists parts :: PerEntry(snapshot, order, replies, parts) && trace == Flatten(parts)
    ensures !configured ==> trace == [] && ok
    ensures configured ==> (ok <==> forall i :: 0 <= i < |order| ==> !EndsPass(snapshot[order[i]], replies[i]))
  {
    trace, ok := [], true;
    ghost var parts := PassParts(snapshot, order, replies);
    if snapshot == map[] {
      NoneToVisit(snapshot, order);
      return;
    }
    if !configured {
      return;
    }
    trace, ok := ReconcileEach(snapshot, order, replies);
  }

  /** The loop over the mappings of the snapshot. */
  method ReconcileEach(snapshot: Mappings, order: seq<TaskId>, replies: seq<PassReply>)
    returns (trace: seq<Action>, ok: bool)
    requires |replies| == |order| && forall k :: 0 <= k < |order| ==> order[k] in snapshot
    ensures trace == ReconcileTrace(snapshot, order, replies)
    ensures ok <==> forall i :: 0 <= i < |order| ==> !EndsPass(snapshot[order[i]], replies[i])
  {
    trace, ok := [], true;
    ghost var whole := ReconcileTrace(snapshot, order, replies);
    for i := 0 to |order|
      invariant Continues(snapshot, order, replies, i, trace, whole)
      invariant forall k :: 0 <= k < i ==> !EndsPass(snapshot[order[k]], replies[k])
    {
      var t, reply := order[i], replies[i];
      ghost var before := trace;
      ContinuesNext(snapshot, order, replies, i, trace, whole);
      if snapshot[t].Some? {
        trace := trace + [Delete(snapshot[t].value, reply.delete.gone, reply.delete.confirmed)];
        if !reply.delete.confirmed {
          continue;
        }
      }
      trace := trace + [Remove(t, reply.remove.onDisk)];
      assert trace == before + Handle(t, snapshot[t], reply);
      if !reply.remove.acked {
        return trace, false;
      }
    }
  }

  /** The calls made before entry i, and those the rest of the pass makes, are the whole pass. */
  ghost predicate Continues(
    snapshot: Mappings, order: seq<TaskId>, replies: seq<PassReply>, i: nat, made: seq<Action>, whole: seq<Action>)
    requires i <= |replies| == |order| && forall k :: 0 <= k < |order| ==> order[k] in snapshot
  {
    whole == made + ReconcileTrace(snapshot, order[i..], replies[i..])
  }

  lemma ContinuesNext(
    snapshot: Mappings, order: seq<TaskId>, replies: seq<PassReply>, i: nat, made: seq<Action>, whole: seq<Action>)
    requires i < |replies| == |order| && forall k :: 0 <= k < |order| ==> order[k] in snapshot
    requires Continues(snapshot, order, replies, i, made, whole)
    ensures var next := made + Handle(order[i], snapshot[order[i]], replies[i]);
            if EndsPass(snapshot[order[i]], replies[i]) then whole == next
            else Continues(snapshot, order, replies, i + 1, next, whole)
  {
    assert order[i..][1..] == order[i + 1..] && replies[i..][1..] == replies[i + 1..];
  }

  /** In a pass, a mapping with an id is removed only after the delete of that id was confirmed. */
  lemma {:induction false} PassShape(snapshot: Mappings, order: seq<TaskId>, replies: seq<PassReply>, n: nat)
    requires |replies| == |order| && forall i :: 0 <= i < |order| ==> order[i] in snapshot
    requires HonestPass(replies) && n < |ReconcileTrace(snapshot, order, replies)|
    ensures var trace := ReconcileTrace(snapshot, order, replies);
            var a := trace[n];
            && (a.Delete? || a.Remove?)
            && (a.Delete? && a.confirmed ==> a.gone)
            && (a.Remove? ==> a.task in snapshot)
            && (a.Remove? && snapshot[a.task].Some? ==> Delete(snapshot[a.task].value, true, true) in trace[..n])
    decreases |order|
  {
    var trace := ReconcileTrace(snapshot, order, replies);
    var head := Handle(order[0], snapshot[order[0]], replies[0]);
    var k := |head|;
    if n < k {
      assert trace[n] == head[n] && (n == 1 ==> trace[..1][0] == head[0]);
    } else {
      var rest := ReconcileTrace(snapshot, order[1..], replies[1..]);
      assert trace == head + rest;
      PassShape(snapshot, order[1..], replies[1..], n - k);
      assert trace[n] == rest[n - k];
      InLater(head, rest, n);
    }
  }

  lemma InLater(head: seq<Action>, rest: seq<Action>, n: nat)
    requires |head| <= n <= |head + rest|
    ensures forall a :: a in rest[..n - |head|] ==> a in (head + rest)[..n]
  {
    assert (head + rest)[..n] == head + rest[..n - |head|];
  }

  /** What is known during a pass that started from the table on disk. */
  ghost predicate Reconciling(snapshot: Mappings, done: seq<Action>, w: World) {
    && Durable(w)
    && (forall t :: t in w.mem ==> t in snapshot && w.mem[t] == snapshot[t])
    && (forall id :: Delete(id, true, true) in done ==> id in w.confirmed)
  }

  /** A pass, cut off anywhere and with saves anywhere, keeps the property. */
  lemma {:induction false} PassIsSafe(w: World, order: seq<TaskId>, replies: seq<PassReply>, actions: seq<Action>)
    requires Durable(w) && w.mem == w.disk && Visits(w.disk, order) && |replies| == |order| && HonestPass(replies)
    requires Strip(actions) <= ReconcileTrace(w.disk, order, replies)
    ensures Reconciling(w.disk, Strip(actions), ApplyAll(w, actions))
  {
    var trace := ReconcileTrace(w.disk, order, replies);
    if actions != [] {
      var init, last := actions[..|actions| - 1], actions[|actions| - 1];
      var before := ApplyAll(w, init);
      if last == Flush {
        PassIsSafe(w, order, replies, init);
        SafeKeepsDurable(before, Flush);
      } else {
        var n := |Strip(init)|;
        assert Strip(actions)[..n] == Strip(init);
        assert Strip(init) == trace[..n] && last == Strip(actions)[n] == trace[n];
        PassIsSafe(w, order, replies, init);
        PassShape(w.disk, order, replies, n);
        SafeKeepsDurable(before, last);
      }
    }
  }

  // ---- One execution followed by any number of reconciliations ----

  /** A restart and the pass after it, as far as it got. */
  datatype Pass = Pass(order: seq<TaskId>, replies: seq<PassReply>, actions: seq<Action>)

  /** The pass as far as it got. */
  ghost predicate PossiblePass(w: World, p: Pass) {
    && Visits(w.disk, p.order) && |p.replies| == |p.order| && HonestPass(p.replies)
    && Strip(p.actions) <= ReconcileTrace(w.disk, p.order, p.replies)
  }

  ghost function AfterPass(w: World, p: Pass): World { ApplyAll(Apply(w, Restart), p.actions) }

  ghost predicate Possible(w: World, passes: seq<Pass>)
    decreases |passes|
  {
    passes == [] || (PossiblePass(w, passes[0]) && Possible(AfterPass(w, passes[0]), passes[1..]))
  }

  ghost function AfterPasses(w: World, passes: seq<Pass>): World
    decreases |passes|
  {
    if passes == [] then w else AfterPasses(AfterPass(w, passes[0]), passes[1..])
  }

  lemma {:induction false} PassesKeepDurable(w: World, passes: seq<Pass>)
    requires Durable(w) && Possible(w, passes)
    ensures Durable(AfterPasses(w, passes))
    decreases |passes|
  {
    if passes != [] {
      var p, up := passes[0], Apply(w, Restart);
      PassIsSafe(up, p.order, p.replies, p.actions);
      PassesKeepDurable(AfterPass(w, p), passes[1..]);
    }
  }

  /**
   * Cleanup safety: after one execution, failing or crashing anywhere, and any number of restarts and
   * passes, failing or crashing anywhere, every sandbox id that ever reached the table on disk is
   * still there or its delete was acknowledged.
   */
  lemma CleanupSafety(t: TaskId, e: Env, w: World, actions: seq<Action>, passes: seq<Pass>)
    requires Honest(e) && FreshStart(t, e, w) && Strip(actions) <= ExecutionTrace(t, e)
    requires Possible(ApplyAll(w, actions), passes)
    ensures var after := AfterPasses(ApplyAll(w, actions), passes);
            forall x, id :: (x, id) in after.recorded ==>
                              id in after.confirmed || (x in after.disk && after.disk[x] == Some(id))
  {
    ExecutionIsSafe(t, e, w, actions);
    PassesKeepDurable(ApplyAll(w, actions), passes);
  }

  // ---- A pass without faults ----

  ghost predicate Faultless(replies: seq<PassReply>) {
    forall i :: 0 <= i < |replies| ==> replies[i] == PassReply(DeleteReply(true, true), Call(true, true))
  }

  ghost function Ids(snapshot: Mappings, order: seq<TaskId>): set<SandboxId>
    requires forall i :: 0 <= i < |order| ==> order[i] in snapshot
  {
    set i | 0 <= i < |order| && snapshot[order[i]].Some? :: snapshot[order[i]].value
  }

  lemma {:induction false} ApplyAllAppend(w: World, a: seq<Action>, b: seq<Action>)
    ensures ApplyAll(w, a + b) == ApplyAll(ApplyAll(w, a), b)
  {
    if b == [] {
      assert a + b == a;
    } else {
      var b' := b[..|b| - 1];
      ApplyAllAppend(w, a, b');
      assert (a + b)[..|a + b| - 1] == a + b';
    }
  }

  /** The part of a faultless pass from some entry on. */
  lemma {:induction false} FaultlessFrom(w: World, snapshot: Mappings, order: seq<TaskId>, replies: seq<PassReply>)
    requires |replies| == |order| && Faultless(replies) && forall i :: 0 <= i < |order| ==> order[i] in snapshot
    ensures var after := ApplyAll(w, ReconcileTrace(snapshot, order, replies));
            && after.mem == w.mem - (set t | t in order)
            && after.live == w.live - Ids(snapshot, order)
    decreases |order|
  {
    if order == [] {
      assert w.mem - (set t | t in order) == w.mem;
      assert Ids(snapshot, order) == {};
    } else {
      var t := order[0];
      var head, rest := Handle(t, snapshot[t], replies[0]), ReconcileTrace(snapshot, order[1..], replies[1..]);
      ApplyAllAppend(w, head, rest);
      var mid := ApplyAll(w, head);
      HeadEffect(w, t, snapshot[t]);
      FaultlessFrom(mid, snapshot, order[1..], replies[1..]);
      WithoutTasks(w.mem, order);
      IdsCons(snapshot, order);
    }
  }

  lemma WithoutTasks(m: Mappings, order: seq<TaskId>)
    requires order != []
    ensures m - {order[0]} - (set t | t in order[1..]) == m - (set t | t in order)
  {
    assert order == [order[0]] + order[1..];
    assert (set t | t in order) == {order[0]} + (set t | t in order[1..]);
  }

  lemma HeadEffect(w: World, t: TaskId, id: Option<SandboxId>)
    ensures var after := ApplyAll(w, Handle(t, id, PassReply(DeleteReply(true, true), Call(true, true))));
            && after.mem == w.mem - {t}
            && after.live == w.live - (if id.Some? then {id.value} else {})
  {
    if id.Some? {
      var head := [Delete(id.value, true, true)] + [Remove(t, true)];
      assert head[..1] == [Delete(id.value, true, true)] && head[..1][..0] == [];
      assert ApplyAll(w, head[..1]) == Apply(ApplyAll(w, []), Delete(id.value, true, true));
    } else {
      assert [Remove(t, true)][..0] == [];
    }
  }

  lemma IdsCons(snapshot: Mappings, order: seq<TaskId>)
    requires order != [] && forall i :: 0 <= i < |order| ==> order[i] in snapshot
    ensures Ids(snapshot, order) ==
            (if snapshot[order[0]].Some? then {snapshot[order[0]].value} else {}) + Ids(snapshot, order[1..])
  {
    var head := if snapshot[order[0]].Some? then {snapshot[order[0]].value} else {};
    forall x | x in Ids(snapshot, order) ensures x in head + Ids(snapshot, order[1..]) {
      var i :| 0 <= i < |order| && snapshot[order[i]].Some? && x == snapshot[order[i]].value;
      assert i > 0 ==> order[1..][i - 1] == order[i];
    }
    forall x | x in Ids(snapshot, order[1..]) ensures x in Ids(snapshot, order) {
      var i :| 0 <= i < |order[1..]| && snapshot[order[1..][i]].Some? && x == snapshot[order[1..][i]].value;
      assert order[i + 1] == order[1..][i];
    }
  }

  /** Saves by others touch neither memory nor sandboxes. */
  lemma {:induction false} SavesAside(w: World, actions: seq<Action>)
    requires Restart !in actions
    ensures ApplyAll(w, actions).mem == ApplyAll(w, Strip(actions)).mem
    ensures ApplyAll(w, actions).live == ApplyAll(w, Strip(actions)).live
  {
    if actions != [] {
      var init, last := actions[..|actions| - 1], actions[|actions| - 1];
      SavesAside(w, init);
      SameMemory(ApplyAll(w, init), ApplyAll(w, Strip(init)), last);
      if last != Flush {
        ApplyLast(w, Strip(init), last);
      }
    }
  }

  lemma ApplyLast(w: World, actions: seq<Action>, a: Action)
    ensures ApplyAll(w, actions + [a]) == Apply(ApplyAll(w, actions), a)
  {
    assert (actions + [a])[..|actions|] == actions;
  }

  lemma SameMemory(v: World, w: World, a: Action)
    requires v.mem == w.mem && v.live == w.live && a != Restart
    ensures Apply(v, a).mem == Apply(w, a).mem && Apply(v, a).live == Apply(w, a).live
  {
  }

  /** While every change is saved, memory and disk agree. */
  lemma {:induction false} AllSaved(w: World, actions: seq<Action>)
    requires w.mem == w.disk
    requires forall a :: a in actions ==> a == Flush || a.Delete? || (a.Remove? && a.onDisk)
    ensures ApplyAll(w, actions).mem == ApplyAll(w, actions).disk
  {
    if actions != [] {
      AllSaved(w, actions[..|actions| - 1]);
    }
  }

  /** A complete pass without a failing call, with saves by others anywhere. */
  ghost predicate FaultlessPass(w: World, p: Pass) {
    && Visits(w.disk, p.order) && |p.replies| == |p.order| && Faultless(p.replies)
    && Strip(p.actions) == ReconcileTrace(w.disk, p.order, p.replies)
  }

  lemma {:induction false} InStrip(actions: seq<Action>, a: Action)
    requires a in actions && a != Flush
    ensures a in Strip(actions)
  {
    var init := actions[..|actions| - 1];
    if a in init {
      InStrip(init, a);
    }
  }

  lemma PassActions(w: World, p: Pass, a: Action)
    requires FaultlessPass(w, p) && a in p.actions
    ensures a == Flush || a.Delete? || (a.Remove? && a.onDisk)
  {
    if a != Flush {
      InStrip(p.actions, a);
      FaultlessShape(w.disk, p.order, p.replies);
    }
  }

  lemma {:induction false} FaultlessShape(snapshot: Mappings, order: seq<TaskId>, replies: seq<PassReply>)
    requires |replies| == |order| && Faultless(replies) && forall i :: 0 <= i < |order| ==> order[i] in snapshot
    ensures forall a :: a in ReconcileTrace(snapshot, order, replies) ==> a.Delete? || (a.Remove? && a.onDisk)
    decreases |order|
  {
    if order != [] {
      FaultlessShape(snapshot, order[1..], replies[1..]);
    }
  }

  ghost function RecordedIds(m: Mappings): set<SandboxId> { set p | p in Pairs(m) :: p.1 }

  lemma IdsOfVisited(m: Mappings, order: seq<TaskId>)
    requires Visits(m, order)
    ensures Ids(m, order) == RecordedIds(m) && m - (set t | t in order) == map[]
  {
    forall x | x in RecordedIds(m) ensures x in Ids(m, order) {
      var p :| p in Pairs(m) && p.1 == x;
      assert p.0 in order;
    }
    forall x | x in Ids(m, order) ensures x in RecordedIds(m) {
      var i :| 0 <= i < |order| && m[order[i]].Some? && x == m[order[i]].value;
      assert (order[i], x) in Pairs(m);
    }
  }

  /** A pass in which no call fails empties the table and stops exactly the recorded sandboxes. */
  lemma FaultlessPassEmptiesTable(w: World, p: Pass)
    requires FaultlessPass(w, p)
    ensures var after := AfterPass(w, p);
            && after.disk == map[] && after.mem == map[]
            && after.live == w.live - RecordedIds(w.disk)
  {
    var up := Apply(w, Restart);
    forall a | a in p.actions ensures a == Flush || a.Delete? || (a.Remove? && a.onDisk) {
      PassActions(w, p, a);
    }
    SavesAside(up, p.actions);
    AllSaved(up, p.actions);
    FaultlessFrom(up, w.disk, p.order, p.replies);
    IdsOfVisited(w.disk, p.order);
  }

  // ---- A pass with a failing delete ----

  ghost predicate LeavesAlone(actions: seq<Action>, t: TaskId) {
    forall k :: 0 <= k < |actions| ==>
                  actions[k].Delete? || actions[k] == Flush || (actions[k].Remove? && actions[k].task != t)
  }

  lemma {:induction false} HandlesOnlyVisited(
    snapshot: Mappings, order: seq<TaskId>, replies: seq<PassReply>, t: TaskId)
    requires |replies| == |order| && forall k :: 0 <= k < |order| ==> order[k] in snapshot
    requires forall k :: 0 <= k < |order| && order[k] == t ==> snapshot[t].Some? && !replies[k].delete.confirmed
    ensures LeavesAlone(ReconcileTrace(snapshot, order, replies), t)
    decreases |order|
  {
    if order != [] {
      HandlesOnlyVisited(snapshot, order[1..], replies[1..], t);
    }
  }

  lemma {:induction false} StrippedLeavesAlone(actions: seq<Action>, trace: seq<Action>, t: TaskId)
    requires Strip(actions) <= trace && LeavesAlone(trace, t)
    ensures LeavesAlone(actions, t)
  {
    if actions != [] {
      var init, last := actions[..|actions| - 1], actions[|actions| - 1];
      if last != Flush {
        var n := |Strip(init)|;
        assert Strip(actions)[..n] == Strip(init) && last == Strip(actions)[n] == trace[n];
      }
      StrippedLeavesAlone(init, trace, t);
      assert forall k :: 0 <= k < |init| ==> actions[k] == init[k];
    }
  }

  lemma {:induction false} LeftAlone(w: World, actions: seq<Action>, t: TaskId)
    requires LeavesAlone(actions, t) && t in w.mem && t in w.disk && w.mem[t] == w.disk[t]
    ensures var after := ApplyAll(w, actions);
            t in after.mem && t in after.disk && after.mem[t] == after.disk[t] == w.disk[t]
  {
    if actions != [] {
      LeftAlone(w, actions[..|actions| - 1], t);
    }
  }

  /**
   * A failing delete leaves its mapping as it was, in memory and on disk, whatever the rest of the pass
   * does, wherever it is cut off and whoever saves meanwhile.
   */
  lemma FailedDeleteKeepsMapping(w: World, p: Pass, i: nat)
    requires Visits(w.disk, p.order) && |p.replies| == |p.order| && i < |p.order|
    requires Strip(p.actions) <= ReconcileTrace(w.disk, p.order, p.replies)
    requires w.disk[p.order[i]].Some? && !p.replies[i].delete.confirmed
    ensures var t, after := p.order[i], AfterPass(w, p);
            t in after.mem && t in after.disk && after.mem[t] == after.disk[t] == w.disk[t]
  {
    var t := p.order[i];
    assert forall k :: 0 <= k < |p.order| && p.order[k] == t ==> k == i;
    HandlesOnlyVisited(w.disk, p.order, p.replies, t);
    StrippedLeavesAlone(p.actions, ReconcileTrace(w.disk, p.order, p.replies), t);
    LeftAlone(Apply(w, Restart), p.actions, t);
  }
}
