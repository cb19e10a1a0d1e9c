/**
 * Durable effects of one task execution: the mapping table of the Node state store and the sandboxes
 * behind it (`persist_task_mapping`, `remove_task_mapping`, `delete_sandbox`).
 *
 * A run is a sequence of actions. A crash is a run that ends early. The store changes its memory
 * first and then saves the whole table, so a failed save may reach the disk with any later one.
 */
module TaskRuntime {
  import opened Collections

  type TaskId = string
  type SandboxId = string
  type Mappings = map<TaskId, Option<SandboxId>>

  datatype Action =
    | Upsert(task: TaskId, sandbox: Option<SandboxId>, onDisk: bool)
    | Remove(task: TaskId, onDisk: bool)
    | Flush                                                        // another save of the same store
    | Create(born: Option<SandboxId>)                              // what came to life, if anything
    | Delete(target: SandboxId, gone: bool, confirmed: bool)
    | Restart                                                      // memory is read back from disk

  datatype World = World(
    mem: Mappings,
    disk: Mappings,
    live: set<SandboxId>,
    confirmed: set<SandboxId>,                // deletes that were acknowledged
    recorded: set<(TaskId, SandboxId)>)       // every id that ever stood in the table on disk

  ghost function Pairs(m: Mappings): set<(TaskId, SandboxId)> {
    set t | t in m && m[t].Some? :: (t, m[t].value)
  }

  ghost function Save(w: World, onDisk: bool): World {
    if onDisk then w.(disk := w.mem, recorded := w.recorded + Pairs(w.mem)) else w
  }

  ghost function Apply(w: World, a: Action): World {
    match a
    case Upsert(t, s, onDisk) => Save(w.(mem := w.mem[t := s]), onDisk)
    case Remove(t, onDisk) => Save(w.(mem := w.mem - {t}), onDisk)
    case Flush => Save(w, true)
    case Create(born) => if born.Some? then w.(live := w.live + {born.value}) else w
    case Delete(id, gone, confirmed) =>
      w.(live := if gone then w.live - {id} else w.live,
         confirmed := if confirmed then w.confirmed + {id} else w.confirmed)
    case Restart => w.(mem := w.disk)
  }

  ghost function ApplyAll(w: World, actions: seq<Action>): World {
    if actions == [] then w
    else Apply(ApplyAll(w, actions[..|actions| - 1]), actions[|actions| - 1])
  }

  /** The actions without the saves made by other parts of the Node. */
  function Strip(actions: seq<Action>): seq<Action> {
    if actions == [] then []
    else
      var init, last := actions[..|actions| - 1], actions[|actions| - 1];
      if last == Flush then Strip(init) else Strip(init) + [last]
  }

  // ---- The safety property ----

  /** An id that ever was on disk is still recorded, in memory and on disk, unless its delete succeeded. */
  ghost predicate Durable(w: World) {
    forall t, id :: (t, id) in w.recorded ==>
                      id in w.confirmed || (t in w.disk && w.disk[t] == Some(id) && t in w.mem && w.mem[t] == Some(id))
  }

  /** A recorded id is overwritten or removed only after its delete succeeded. */
  ghost predicate Safe(w: World, a: Action) {
    match a
    case Upsert(t, s, _) => forall id :: (t, id) in w.recorded ==> id in w.confirmed || s == Some(id)
    case Remove(t, _) => forall id :: (t, id) in w.recorded ==> id in w.confirmed
    case _ => true
  }

  lemma SafeKeepsDurable(w: World, a: Action)
    requires Durable(w) && Safe(w, a)
    ensures Durable(Apply(w, a))
  {
  }

  // ---- The actions of one execution ----

  /** A store call: did it reach the disk, and was the caller told so. */
  datatype Call = Call(onDisk: bool, acked: bool)

  datatype CreateReply = Created(id: SandboxId) | CreateFailed(orphan: Option<SandboxId>, code: string)

  datatype DeleteReply = DeleteReply(gone: bool, confirmed: bool)

  /** What the environment answers. */
  datatype Env = Env(
    hasStore: bool,
    prepared: bool,
    first: Call,
    cancelledEarly: bool,
    create: CreateReply,
    second: Call,
    delete: DeleteReply,
    remove: Call)

  /** A success that is reported has happened. */
  ghost predicate Honest(e: Env) {
    && (e.first.acked ==> e.first.onDisk) && (e.second.acked ==> e.second.onDisk)
    && (e.remove.acked ==> e.remove.onDisk) && (e.delete.confirmed ==> e.delete.gone)
  }

  /** Without a state store every mapping call succeeds and does nothing. */
  predicate Acked(e: Env, call: Call) { !e.hasStore || call.acked }

  function Stored(e: Env, a: Action): seq<Action> { if e.hasStore then [a] else [] }

  /** The external calls of `execute_task`, in order. */
  function ExecutionTrace(t: TaskId, e: Env): seq<Action> {
    if !e.prepared then []
    else
      var mapped := Stored(e, Upsert(t, None, e.first.onDisk));
      var removed := Stored(e, Remove(t, e.remove.onDisk));
      if !Acked(e, e.first) then mapped
      else if e.cancelledEarly then mapped + removed
      else match e.create
           case CreateFailed(orphan, _) => mapped + [Create(orphan)] + removed
           case Created(id) =>
             var deleted := mapped + [Create(Some(id))] + Stored(e, Upsert(t, Some(id), e.second.onDisk))
                            + [Delete(id, e.delete.gone, e.delete.confirmed)];
             if e.delete.confirmed then deleted + removed else deleted
  }

  /** The task has no recorded sandbox, and the sandbox to come is new. */
  ghost predicate FreshStart(t: TaskId, e: Env, w: World) {
    && Durable(w)
    && (t in w.mem ==> w.mem[t].None?)
    && (forall id :: (t, id) !in w.recorded)
    && (e.create.Created? ==> e.create.id !in w.live && e.create.id !in w.confirmed)
  }

  /** What is known after the protocol actions `done`, with any saves in between. */
  ghost predicate During(t: TaskId, e: Env, done: seq<Action>, w: World) {
    && Durable(w)
    && (forall id :: (t, id) in w.recorded ==> NamedBy(t, e, done, id))
    && (forall id :: t in w.mem && w.mem[t] == Some(id) ==> NamedBy(t, e, done, id))
    && (e.create.Created? && Deletes(done, e.create.id, true) ==> e.create.id in w.confirmed && e.create.id !in w.live)
    && (Remove(t, true) in done ==> t !in w.mem && t !in w.disk)
    && (e.create.Created? && Upsert(t, Some(e.create.id), true) in done ==> (t, e.create.id) in w.recorded)
  }

  /** The id is the one that was created, and the second mapping write has happened. */
  ghost predicate NamedBy(t: TaskId, e: Env, done: seq<Action>, id: SandboxId) {
    e.create == Created(id) && (Upsert(t, Some(id), true) in done || Upsert(t, Some(id), false) in done)
  }

  ghost predicate Deletes(done: seq<Action>, id: SandboxId, confirmed: bool) {
    Delete(id, true, confirmed) in done
  }

  /** How an action of the protocol relates to those before it. */
  ghost predicate Follows(t: TaskId, e: Env, done: seq<Action>, a: Action) {
    && !a.Flush? && !a.Restart?
    && (a.Create? && a.born.Some? ==> forall i :: 0 <= i < |done| ==> !done[i].Delete?)
    && (a.Upsert? ==> a.task == t && (a.sandbox.None? ==> done == []))
    && (a.Upsert? && a.sandbox.Some? ==> e.create == Created(a.sandbox.value))
    && (a.Upsert? ==> forall i :: 0 <= i < |done| ==> !done[i].Remove?)
    && (a.Remove? ==> a.task == t && forall id :: NamedBy(t, e, done, id) ==> Deletes(done, id, true))
    && (a.Delete? ==> e.create == Created(a.target) && (a.confirmed ==> a.gone))
  }

  lemma TraceShape(t: TaskId, e: Env, n: nat)
    requires Honest(e) && n < |ExecutionTrace(t, e)|
    ensures Follows(t, e, ExecutionTrace(t, e)[..n], ExecutionTrace(t, e)[n])
  {
    var trace := ExecutionTrace(t, e);
    if trace[n].Remove? {
      RemoveShape(t, e, n);
    }
  }

  /** A removal comes last, and after the confirmed delete of the sandbox if its id was written. */
  lemma RemoveShape(t: TaskId, e: Env, n: nat)
    requires Honest(e) && n < |ExecutionTrace(t, e)| && ExecutionTrace(t, e)[n].Remove?
    ensures ExecutionTrace(t, e)[n].task == t
    ensures forall id :: NamedBy(t, e, ExecutionTrace(t, e)[..n], id) ==> Deletes(ExecutionTrace(t, e)[..n], id, true)
  {
    var trace := ExecutionTrace(t, e);
    var done := trace[..n];
    if e.cancelledEarly || e.create.CreateFailed? {
      assert forall i :: 0 <= i < n ==> done[i] == Upsert(t, None, e.first.onDisk) || done[i].Create?;
    } else {
      assert done[n - 1] == trace[n - 1] == Delete(e.create.id, true, true);
    }
  }

  lemma During0(t: TaskId, e: Env, w: World)
    requires FreshStart(t, e, w)
    ensures During(t, e, [], w)
  {
  }

  /** A save by another part of the Node changes nothing that matters. */
  lemma FlushKeepsDuring(t: TaskId, e: Env, done: seq<Action>, w: World)
    requires During(t, e, done, w)
    ensures During(t, e, done, Apply(w, Flush))
  {
    SafeKeepsDurable(w, Flush);
  }

  /** The next action of the protocol is safe. */
  lemma NextIsSafe(t: TaskId, e: Env, done: seq<Action>, a: Action, w: World)
    requires During(t, e, done, w) && Follows(t, e, done, a)
    ensures Safe(w, a) && Durable(Apply(w, a))
  {
    SafeKeepsDurable(w, a);
  }

  /** And it keeps what is known. */
  lemma NextKeepsDuring(t: TaskId, e: Env, done: seq<Action>, a: Action, w: World)
    requires During(t, e, done, w) && Follows(t, e, done, a)
    ensures During(t, e, done + [a], Apply(w, a))
  {
    var more, v := done + [a], Apply(w, a);
    NextIsSafe(t, e, done, a, w);
    assert forall x :: x in more <==> x in done || x == a;
    forall id | (t, id) in v.recorded || (t in v.mem && v.mem[t] == Some(id)) ensures NamedBy(t, e, more, id) {
      if !NamedBy(t, e, done, id) {
        assert a == Upsert(t, Some(id), a.onDisk);
      }
    }
  }

  /** Every run of the protocol, cut off anywhere, with saves anywhere, keeps the property. */
  lemma {:induction false} ExecutionIsSafe(t: TaskId, e: Env, w: World, actions: seq<Action>)
    requires Honest(e) && FreshStart(t, e, w) && Strip(actions) <= ExecutionTrace(t, e)
    ensures During(t, e, Strip(actions), ApplyAll(w, actions))
  {
    var trace := ExecutionTrace(t, e);
    if actions == [] {
      During0(t, e, w);
    } else {
      var init, last := actions[..|actions| - 1], actions[|actions| - 1];
      if last == Flush {
        ExecutionIsSafe(t, e, w, init);
        FlushKeepsDuring(t, e, Strip(init), ApplyAll(w, init));
      } else {
        var n := |Strip(init)|;
        assert Strip(actions)[..n] == Strip(init);
        assert Strip(init) == trace[..n] && last == Strip(actions)[n] == trace[n];
        ExecutionIsSafe(t, e, w, init);
        TraceShape(t, e, n);
        NextKeepsDuring(t, e, Strip(init), last, ApplyAll(w, init));
      }
    }
  }

  // ---- What the cleanup state means ----

  /** The cleanup state reported by an execution that got as far as a result. */
  predicate CleanupCompleted(e: Env) {
    Acked(e, e.remove) && (e.cancelledEarly || e.create.CreateFailed? || e.delete.confirmed)
  }

  predicate ReachesResult(e: Env) { e.prepared && Acked(e, e.first) }

  /** `Completed`: the mapping is gone from memory and disk, and the sandbox, if any, is deleted. */
  lemma CompletedMeansClean(t: TaskId, e: Env, w: World, actions: seq<Action>)
    requires Honest(e) && FreshStart(t, e, w) && Strip(actions) == ExecutionTrace(t, e)
    requires ReachesResult(e) && CleanupCompleted(e)
    ensures var after := ApplyAll(w, actions);
            && (e.hasStore ==> t !in after.mem && t !in after.disk)
            && (!e.cancelledEarly && e.create.Created? ==> e.create.id in after.confirmed && e.create.id !in after.live)
  {
    ExecutionIsSafe(t, e, w, actions);
    var trace := ExecutionTrace(t, e);
    if e.hasStore {
      assert trace[|trace| - 1] == Remove(t, true);
    }
    if !e.cancelledEarly && e.create.Created? {
      var k := if e.hasStore then |trace| - 2 else |trace| - 1;
      assert trace[k] == Delete(e.create.id, true, true);
    }
  }

  /**
   * The crash window: from the moment the second mapping write is on disk, a sandbox that may still be
   * running is recorded on disk, at every point where the Node can crash.
   */
  lemma RecordedAfterSecondWrite(t: TaskId, e: Env, w: World, actions: seq<Action>)
    requires Honest(e) && FreshStart(t, e, w) && Strip(actions) <= ExecutionTrace(t, e)
    requires e.create.Created? && Upsert(t, Some(e.create.id), true) in Strip(actions)
    ensures var crashed := ApplyAll(w, actions);
            e.create.id in crashed.confirmed || (t in crashed.disk && crashed.disk[t] == Some(e.create.id))
  {
    ExecutionIsSafe(t, e, w, actions);
  }

  /** The sandbox the create request brought to life, whether or not the Node learned its id. */
  function Born(e: Env): Option<SandboxId> {
    match e.create
    case Created(id) => Some(id)
    case CreateFailed(orphan, _) => orphan
  }

  /** One call of a run: the k-th. */
  ghost predicate CallAt(calls: seq<Action>, k: int, a: Action) { 0 <= k < |calls| && calls[k] == a }

  /**
   * Which calls a complete execution makes and in which order, from the answers alone. A sandbox is asked
   * for exactly when the first write was acknowledged and nobody cancelled, and the task is on record by
   * then; the id of a sandbox that was obtained is written in the very next call; its delete comes after
   * that; its mapping goes only after a confirmed delete; and there are no other calls.
   */
  ghost predicate CallsInOrder(calls: seq<Action>, t: TaskId, e: Env) {
    var store := if e.hasStore then 1 else 0;
    var creates := e.prepared && (e.hasStore ==> e.first.acked) && !e.cancelledEarly;
    var obtains := creates && e.create.Created?;
    var removes := e.prepared && (e.hasStore ==> e.first.acked) && (obtains ==> e.delete.confirmed);
    && (e.hasStore && e.prepared ==> CallAt(calls, 0, Upsert(t, None, e.first.onDisk)))
    && (creates ==> CallAt(calls, store, Create(Born(e))))
    && (obtains ==>
          && (e.hasStore ==> CallAt(calls, store + 1, Upsert(t, Some(e.create.id), e.second.onDisk)))
          && CallAt(calls, 2 * store + 1, Delete(e.create.id, e.delete.gone, e.delete.confirmed)))
    && (removes && e.hasStore ==> calls != [] && CallAt(calls, |calls| - 1, Remove(t, e.remove.onDisk)))
    && |calls| == (if e.prepared then store else 0) + (if creates then 1 else 0) +
                  (if obtains then store + 1 else 0) + (if removes then store else 0)
  }

  lemma CallOrder(t: TaskId, e: Env)
    ensures CallsInOrder(ExecutionTrace(t, e), t, e)
  {
  }

  /**
   * From the return of the third call on, which with a store is the second write, the table on disk names
   * the sandbox, if that write reached the disk, until its delete is confirmed.
   */
  lemma RecordedFromThirdCall(t: TaskId, e: Env, w: World, actions: seq<Action>)
    requires Honest(e) && FreshStart(t, e, w) && Strip(actions) <= ExecutionTrace(t, e)
    requires e.hasStore && ReachesResult(e) && !e.cancelledEarly && e.create.Created? && e.second.onDisk
    requires |Strip(actions)| >= 3
    ensures var crashed := ApplyAll(w, actions);
            e.create.id in crashed.confirmed || (t in crashed.disk && crashed.disk[t] == Some(e.create.id))
  {
    CallOrder(t, e);
    assert Strip(actions)[2] == ExecutionTrace(t, e)[2] == Upsert(t, Some(e.create.id), true);
    RecordedAfterSecondWrite(t, e, w, actions);
  }

  /** A confirmed delete of the new sandbox means it is not running. */
  lemma {:induction false} ConfirmedIsDead(t: TaskId, e: Env, w: World, actions: seq<Action>)
    requires Honest(e) && FreshStart(t, e, w) && Strip(actions) <= ExecutionTrace(t, e) && e.create.Created?
    ensures var s := ApplyAll(w, actions); e.create.id in s.confirmed ==> e.create.id !in s.live
  {
    if actions != [] {
      var init, last := actions[..|actions| - 1], actions[|actions| - 1];
      if last == Flush {
        ConfirmedIsDead(t, e, w, init);
      } else {
        var n := |Strip(init)|;
        assert Strip(actions)[..n] == Strip(init) && last == Strip(actions)[n] == ExecutionTrace(t, e)[n];
        ConfirmedIsDead(t, e, w, init);
        ConfirmedByDelete(t, e, w, init);
        NotCreatedAgain(t, e, n);
        StaysDead(ApplyAll(w, init), Strip(init), last, e.create.id);
      }
    }
  }

  lemma StaysDead(w: World, done: seq<Action>, a: Action, id: SandboxId)
    requires id in w.confirmed ==> id !in w.live && exists i :: 0 <= i < |done| && done[i].Delete?
    requires a.Create? && a.born.Some? ==> forall i :: 0 <= i < |done| ==> !done[i].Delete?
    requires (a.Delete? && a.confirmed ==> a.gone) && a != Restart
    ensures id in Apply(w, a).confirmed ==> id !in Apply(w, a).live
  {
  }

  /** Nothing is created after a delete, and a confirmed delete has happened. */
  lemma NotCreatedAgain(t: TaskId, e: Env, n: nat)
    requires Honest(e) && n < |ExecutionTrace(t, e)|
    ensures var done, a := ExecutionTrace(t, e)[..n], ExecutionTrace(t, e)[n];
            && (a.Create? && a.born.Some? ==> forall i :: 0 <= i < |done| ==> !done[i].Delete?)
            && (a.Delete? && a.confirmed ==> a.gone)
            && a != Restart
  {
    TraceShape(t, e, n);
  }

  /** The delete is confirmed only by a delete action. */
  lemma {:induction false} ConfirmedByDelete(t: TaskId, e: Env, w: World, actions: seq<Action>)
    requires Honest(e) && FreshStart(t, e, w) && Strip(actions) <= ExecutionTrace(t, e) && e.create.Created?
    ensures e.create.id in ApplyAll(w, actions).confirmed ==>
              exists i :: 0 <= i < |Strip(actions)| && Strip(actions)[i].Delete?
  {
    if actions != [] {
      var init, last := actions[..|actions| - 1], actions[|actions| - 1];
      assert last != Flush ==> Strip(actions)[..|Strip(init)|] == Strip(init);
      ConfirmedByDelete(t, e, w, init);
      if last.Delete? {
        assert Strip(actions)[|Strip(init)|].Delete?;
      } else if e.create.id in ApplyAll(w, init).confirmed {
        var i :| 0 <= i < |Strip(init)| && Strip(init)[i].Delete?;
        assert Strip(actions)[i].Delete?;
      }
    }
  }
}
