/**
 * The event publication outbox of Core (`enqueue_event_publication_on_connection`,
 * `drain_event_publication_outbox`). A drain runs under a lock and walks a snapshot of the pending
 * rows; broadcasting and marking are two separate steps, and it can stop between them.
 */
module EventOutbox {
  import opened Collections

  type EventId = string

  datatype Row = Row(published: bool, attempts: nat)

  /** A drain holding the lock: the rest of its snapshot, and the event sent but not yet marked. */
  datatype Drain = Drain(todo: seq<EventId>, unmarked: Option<EventId>)

  /** The table, the drain in progress, and three histories: broadcasts that succeeded or failed, and lost marks. */
  datatype State = State(
    rows: map<EventId, Row>,
    drain: Option<Drain>,
    sent: multiset<EventId>,
    rejected: multiset<EventId>,
    lostMarks: multiset<EventId>)

  datatype Step =
    | Enqueue(event: EventId)
    | Begin(snapshot: seq<EventId>)
    | SendRejected      // no subscriber: the attempt is counted and the drain goes on
    | SendDelivered
    | MarkPublished
    | Stop              // database error, crash, or the end of the snapshot

  const EMPTY := State(map[], None, multiset{}, multiset{}, multiset{})

  predicate Pending(s: State, e: EventId) {
    e in s.rows && !s.rows[e].published
  }

  /** Exactly the pending events, each once. */
  ghost predicate IsSnapshot(s: State, snapshot: seq<EventId>) {
    && (forall e :: e in snapshot <==> Pending(s, e))
    && (forall i, j :: 0 <= i < j < |snapshot| ==> snapshot[i] != snapshot[j])
  }

  ghost predicate Enabled(s: State, step: Step) {
    match step
    case Enqueue(_) => true
    case Begin(snapshot) => s.drain.None? && IsSnapshot(s, snapshot)
    case SendRejected => s.drain.Some? && s.drain.value.unmarked.None? && s.drain.value.todo != []
    case SendDelivered => s.drain.Some? && s.drain.value.unmarked.None? && s.drain.value.todo != []
    case MarkPublished => s.drain.Some? && s.drain.value.unmarked.Some?
    case Stop => s.drain.Some?
  }

  function UpdateRow(s: State, e: EventId, row: Row): State {
    s.(rows := s.rows[e := row])
  }

  function Apply(s: State, step: Step): State
    requires Enabled(s, step)
  {
    match step
    case Enqueue(e) => if e in s.rows then s else UpdateRow(s, e, Row(false, 0))
    case Begin(snapshot) => s.(drain := Some(Drain(snapshot, None)))
    case SendRejected =>
      var e, rest := s.drain.value.todo[0], s.drain.value.todo[1..];
      var counted := if e in s.rows then UpdateRow(s, e, s.rows[e].(attempts := s.rows[e].attempts + 1)) else s;
      counted.(drain := Some(Drain(rest, None)), rejected := s.rejected + multiset{e})
    case SendDelivered =>
      var e := s.drain.value.todo[0];
      s.(sent := s.sent + multiset{e}, drain := Some(Drain(s.drain.value.todo, Some(e))))
    case MarkPublished =>
      var e, rest := s.drain.value.unmarked.value, s.drain.value.todo;
      var marked := if Pending(s, e) then UpdateRow(s, e, s.rows[e].(published := true)) else s;
      marked.(drain := Some(Drain(if rest == [] then [] else rest[1..], None)))
    case Stop =>
      var unmarked := s.drain.value.unmarked;
      s.(drain := None,
         lostMarks := if unmarked.Some? then s.lostMarks + multiset{unmarked.value} else s.lostMarks)
  }

  /** A series of steps, each possible when it happens. */
  ghost predicate CanRun(s: State, steps: seq<Step>)
    decreases |steps|
  {
    steps == [] || (Enabled(s, steps[0]) && CanRun(Apply(s, steps[0]), steps[1..]))
  }

  function Run(s: State, steps: seq<Step>): State
    requires CanRun(s, steps)
    decreases |steps|
  {
    if steps == [] then s else Run(Apply(s, steps[0]), steps[1..])
  }

  // ---- Exact accounting ----

  function InFlight(s: State): multiset<EventId> {
    if s.drain.Some? && s.drain.value.unmarked.Some? then multiset{s.drain.value.unmarked.value} else multiset{}
  }

  predicate Published(s: State, e: EventId) {
    e in s.rows && s.rows[e].published
  }

  /** Every successful broadcast is accounted for: a mark, a lost mark, or the one in flight. */
  ghost predicate Accounted(s: State) {
    forall e :: s.sent[e] == (if Published(s, e) then 1 else 0) + s.lostMarks[e] + InFlight(s)[e]
  }

  /** The drain works on distinct events that are still pending. */
  ghost predicate DrainSound(s: State) {
    s.drain.Some? ==>
      var d := s.drain.value;
      && (forall i :: 0 <= i < |d.todo| ==> Pending(s, d.todo[i]))
      && (forall i, j :: 0 <= i < j < |d.todo| ==> d.todo[i] != d.todo[j])
      && (d.unmarked.Some? ==> d.todo != [] && d.todo[0] == d.unmarked.value)
  }

  /** The attempts of a row are the broadcasts of its event that failed. */
  ghost predicate AttemptsCounted(s: State) {
    forall e :: s.rejected[e] == if e in s.rows then s.rows[e].attempts else 0
  }

  ghost predicate Inv(s: State) { Accounted(s) && DrainSound(s) && AttemptsCounted(s) }

  /** Only a mark changes what is published, and it publishes one pending event. */
  lemma PublishedStep(s: State, step: Step)
    requires DrainSound(s) && Enabled(s, step)
    ensures forall e :: Published(Apply(s, step), e) <==>
                          Published(s, e) || (step.MarkPublished? && s.drain.value.unmarked == Some(e))
    ensures step.MarkPublished? ==> Pending(s, s.drain.value.unmarked.value)
  {
    if step.MarkPublished? {
      assert Pending(s, s.drain.value.todo[0]);
    }
  }

  lemma StepKeepsAccounts(s: State, step: Step)
    requires Inv(s) && Enabled(s, step)
    ensures Accounted(Apply(s, step))
  {
    PublishedStep(s, step);
  }

  lemma StepKeepsAttempts(s: State, step: Step)
    requires AttemptsCounted(s) && DrainSound(s) && Enabled(s, step)
    ensures AttemptsCounted(Apply(s, step))
  {
    if step.SendRejected? {
      assert Pending(s, s.drain.value.todo[0]);
    }
  }

  lemma StepKeepsDrain(s: State, step: Step)
    requires DrainSound(s) && Enabled(s, step)
    ensures DrainSound(Apply(s, step))
  {
    var t := Apply(s, step);
    if t.drain.Some? {
      var todo := t.drain.value.todo;
      forall i | 0 <= i < |todo| ensures Pending(t, todo[i]) {
        match step
        case Begin(snapshot) => assert snapshot[i] in snapshot;
        case SendRejected => assert todo[i] == s.drain.value.todo[i + 1];
        case MarkPublished => assert todo[i] == s.drain.value.todo[i + 1];
        case Enqueue(_) => assert Pending(s, s.drain.value.todo[i]);
        case SendDelivered => assert Pending(s, s.drain.value.todo[i]);
        case Stop =>
      }
    }
  }

  lemma StepKeepsInv(s: State, step: Step)
    requires Inv(s) && Enabled(s, step)
    ensures Inv(Apply(s, step))
    ensures forall e :: Published(s, e) ==> Published(Apply(s, step), e)
  {
    StepKeepsAccounts(s, step);
    StepKeepsAttempts(s, step);
    StepKeepsDrain(s, step);
    PublishedStep(s, step);
  }

  lemma {:induction false} RunKeepsInv(s: State, steps: seq<Step>)
    requires Inv(s) && CanRun(s, steps)
    ensures Inv(Run(s, steps))
    ensures forall e :: Published(s, e) ==> Published(Run(s, steps), e)
    decreases |steps|
  {
    if steps != [] {
      StepKeepsInv(s, steps[0]);
      RunKeepsInv(Apply(s, steps[0]), steps[1..]);
    }
  }

  /**
   * Over every run: an event is marked only after a successful broadcast, and it is broadcast at most
   * once more than the number of marks lost for it.
   */
  lemma DeliveryCounts(steps: seq<Step>, e: EventId)
    requires CanRun(EMPTY, steps)
    ensures var s := Run(EMPTY, steps);
            && (Published(s, e) ==> s.sent[e] >= 1)
            && s.sent[e] <= 1 + s.lostMarks[e]
            && (s.drain.None? ==> s.sent[e] == (if Published(s, e) then 1 else 0) + s.lostMarks[e])
            && (e in s.rows ==> s.rows[e].attempts == s.rejected[e])
  {
    RunKeepsInv(EMPTY, steps);
    var s := Run(EMPTY, steps);
    assert s.sent[e] == (if Published(s, e) then 1 else 0) + s.lostMarks[e] + InFlight(s)[e];
    if InFlight(s)[e] > 0 {
      assert Pending(s, s.drain.value.todo[0]);
    }
  }

  /** An event is in the table, pending or published, exactly when it was enqueued; nothing is lost or made up. */
  lemma {:induction false} NothingIsLost(s: State, steps: seq<Step>, e: EventId)
    requires Inv(s) && CanRun(s, steps)
    ensures var t := Run(s, steps);
            e in t.rows <==> e in s.rows || Enqueue(e) in steps
    decreases |steps|
  {
    if steps != [] {
      assert steps == [steps[0]] + steps[1..];
      StepKeepsInv(s, steps[0]);
      RowsStep(s, steps[0], e);
      NothingIsLost(Apply(s, steps[0]), steps[1..], e);
    }
  }

  /** A new event is pending with no attempts; a known one stays as it is; no other step adds or removes rows. */
  lemma RowsStep(s: State, step: Step, e: EventId)
    requires Inv(s) && Enabled(s, step)
    ensures var t := Apply(s, step);
            && (e in t.rows <==> e in s.rows || step == Enqueue(e))
            && (step == Enqueue(e) ==> if e in s.rows then t == s else t.rows == s.rows[e := Row(false, 0)])
  {
    if s.drain.Some? && s.drain.value.todo != [] {
      assert Pending(s, s.drain.value.todo[0]);
    }
  }

  /** Enqueueing a known event again changes nothing, so a published event never comes back. */
  lemma ReenqueueIsIgnored(before: seq<Step>, after: seq<Step>, e: EventId)
    requires CanRun(EMPTY, before) && Published(Run(EMPTY, before), e)
    requires CanRun(Run(EMPTY, before), [Enqueue(e)] + after)
    ensures var s := Run(EMPTY, before);
            && Apply(s, Enqueue(e)) == s
            && Published(Run(s, [Enqueue(e)] + after), e)
  {
    RunKeepsInv(EMPTY, before);
    RunKeepsInv(Run(EMPTY, before), [Enqueue(e)] + after);
  }

  // ---- A drain without faults ----

  ghost predicate Clean(step: Step) { step.Enqueue? || step.SendDelivered? || step.MarkPublished? }

  /** Everything of the snapshot is either still to do or published. */
  ghost predicate Progress(s: State, snapshot: seq<EventId>) {
    s.drain.Some? && forall e :: e in snapshot ==> e in s.drain.value.todo || Published(s, e)
  }

  lemma {:induction false} CleanRunProgresses(s: State, steps: seq<Step>, snapshot: seq<EventId>)
    requires Inv(s) && Progress(s, snapshot) && CanRun(s, steps)
    requires forall i :: 0 <= i < |steps| ==> Clean(steps[i])
    ensures Progress(Run(s, steps), snapshot)
    decreases |steps|
  {
    if steps != [] {
      var t := Apply(s, steps[0]);
      StepKeepsInv(s, steps[0]);
      if steps[0].MarkPublished? {
        var d := s.drain.value;
        assert d.todo == [d.todo[0]] + d.todo[1..];
        assert Published(t, d.todo[0]);
      }
      CleanRunProgresses(t, steps[1..], snapshot);
    }
  }

  /**
   * A drain that always has a subscriber and meets no database error publishes everything that was
   * pending when it took its snapshot, whatever is enqueued meanwhile.
   */
  lemma CleanDrainPublishesAll(s: State, snapshot: seq<EventId>, steps: seq<Step>)
    requires Inv(s) && Enabled(s, Begin(snapshot)) && CanRun(Apply(s, Begin(snapshot)), steps)
    requires forall i :: 0 <= i < |steps| ==> Clean(steps[i])
    requires Run(Apply(s, Begin(snapshot)), steps).drain == Some(Drain([], None))
    ensures forall e :: Pending(s, e) ==> Published(Run(Apply(s, Begin(snapshot)), steps), e)
  {
    var begun := Apply(s, Begin(snapshot));
    StepKeepsInv(s, Begin(snapshot));
    CleanRunProgresses(begun, steps, snapshot);
  }

  lemma {:induction false} RunSnoc(s: State, steps: seq<Step>, step: Step)
    requires CanRun(s, steps) && Enabled(Run(s, steps), step)
    ensures CanRun(s, steps + [step]) && Run(s, steps + [step]) == Apply(Run(s, steps), step)
    decreases |steps|
  {
    if steps == [] {
      assert [] + [step] == [step] && [step][1..] == [];
    } else {
      RunSnoc(Apply(s, steps[0]), steps[1..], step);
      assert (steps + [step])[1..] == steps[1..] + [step];
    }
  }

  // ---- The drain loop itself ----

  /** What the environment does with one event of the snapshot. */
  datatype Reply = NoSubscriber | NoSubscriberThenDbError | DeliveredAndMarked | DeliveredThenDbError

  /** `drain_event_publication_outbox` after its query, alone on the table: it is such a series of steps. */
  method DrainEventPublicationOutbox(start: State, snapshot: seq<EventId>, replies: seq<Reply>)
    returns (s: State, ok: bool, ghost steps: seq<Step>)
    requires Inv(start) && Enabled(start, Begin(snapshot)) && |replies| == |snapshot|
    ensures CanRun(start, steps) && s == Run(start, steps) && s.drain.None?
    ensures ok <==> forall i :: 0 <= i < |replies| ==>
                                  !replies[i].NoSubscriberThenDbError? && !replies[i].DeliveredThenDbError?
    ensures ok ==> forall i :: 0 <= i < |snapshot| ==> (Published(s, snapshot[i]) <==> replies[i].DeliveredAndMarked?)
  {
    steps := [];
    s, steps := Do(start, start, steps, Begin(snapshot));
    ok := true;
    var i := 0;
    while i < |snapshot|
      invariant 0 <= i <= |snapshot|
      invariant CanRun(start, steps) && s == Run(start, steps) && Inv(s)
      invariant s.drain == Some(Drain(snapshot[i..], None))
      invariant forall k :: 0 <= k < i ==> !replies[k].NoSubscriberThenDbError? && !replies[k].DeliveredThenDbError?
      invariant forall k :: 0 <= k < i ==> (Published(s, snapshot[k]) <==> replies[k].DeliveredAndMarked?)
    {
      var went;
      assert snapshot[i..][0] == snapshot[i];
      s, went, steps := PublishOne(start, s, steps, snapshot[i], replies[i]);
      if !went {
        return s, false, steps;
      }
      assert snapshot[i..][1..] == snapshot[i + 1..];
      i := i + 1;
    }
    s, steps := Do(start, s, steps, Stop);
  }

  /** One event of the snapshot: sent, then marked, or the drain ends with a database error. */
  method PublishOne(ghost start: State, s: State, ghost steps: seq<Step>, e: EventId, reply: Reply)
    returns (t: State, went: bool, ghost more: seq<Step>)
    requires CanRun(start, steps) && s == Run(start, steps) && Inv(s)
    requires s.drain.Some? && s.drain.value.unmarked.None? && s.drain.value.todo != [] && s.drain.value.todo[0] == e
    ensures CanRun(start, more) && t == Run(start, more) && Inv(t)
    ensures went <==> !reply.NoSubscriberThenDbError? && !reply.DeliveredThenDbError?
    ensures t.drain == if went then Some(Drain(s.drain.value.todo[1..], None)) else None
    ensures forall x :: Published(t, x) <==> Published(s, x) || (x == e && reply.DeliveredAndMarked?)
    ensures Pending(s, e)
  {
    assert Pending(s, e);
    went := true;
    match reply {
      case NoSubscriber =>
        t, more := Do(start, s, steps, SendRejected);
      case NoSubscriberThenDbError =>
        t, more := Do(start, s, steps, Stop);
        went := false;
      case DeliveredAndMarked =>
        t, more := Do(start, s, steps, SendDelivered);
        t, more := Do(start, t, more, MarkPublished);
      case DeliveredThenDbError =>
        t, more := Do(start, s, steps, SendDelivered);
        t, more := Do(start, t, more, Stop);
        went := false;
    }
  }

  /** One step, recorded. */
  method Do(ghost start: State, s: State, ghost steps: seq<Step>, step: Step)
    returns (t: State, ghost more: seq<Step>)
    requires CanRun(start, steps) && s == Run(start, steps) && Inv(s) && Enabled(s, step)
    ensures t == Apply(s, step) && Inv(t)
    ensures more == steps + [step] && CanRun(start, more) && t == Run(start, more)
  {
    StepKeepsInv(s, step);
    RunSnoc(start, steps, step);
    more := steps + [step];
    t := Apply(s, step);
  }
}
