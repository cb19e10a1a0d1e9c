/**
 * Node enrollment in Core (`create_enrollment`, `claim_enrollment`, `expire_enrollment`, with the
 * routes that approve an enrollment, revoke, rotate and delete a node, and the heartbeat, which
 * verifies and then writes). The database is the state; every statement or transaction is one atomic
 * step; steps of all requests interleave freely. Creates alone are serialised by a lock.
 */
module Enrollment {
  import opened Collections

  type EnrollmentId = string
  type NodeId = string
  type ClaimId = nat
  type BeatId = nat
  type Time = int

  datatype Status = PendingUserApproval | Approved | Registered | Expired | Rejected | Revoked

  datatype Row = Row(
    status: Status, expiresAt: Time, claimedNode: Option<NodeId>, approvedAt: Option<Time>, code: string)

  /** A node row: whether it has a credential, and whether it is marked revoked. */
  datatype Node = Node(credential: bool, revoked: bool)

  datatype Config = Config(maxPending: int, ttl: int, autoApprove: bool)

  /** `max_pending_enrollments.max(1)`. */
  function Limit(config: Config): nat {
    if config.maxPending <= 1 then 1 else config.maxPending
  }

  /** A create under its lock: after the expiry sweep, and after its count was low enough. */
  datatype Create = Idle | Swept(at: Time) | Counted(at: Time)

  /** A claim that has read its row and not finished. */
  datatype Claim = Claim(enrollment: EnrollmentId, code: string, readAt: Time, row: Row)

  /** A credential handed out. */
  datatype Grant = Grant(enrollment: EnrollmentId, node: NodeId)

  datatype State = State(
    now: Time,
    rows: map<EnrollmentId, Row>,
    nodes: map<NodeId, Node>,               // committed node rows
    usedEnrollments: set<EnrollmentId>,
    usedNodes: set<NodeId>,
    create: Create,
    claims: map<ClaimId, Claim>,
    beats: map<BeatId, NodeId>,             // heartbeats that have verified and not yet written
    grants: seq<Grant>)

  const EMPTY := State(0, map[], map[], {}, {}, Idle, map[], map[], [])

  /** The rows a create may sweep, a user may approve and a claim may take. */
  predicate Open(row: Row) { row.status == PendingUserApproval || row.status == Approved }

  predicate Live(row: Row, at: Time) { Open(row) && row.claimedNode.None? && row.expiresAt > at }

  ghost function LiveIds(rows: map<EnrollmentId, Row>, at: Time): set<EnrollmentId> {
    set e | e in rows && Live(rows[e], at)
  }

  // ---- What a claim decides from the row it read ----

  datatype Decision = MarkExpired | InvalidCode | AlreadyClaimed | Terminal | Waiting | Proceed

  function Decide(config: Config, c: Claim, at: Time): Decision {
    if c.row.expiresAt <= at then MarkExpired
    else if c.row.code != c.code then InvalidCode
    else if c.row.status == Registered then AlreadyClaimed
    else if c.row.status == Expired || c.row.status == Rejected || c.row.status == Revoked then Terminal
    else if c.row.approvedAt.None? && c.row.status != Approved && !config.autoApprove then Waiting
    else Proceed
  }

  // ---- Steps ----

  datatype Step =
    | Tick(to: Time)
    | CreateSweep
    | CreateCount
    | CreateInsert(enrollment: EnrollmentId, code: string, approved: bool)
    | CreateAbandon
    | Approve(enrollment: EnrollmentId)
    | ClaimRead(claim: ClaimId, enrollment: EnrollmentId, code: string)
    | ClaimFinish(claim: ClaimId, at: Time, node: NodeId)
    | ClaimAbandon(claim: ClaimId)
    | DeleteNode(node: NodeId)
    | RevokeNode(node: NodeId)
    | RotateCredential(node: NodeId)
    | BeatVerify(beat: BeatId, node: NodeId)
    | BeatWrite(beat: BeatId)
    | BeatAbandon(beat: BeatId)

  /** What a heartbeat needs to pass its credential check. */
  predicate Verifies(s: State, n: NodeId) { n in s.nodes && s.nodes[n].credential && !s.nodes[n].revoked }

  ghost predicate Enabled(s: State, step: Step) {
    match step
    case Tick(to) => to >= s.now
    case CreateSweep => s.create.Idle?
    case CreateCount => s.create.Swept?
    case CreateInsert(e, _, _) => s.create.Counted? && e !in s.usedEnrollments
    case CreateAbandon => true
    case Approve(e) => true
    case ClaimRead(c, e, _) => c !in s.claims && e in s.rows
    case ClaimFinish(c, at, n) => c in s.claims && s.claims[c].readAt <= at <= s.now && n !in s.usedNodes
    case ClaimAbandon(c) => true
    case DeleteNode(n) => true
    case RevokeNode(n) => true
    case RotateCredential(n) => true
    case BeatVerify(h, n) => h !in s.beats && Verifies(s, n)
    case BeatWrite(h) => h in s.beats
    case BeatAbandon(h) => true
  }

  function Expire(row: Row): Row { if Open(row) then row.(status := Expired) else row }

  /** The expiry update at the start of a create. */
  function Sweep(rows: map<EnrollmentId, Row>, at: Time): map<EnrollmentId, Row> {
    map e | e in rows :: if rows[e].expiresAt <= at then Expire(rows[e]) else rows[e]
  }

  /** The condition of the claiming update, evaluated on the row as it is now. */
  predicate Claimable(rows: map<EnrollmentId, Row>, e: EnrollmentId, at: Time) {
    e in rows && Live(rows[e], at)
  }

  /** The last statements of a claim, as one transaction. */
  function FinishClaim(config: Config, s: State, c: Claim, at: Time, n: NodeId): State {
    var e := c.enrollment;
    match Decide(config, c, at)
    case MarkExpired => if e in s.rows then s.(rows := s.rows[e := Expire(s.rows[e])]) else s
    case Proceed =>
      if Claimable(s.rows, e, at) then
        s.(rows := s.rows[e := s.rows[e].(status := Registered, claimedNode := Some(n))],
           nodes := s.nodes[n := Node(true, false)],
           usedNodes := s.usedNodes + {n},
           grants := s.grants + [Grant(e, n)])
      else s.(usedNodes := s.usedNodes + {n})
    case _ => s
  }

  ghost function Apply(config: Config, s: State, step: Step): State
    requires Enabled(s, step)
  {
    match step
    case Tick(to) => s.(now := to)
    case CreateSweep => s.(rows := Sweep(s.rows, s.now), create := Swept(s.now))
    case CreateCount =>
      if |LiveIds(s.rows, s.create.at)| >= Limit(config) then s.(create := Idle)
      else s.(create := Counted(s.create.at))
    case CreateInsert(e, code, approved) =>
      var row := Row(if approved then Approved else PendingUserApproval, s.create.at + config.ttl, None,
                     if approved then Some(s.create.at) else None, code);
      s.(rows := s.rows[e := row], usedEnrollments := s.usedEnrollments + {e}, create := Idle)
    case CreateAbandon => s.(create := Idle)
    case Approve(e) =>
      if e in s.rows && s.rows[e].status == PendingUserApproval && s.rows[e].approvedAt.None?
         && s.rows[e].expiresAt > s.now
      then s.(rows := s.rows[e := s.rows[e].(status := Approved, approvedAt := Some(s.now))])
      else s
    case ClaimRead(c, e, code) => s.(claims := s.claims[c := Claim(e, code, s.now, s.rows[e])])
    case ClaimFinish(c, at, n) => FinishClaim(config, s, s.claims[c], at, n).(claims := s.claims - {c})
    case ClaimAbandon(c) => s.(claims := s.claims - {c})
    case DeleteNode(n) =>
      s.(rows := map e | e in s.rows && s.rows[e].claimedNode != Some(n) :: s.rows[e], nodes := s.nodes - {n})
    case RevokeNode(n) => if n in s.nodes then s.(nodes := s.nodes[n := Node(false, true)]) else s
    case RotateCredential(n) =>
      if n in s.nodes && !s.nodes[n].revoked then s.(nodes := s.nodes[n := Node(true, false)]) else s
    case BeatVerify(h, n) => s.(beats := s.beats[h := n])
    case BeatWrite(h) => s.(nodes := WriteBeat(s.nodes, s.beats[h]), beats := s.beats - {h})
    case BeatAbandon(h) => s.(beats := s.beats - {h})
  }

  /** The heartbeat's upsert: a row that is not there is inserted, without a credential. */
  function WriteBeat(nodes: map<NodeId, Node>, n: NodeId): map<NodeId, Node> {
    nodes[n := if n in nodes then nodes[n].(revoked := false) else Node(false, false)]
  }

  ghost predicate CanRun(config: Config, s: State, steps: seq<Step>)
    decreases |steps|
  {
    steps == [] || (Enabled(s, steps[0]) && CanRun(config, Apply(config, s, steps[0]), steps[1..]))
  }

  ghost function Run(config: Config, s: State, steps: seq<Step>): State
    requires CanRun(config, s, steps)
    decreases |steps|
  {
    if steps == [] then s else Run(config, Apply(config, s, steps[0]), steps[1..])
  }

  // ---- Invariants ----

  /** The enrollment records the node as its own. */
  predicate Claims(s: State, e: EnrollmentId, n: NodeId) { e in s.rows && s.rows[e].claimedNode == Some(n) }

  ghost predicate Claimed(s: State, n: NodeId) { exists e :: Claims(s, e, n) }

  /** Exactly the registered enrollments record a node; its row is committed, and it is nobody else's. */
  ghost predicate Owned(s: State) {
    && (forall e :: e in s.rows ==> (s.rows[e].status == Registered <==> s.rows[e].claimedNode.Some?))
    && (forall e, n :: Claims(s, e, n) ==> n in s.nodes)
    && (forall e, f, n :: Claims(s, e, n) && Claims(s, f, n) ==> e == f)
  }

  /** Identifiers are never used twice. */
  ghost predicate Fresh(s: State) {
    && s.rows.Keys <= s.usedEnrollments && s.nodes.Keys <= s.usedNodes
    && forall h :: h in s.beats ==> s.beats[h] in s.usedNodes
  }

  /** Each grant names the node its enrollment still records, and no enrollment has two. */
  ghost predicate GrantsUnique(s: State) {
    && (forall i :: 0 <= i < |s.grants| ==>
          && s.grants[i].enrollment in s.usedEnrollments
          && (s.grants[i].enrollment in s.rows ==>
                s.rows[s.grants[i].enrollment].claimedNode == Some(s.grants[i].node)))
    && (forall i, j :: 0 <= i < j < |s.grants| ==> s.grants[i].enrollment != s.grants[j].enrollment)
  }

  /** The limit on live unclaimed enrollments, also for a create between its count and its insert. */
  ghost predicate WithinLimit(config: Config, s: State) {
    && |LiveIds(s.rows, s.now)| <= Limit(config)
    && (!s.create.Idle? ==> s.create.at <= s.now)
    && (s.create.Counted? ==> |LiveIds(s.rows, s.create.at)| < Limit(config))
  }

  ghost predicate Inv(config: Config, s: State) {
    Owned(s) && Fresh(s) && GrantsUnique(s) && WithinLimit(config, s)
  }

  // ---- Heartbeats that a deletion overtook ----

  predicate Concerns(step: Step, h: BeatId) {
    (step.BeatVerify? && step.beat == h) || step == BeatWrite(h) || step == BeatAbandon(h)
  }

  /** Heartbeat h verified node n at step i and has done nothing since. */
  ghost predicate Begun(steps: seq<Step>, h: BeatId, n: NodeId, i: nat) {
    i < |steps| && steps[i] == BeatVerify(h, n) && forall m :: i < m < |steps| ==> !Concerns(steps[m], h)
  }

  /** It has verified node n, has not written yet, and the node was deleted meanwhile. */
  ghost predicate Overtaken(steps: seq<Step>, h: BeatId, n: NodeId) {
    exists i: nat, j :: Begun(steps, h, n, i) && i < j < |steps| && steps[j] == DeleteNode(n)
  }

  ghost predicate PutBackAt(steps: seq<Step>, n: NodeId, k: nat) {
    && k < |steps| && steps[k].BeatWrite? && Overtaken(steps[..k], steps[k].beat, n)
    && forall m :: k < m < |steps| ==> steps[m] != DeleteNode(n)
  }

  /** Such a heartbeat wrote its row after all, and the node was not deleted again. */
  ghost predicate PutBack(steps: seq<Step>, n: NodeId) { exists k: nat :: PutBackAt(steps, n, k) }

  predicate Pends(s: State, h: BeatId, n: NodeId) { h in s.beats && s.beats[h] == n }

  /** What the steps so far say about pending heartbeats and about node rows without an enrollment. */
  ghost predicate History(steps: seq<Step>, s: State) {
    && (forall h, n :: Pends(s, h, n) <==> exists i: nat :: Begun(steps, h, n, i))
    && (forall h, n :: Overtaken(steps, h, n) ==> !Claimed(s, n))
    && (forall h, n :: Pends(s, h, n) && n !in s.nodes ==> Overtaken(steps, h, n))
    && (forall n :: n in s.nodes && !Claimed(s, n) <==> PutBack(steps, n))
  }

  // ---- The results, over every interleaving ----

  /** At most one claim of an enrollment ever returns a credential. */
  lemma AtMostOneCredential(config: Config, steps: seq<Step>)
    requires CanRun(config, EMPTY, steps)
    ensures var s := Run(config, EMPTY, steps);
            forall i, j :: 0 <= i < j < |s.grants| ==> s.grants[i].enrollment != s.grants[j].enrollment
  {
    InitInv(config);
    RunKeepsInv(config, EMPTY, steps);
  }

  /**
   * Exactly the registered enrollments own a node; its row is committed, it is owned by no other, and a
   * node row without an owner is exactly one that a heartbeat put back after its deletion.
   */
  lemma OneNodeEach(config: Config, steps: seq<Step>, e: EnrollmentId, n: NodeId)
    requires CanRun(config, EMPTY, steps)
    ensures var s := Run(config, EMPTY, steps);
            && (e in s.rows ==> (s.rows[e].status == Registered <==> exists m :: Claims(s, e, m)))
            && (Claims(s, e, n) ==> n in s.nodes && forall f :: Claims(s, f, n) <==> f == e)
            && (n in s.nodes && !Claimed(s, n) <==> PutBack(steps, n))
  {
    InitInv(config);
    RunKeepsInv(config, EMPTY, steps);
    HistoryAlways(config, steps);
    var s := Run(config, EMPTY, steps);
    if e in s.rows && s.rows[e].status == Registered {
      assert Claims(s, e, s.rows[e].claimedNode.value);
    }
  }

  /** A node that nobody claims any more is never claimed again. */
  lemma {:induction false} UnclaimedStays(config: Config, s: State, after: seq<Step>, n: NodeId)
    requires Inv(config, s) && CanRun(config, s, after) && n in s.usedNodes && !Claimed(s, n)
    ensures !Claimed(Run(config, s, after), n)
    decreases |after|
  {
    if after != [] {
      StepKeepsInv(config, s, after[0]);
      StepReusesNothing(config, s, after[0]);
      ClaimedStep(config, s, after[0], n);
      UnclaimedStays(config, Apply(config, s, after[0]), after[1..], n);
    }
  }

  lemma {:induction false} StaysRegistered(config: Config, s: State, after: seq<Step>, e: EnrollmentId, n: NodeId)
    requires Inv(config, s) && CanRun(config, s, after) && Claims(s, e, n)
    ensures var t := Run(config, s, after);
            if DeleteNode(n) in after then e !in t.rows && !Claimed(t, n)
            else Claims(t, e, n) && t.rows[e].status == Registered && n in t.nodes
    decreases |after|
  {
    if after != [] {
      var step, rest := after[0], after[1..];
      var t := Apply(config, s, step);
      StepKeepsInv(config, s, step);
      StepReusesNothing(config, s, step);
      ClaimsStep(config, s, step, e, n);
      assert after == [step] + rest;
      if step == DeleteNode(n) {
        ClaimedStep(config, s, step, n);
        RunKeepsInv(config, t, rest);
        UnclaimedStays(config, t, rest, n);
      } else {
        StaysRegistered(config, t, rest, e, n);
      }
    }
  }

  /**
   * Between any two moments of a run, a registered enrollment keeps its status and its
   * `claimed_node_id`. It goes away exactly when its node is deleted, and then the node row is there
   * exactly when a heartbeat put it back.
   */
  lemma RegistrationIsFinal(config: Config, before: seq<Step>, after: seq<Step>, e: EnrollmentId, n: NodeId)
    requires CanRun(config, EMPTY, before) && CanRun(config, Run(config, EMPTY, before), after)
    requires Claims(Run(config, EMPTY, before), e, n)
    ensures var t := Run(config, Run(config, EMPTY, before), after);
            if DeleteNode(n) in after then e !in t.rows && (n in t.nodes <==> PutBack(before + after, n))
            else Claims(t, e, n) && t.rows[e].status == Registered && n in t.nodes
  {
    InitInv(config);
    RunKeepsInv(config, EMPTY, before);
    StaysRegistered(config, Run(config, EMPTY, before), after, e, n);
    RunSplit(config, EMPTY, before, after);
    HistoryAlways(config, before + after);
  }

  /** There are never more live unclaimed enrollments than the limit. */
  lemma PendingNeverExceedsLimit(config: Config, steps: seq<Step>)
    requires CanRun(config, EMPTY, steps)
    ensures var s := Run(config, EMPTY, steps);
            var live := set e | && e in s.rows && s.rows[e].claimedNode.None? && s.rows[e].expiresAt > s.now
                                && (s.rows[e].status == PendingUserApproval || s.rows[e].status == Approved);
            |live| <= if config.maxPending <= 1 then 1 else config.maxPending
  {
    InitInv(config);
    RunKeepsInv(config, EMPTY, steps);
    var s := Run(config, EMPTY, steps);
    assert LiveIds(s.rows, s.now) ==
           set e | && e in s.rows && s.rows[e].claimedNode.None? && s.rows[e].expiresAt > s.now
                   && (s.rows[e].status == PendingUserApproval || s.rows[e].status == Approved);
  }

  /** Two claims that both decided to proceed: the first to commit wins, the second gets nothing. */
  lemma SecondClaimLoses(config: Config, s: State, c: ClaimId, d: ClaimId, at: Time, later: Time, n: NodeId, m: NodeId)
    requires Inv(config, s) && c != d && n != m
    requires Enabled(s, ClaimFinish(c, at, n)) && Enabled(s, ClaimFinish(d, later, m))
    requires s.claims[c].enrollment == s.claims[d].enrollment
    requires Decide(config, s.claims[c], at).Proceed? && Decide(config, s.claims[d], later).Proceed?
    requires Claimable(s.rows, s.claims[c].enrollment, at)
    ensures var t := Apply(config, s, ClaimFinish(c, at, n));
            && t.grants == s.grants + [Grant(s.claims[c].enrollment, n)]
            && Enabled(t, ClaimFinish(d, later, m))
            && Apply(config, t, ClaimFinish(d, later, m)).grants == t.grants
            && Apply(config, t, ClaimFinish(d, later, m)).nodes == t.nodes
  {
  }

  // ---- A run in which a deleted node comes back without its enrollment ----

  const ANY_CONFIG := Config(1, 60, false)

  const CREATE: seq<Step> := [CreateSweep, CreateCount, CreateInsert("e", "code", true)]
  const CLAIM: seq<Step> := [ClaimRead(0, "e", "code"), ClaimFinish(0, 0, "n")]
  const RACE: seq<Step> := [BeatVerify(0, "n"), DeleteNode("n"), BeatWrite(0)]

  lemma RunOne(config: Config, s: State, steps: seq<Step>)
    requires steps != [] && Enabled(s, steps[0])
    ensures CanRun(config, s, steps) <==> CanRun(config, Apply(config, s, steps[0]), steps[1..])
    ensures CanRun(config, s, steps) ==> Run(config, s, steps) == Run(config, Apply(config, s, steps[0]), steps[1..])
  {
  }

  /** One enrollment, registered to one node. */
  ghost predicate OnlyNode(s: State) {
    && s.rows == map["e" := Row(Registered, 60, Some("n"), Some(0), "code")]
    && s.nodes == map["n" := Node(true, false)] && s.beats == map[]
  }

  const NEW_ROW := Row(Approved, 60, None, Some(0), "code")
  const WITH_ROW := EMPTY.(rows := map["e" := NEW_ROW], usedEnrollments := {"e"})

  lemma CreateRun()
    ensures CanRun(ANY_CONFIG, EMPTY, CREATE) && Run(ANY_CONFIG, EMPTY, CREATE) == WITH_ROW
  {
    assert Sweep(EMPTY.rows, 0) == map[] && LiveIds(map[], 0) == {};
    var s1, s2 := EMPTY.(create := Swept(0)), EMPTY.(create := Counted(0));
    assert Apply(ANY_CONFIG, EMPTY, CREATE[0]) == s1;
    RunOne(ANY_CONFIG, EMPTY, CREATE);
    assert Apply(ANY_CONFIG, s1, CREATE[1]) == s2;
    RunOne(ANY_CONFIG, s1, CREATE[1..]);
    assert Apply(ANY_CONFIG, s2, CREATE[2]) == WITH_ROW;
    RunOne(ANY_CONFIG, s2, CREATE[2..]);
    assert CREATE[2..][1..] == [];
  }

  lemma ClaimRun()
    ensures CanRun(ANY_CONFIG, WITH_ROW, CLAIM) && OnlyNode(Run(ANY_CONFIG, WITH_ROW, CLAIM))
  {
    var s := WITH_ROW.(claims := map[0 := Claim("e", "code", 0, NEW_ROW)]);
    assert Apply(ANY_CONFIG, WITH_ROW, CLAIM[0]) == s;
    RunOne(ANY_CONFIG, WITH_ROW, CLAIM);
    assert Decide(ANY_CONFIG, s.claims[0], 0) == Proceed;
    RunOne(ANY_CONFIG, s, CLAIM[1..]);
    assert CLAIM[1..][1..] == [];
  }

  lemma RaceRun(s: State)
    requires OnlyNode(s)
    ensures CanRun(ANY_CONFIG, s, RACE)
    ensures Run(ANY_CONFIG, s, RACE).rows == map[]
    ensures Run(ANY_CONFIG, s, RACE).nodes == map["n" := Node(false, false)]
  {
    var c := ANY_CONFIG;
    RunOne(c, s, RACE);
    var s1 := Apply(c, s, RACE[0]);
    RunOne(c, s1, RACE[1..]);
    var s2 := Apply(c, s1, RACE[1]);
    assert s2.rows == map[] && s2.nodes == map[];
    RunOne(c, s2, RACE[2..]);
    assert RACE[2..][1..] == [];
  }

  /** The heartbeat verifies, the node is deleted, the heartbeat writes: the row is back, the enrollment is not. */
  lemma DeletedNodeComesBack()
    ensures CanRun(ANY_CONFIG, EMPTY, CREATE + CLAIM + RACE)
    ensures var s := Run(ANY_CONFIG, EMPTY, CREATE + CLAIM + RACE);
            s.rows == map[] && s.nodes == map["n" := Node(false, false)] && PutBack(CREATE + CLAIM + RACE, "n")
  {
    CreateRun();
    ClaimRun();
    RunSplit(ANY_CONFIG, EMPTY, CREATE, CLAIM);
    RaceRun(Run(ANY_CONFIG, EMPTY, CREATE + CLAIM));
    RunSplit(ANY_CONFIG, EMPTY, CREATE + CLAIM, RACE);
    var s := Run(ANY_CONFIG, EMPTY, CREATE + CLAIM + RACE);
    HistoryAlways(ANY_CONFIG, CREATE + CLAIM + RACE);
    assert !Claimed(s, "n");
  }

  // ---- Every step keeps the invariants ----

  /** No step but an insert makes a row live, and an insert only its own. */
  lemma LiveShrinks(config: Config, s: State, step: Step, at: Time)
    requires Enabled(s, step)
    ensures LiveIds(Apply(config, s, step).rows, at)
         <= LiveIds(s.rows, at) + (if step.CreateInsert? then {step.enrollment} else {})
  {
    var t := Apply(config, s, step);
    forall e | e in LiveIds(t.rows, at) && !(step.CreateInsert? && step.enrollment == e)
      ensures e in LiveIds(s.rows, at)
    {
      assert e in t.rows && Live(t.rows[e], at);
      assert e in s.rows;
      if step.ClaimFinish? {
        var c := s.claims[step.claim];
        assert e != c.enrollment ==> t.rows[e] == s.rows[e];
      }
    }
  }

  lemma {:induction false} SubsetSize<T>(a: set<T>, b: set<T>)
    requires a <= b
    ensures |a| <= |b|
  {
    if a != {} {
      var x :| x in a;
      SubsetSize(a - {x}, b - {x});
    }
  }

  lemma LiveCount(config: Config, s: State, step: Step, at: Time)
    requires Enabled(s, step) && !step.CreateInsert?
    ensures |LiveIds(Apply(config, s, step).rows, at)| <= |LiveIds(s.rows, at)|
  {
    LiveShrinks(config, s, step, at);
    SubsetSize(LiveIds(Apply(config, s, step).rows, at), LiveIds(s.rows, at));
  }

  /** Time makes nothing live. */
  lemma LiveLater(rows: map<EnrollmentId, Row>, at: Time, later: Time)
    requires at <= later
    ensures |LiveIds(rows, later)| <= |LiveIds(rows, at)|
  {
    SubsetSize(LiveIds(rows, later), LiveIds(rows, at));
  }

  lemma StepKeepsLimit(config: Config, s: State, step: Step)
    requires WithinLimit(config, s) && Enabled(s, step)
    ensures WithinLimit(config, Apply(config, s, step))
  {
    var t := Apply(config, s, step);
    if step.CreateInsert? {
      InsertWithinLimit(config, s, step);
    } else {
      LiveCount(config, s, step, s.now);
      LiveLater(t.rows, s.now, t.now);
      if t.create.Counted? {
        LiveCount(config, s, step, t.create.at);
      }
    }
  }

  lemma InsertWithinLimit(config: Config, s: State, step: Step)
    requires WithinLimit(config, s) && Enabled(s, step) && step.CreateInsert?
    ensures WithinLimit(config, Apply(config, s, step))
  {
    var t, at := Apply(config, s, step), s.create.at;
    LiveShrinks(config, s, step, at);
    SubsetSize(LiveIds(t.rows, at), LiveIds(s.rows, at) + {step.enrollment});
    LiveLater(t.rows, at, t.now);
  }

  /** The claim of this step is the one that takes the enrollment, for node n. */
  ghost predicate Registers(config: Config, s: State, step: Step, n: NodeId)
    requires Enabled(s, step)
  {
    && step.ClaimFinish? && step.node == n && Decide(config, s.claims[step.claim], step.at).Proceed?
    && Claimable(s.rows, s.claims[step.claim].enrollment, step.at)
  }

  /** What a step does to who claims a node: registering it and deleting it are the only changes. */
  lemma ClaimsStep(config: Config, s: State, step: Step, e: EnrollmentId, n: NodeId)
    requires Owned(s) && Fresh(s) && Enabled(s, step)
    ensures Claims(Apply(config, s, step), e, n) <==>
            || (Claims(s, e, n) && step != DeleteNode(n))
            || (Registers(config, s, step, n) && s.claims[step.claim].enrollment == e)
  {
    if step.ClaimFinish? {
      FinishClaims(config, s, s.claims[step.claim], step.at, step.node, e, n);
    }
  }

  lemma FinishClaims(config: Config, s: State, c: Claim, at: Time, node: NodeId, e: EnrollmentId, n: NodeId)
    ensures Claims(FinishClaim(config, s, c, at, node), e, n) <==>
            || Claims(s, e, n)
            || (node == n && c.enrollment == e && Decide(config, c, at).Proceed? && Claimable(s.rows, e, at))
  {
  }

  /** Registering, deleting and heartbeats are the only steps that change which node rows exist. */
  lemma NodesStep(config: Config, s: State, step: Step, n: NodeId)
    requires Enabled(s, step)
    ensures n in Apply(config, s, step).nodes <==>
            || (n in s.nodes && step != DeleteNode(n))
            || Registers(config, s, step, n)
            || (step.BeatWrite? && s.beats[step.beat] == n)
  {
  }

  lemma StatusStep(config: Config, s: State, step: Step, e: EnrollmentId)
    requires Owned(s) && Enabled(s, step) && e in Apply(config, s, step).rows
    ensures var row := Apply(config, s, step).rows[e]; row.status == Registered <==> row.claimedNode.Some?
  {
    if step.ClaimFinish? {
      FinishStatus(config, s, s.claims[step.claim], step.at, step.node, e);
    }
  }

  lemma FinishStatus(config: Config, s: State, c: Claim, at: Time, n: NodeId, e: EnrollmentId)
    requires Owned(s) && e in FinishClaim(config, s, c, at, n).rows
    ensures var row := FinishClaim(config, s, c, at, n).rows[e]; row.status == Registered <==> row.claimedNode.Some?
  {
  }

  lemma FreshStep(config: Config, s: State, step: Step)
    requires Fresh(s) && Enabled(s, step)
    ensures Fresh(Apply(config, s, step))
  {
  }

  lemma StepKeepsOwned(config: Config, s: State, step: Step)
    requires Owned(s) && Fresh(s) && Enabled(s, step)
    ensures Owned(Apply(config, s, step)) && Fresh(Apply(config, s, step))
  {
    var t := Apply(config, s, step);
    FreshStep(config, s, step);
    forall e | e in t.rows ensures t.rows[e].status == Registered <==> t.rows[e].claimedNode.Some? {
      StatusStep(config, s, step, e);
    }
    forall e, n | Claims(t, e, n) ensures n in t.nodes {
      ClaimsStep(config, s, step, e, n);
      NodesStep(config, s, step, n);
    }
    forall e, f, n | Claims(t, e, n) && Claims(t, f, n) ensures e == f {
      ClaimsStep(config, s, step, e, n);
      ClaimsStep(config, s, step, f, n);
    }
  }

  lemma StepKeepsGrants(config: Config, s: State, step: Step)
    requires Owned(s) && Fresh(s) && GrantsUnique(s) && Enabled(s, step)
    ensures GrantsUnique(Apply(config, s, step))
  {
    if step.ClaimFinish? {
      FinishKeepsGrants(config, s, s.claims[step.claim], step.at, step.node);
    }
  }

  lemma FinishKeepsGrants(config: Config, s: State, c: Claim, at: Time, n: NodeId)
    requires Owned(s) && Fresh(s) && GrantsUnique(s) && n !in s.usedNodes
    ensures GrantsUnique(FinishClaim(config, s, c, at, n))
  {
  }

  lemma ClaimedStep(config: Config, s: State, step: Step, n: NodeId)
    requires Owned(s) && Fresh(s) && Enabled(s, step)
    ensures Claimed(Apply(config, s, step), n) <==>
            (Claimed(s, n) && step != DeleteNode(n)) || Registers(config, s, step, n)
    ensures Registers(config, s, step, n) ==> n !in s.usedNodes && !Claimed(s, n)
  {
    var t := Apply(config, s, step);
    if Claimed(t, n) {
      var e :| Claims(t, e, n);
      ClaimsStep(config, s, step, e, n);
    }
    if e :| Claims(s, e, n) {
      ClaimsStep(config, s, step, e, n);
    }
    if Registers(config, s, step, n) {
      ClaimsStep(config, s, step, s.claims[step.claim].enrollment, n);
    }
  }

  /** Enrollments that are gone stay gone. */
  ghost predicate NoReuse(s: State, t: State) {
    && s.usedEnrollments <= t.usedEnrollments && s.usedNodes <= t.usedNodes
    && forall e :: e in s.usedEnrollments && e in t.rows ==> e in s.rows
  }

  lemma StepReusesNothing(config: Config, s: State, step: Step)
    requires Owned(s) && Fresh(s) && Enabled(s, step)
    ensures NoReuse(s, Apply(config, s, step))
  {
  }

  lemma StepKeepsInv(config: Config, s: State, step: Step)
    requires Inv(config, s) && Enabled(s, step)
    ensures Inv(config, Apply(config, s, step))
  {
    StepKeepsOwned(config, s, step);
    StepKeepsGrants(config, s, step);
    StepKeepsLimit(config, s, step);
  }

  lemma {:induction false} RunKeepsInv(config: Config, s: State, steps: seq<Step>)
    requires Inv(config, s) && CanRun(config, s, steps)
    ensures Inv(config, Run(config, s, steps)) && NoReuse(s, Run(config, s, steps))
    decreases |steps|
  {
    if steps != [] {
      StepKeepsInv(config, s, steps[0]);
      StepReusesNothing(config, s, steps[0]);
      RunKeepsInv(config, Apply(config, s, steps[0]), steps[1..]);
    }
  }

  lemma InitInv(config: Config)
    ensures Inv(config, EMPTY)
  {
    assert LiveIds(EMPTY.rows, EMPTY.now) == {};
  }

  // ---- The history of heartbeats ----

  lemma {:induction false} RunSplit(config: Config, s: State, a: seq<Step>, b: seq<Step>)
    ensures CanRun(config, s, a + b) <==> CanRun(config, s, a) && CanRun(config, Run(config, s, a), b)
    ensures CanRun(config, s, a + b) ==> Run(config, s, a + b) == Run(config, Run(config, s, a), b)
    decreases |a|
  {
    if a == [] {
      assert a + b == b;
    } else {
      assert (a + b)[0] == a[0] && (a + b)[1..] == a[1..] + b;
      if Enabled(s, a[0]) {
        RunSplit(config, Apply(config, s, a[0]), a[1..], b);
      }
    }
  }

  lemma {:induction false} HistoryAlways(config: Config, steps: seq<Step>)
    requires CanRun(config, EMPTY, steps)
    ensures History(steps, Run(config, EMPTY, steps))
    decreases |steps|
  {
    if steps != [] {
      var init, x := steps[..|steps| - 1], steps[|steps| - 1];
      assert steps == init + [x];
      RunSplit(config, EMPTY, init, [x]);
      var s := Run(config, EMPTY, init);
      assert CanRun(config, s, [x]) && Run(config, s, [x]) == Apply(config, s, x);
      InitInv(config);
      RunKeepsInv(config, EMPTY, init);
      HistoryAlways(config, init);
      HistoryNext(config, init, s, x);
    }
  }

  lemma HistoryNext(config: Config, steps: seq<Step>, s: State, x: Step)
    requires History(steps, s) && Owned(s) && Fresh(s) && Enabled(s, x)
    ensures History(steps + [x], Apply(config, s, x))
  {
    var t := Apply(config, s, x);
    forall h, n
      ensures Pends(t, h, n) <==> exists i: nat :: Begun(steps + [x], h, n, i)
      ensures Overtaken(steps + [x], h, n) ==> !Claimed(t, n)
      ensures Pends(t, h, n) && n !in t.nodes ==> Overtaken(steps + [x], h, n)
    {
      BeatsNext(config, steps, s, x, h, n);
      OvertakenNext(config, steps, s, x, h, n);
    }
    forall n ensures n in t.nodes && !Claimed(t, n) <==> PutBack(steps + [x], n) {
      PutBackNext(config, steps, s, x, n);
    }
  }

  lemma BeatsStep(config: Config, s: State, x: Step, h: BeatId, n: NodeId)
    requires Enabled(s, x)
    ensures var t := Apply(config, s, x);
            Pends(t, h, n) <==> x == BeatVerify(h, n) || (Pends(s, h, n) && !Concerns(x, h))
  {
  }

  lemma BeatsNext(config: Config, steps: seq<Step>, s: State, x: Step, h: BeatId, n: NodeId)
    requires History(steps, s) && Enabled(s, x)
    ensures var t := Apply(config, s, x);
            Pends(t, h, n) <==> exists i: nat :: Begun(steps + [x], h, n, i)
  {
    BeatsStep(config, s, x, h, n);
    BegunSnoc(steps, x, h, n, |steps|);
    if i: nat :| Begun(steps, h, n, i) {
      BegunSnoc(steps, x, h, n, i);
    }
    if i: nat :| Begun(steps + [x], h, n, i) {
      BegunSnoc(steps, x, h, n, i);
    }
  }

  lemma OvertakenNext(config: Config, steps: seq<Step>, s: State, x: Step, h: BeatId, n: NodeId)
    requires History(steps, s) && Owned(s) && Fresh(s) && Enabled(s, x)
    ensures var t := Apply(config, s, x);
            && (Overtaken(steps + [x], h, n) ==> !Claimed(t, n))
            && (Pends(t, h, n) && n !in t.nodes ==> Overtaken(steps + [x], h, n))
  {
    var t := Apply(config, s, x);
    OvertakenSnoc(steps, x, h, n);
    ClaimedStep(config, s, x, n);
    NodesStep(config, s, x, n);
    BeatsStep(config, s, x, h, n);
    if Overtaken(steps + [x], h, n) {
      var i: nat :| Begun(steps, h, n, i);
      assert Pends(s, h, n);
    }
  }

  lemma PutBackNext(config: Config, steps: seq<Step>, s: State, x: Step, n: NodeId)
    requires History(steps, s) && Owned(s) && Fresh(s) && Enabled(s, x)
    ensures var t := Apply(config, s, x);
            n in t.nodes && !Claimed(t, n) <==> PutBack(steps + [x], n)
  {
    PutBackSnoc(steps, x, n);
    ClaimedStep(config, s, x, n);
    NodesStep(config, s, x, n);
    if x.BeatWrite? {
      assert Pends(s, x.beat, s.beats[x.beat]);
      if Overtaken(steps, x.beat, n) {
        var i: nat, j :| Begun(steps, x.beat, n, i) && i < j < |steps| && steps[j] == DeleteNode(n);
        assert Pends(s, x.beat, n);
      }
    }
  }

  lemma BegunSnoc(steps: seq<Step>, x: Step, h: BeatId, n: NodeId, i: nat)
    ensures Begun(steps + [x], h, n, i) <==>
            (Begun(steps, h, n, i) && !Concerns(x, h)) || (i == |steps| && x == BeatVerify(h, n))
  {
    var more := steps + [x];
    assert more[|steps|] == x && forall m :: 0 <= m < |steps| ==> more[m] == steps[m];
  }

  lemma OvertakenSnoc(steps: seq<Step>, x: Step, h: BeatId, n: NodeId)
    ensures Overtaken(steps + [x], h, n) <==>
            && !Concerns(x, h)
            && (Overtaken(steps, h, n) || (x == DeleteNode(n) && exists i: nat :: Begun(steps, h, n, i)))
  {
    var more := steps + [x];
    assert more[|steps|] == x && forall m :: 0 <= m < |steps| ==> more[m] == steps[m];
    if Overtaken(more, h, n) {
      var i: nat, j :| Begun(more, h, n, i) && i < j < |more| && more[j] == DeleteNode(n);
      BegunSnoc(steps, x, h, n, i);
      assert Begun(steps, h, n, i);
    }
    if !Concerns(x, h) {
      if i: nat, j :| Begun(steps, h, n, i) && i < j < |steps| && steps[j] == DeleteNode(n) {
        BegunSnoc(steps, x, h, n, i);
        assert more[j] == DeleteNode(n);
      }
      if i: nat :| Begun(steps, h, n, i) && x == DeleteNode(n) {
        BegunSnoc(steps, x, h, n, i);
        assert more[|steps|] == DeleteNode(n);
      }
    }
  }

  lemma PutBackSnoc(steps: seq<Step>, x: Step, n: NodeId)
    ensures PutBack(steps + [x], n) <==>
            (PutBack(steps, n) && x != DeleteNode(n)) || (x.BeatWrite? && Overtaken(steps, x.beat, n))
  {
    var more := steps + [x];
    assert more[|steps|] == x && forall m :: 0 <= m < |steps| ==> more[m] == steps[m];
    assert more[..|steps|] == steps;
    forall k: nat | k < |steps| ensures PutBackAt(more, n, k) <==> PutBackAt(steps, n, k) && x != DeleteNode(n) {
      assert more[..k] == steps[..k];
      assert PutBackAt(more, n, k) ==> more[|steps|] != DeleteNode(n);
    }
    assert PutBackAt(more, n, |steps|) <==> x.BeatWrite? && Overtaken(steps, x.beat, n);
    if PutBack(steps, n) && x != DeleteNode(n) {
      var k: nat :| PutBackAt(steps, n, k);
      assert PutBackAt(more, n, k);
    }
  }
}
