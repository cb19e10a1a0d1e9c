/**
 * When a claim returns a credential, over every run of the enrollment protocol and without naming the
 * decision itself: exactly when it carries the code of the enrollment, the enrollment was approved when
 * the claim read it, and it is still open, unclaimed and unexpired when the claim commits.
 */
module EnrollmentClaims {
  import opened Collections
  import opened Enrollment

  // ---- What the steps say ----

  predicate Inserts(step: Step, e: EnrollmentId, code: string) {
    step.CreateInsert? && step.enrollment == e && step.code == code
  }

  /** The enrollment was created with this code. */
  ghost predicate CreatedWith(steps: seq<Step>, e: EnrollmentId, code: string) {
    exists i :: 0 <= i < |steps| && Inserts(steps[i], e, code)
  }

  ghost function StatusIn(s: State, e: EnrollmentId): Option<Status> {
    if e in s.rows then Some(s.rows[e].status) else None
  }

  /** Step k made the enrollment an approved one: it was created so, or an approval turned it from pending. */
  ghost predicate ApprovesAt(config: Config, steps: seq<Step>, e: EnrollmentId, k: int)
    requires CanRun(config, EMPTY, steps)
  {
    && 0 <= k < |steps|
    && CanRun(config, EMPTY, steps[..k]) && CanRun(config, EMPTY, steps[..k + 1])
    && ((steps[k].CreateInsert? && steps[k].enrollment == e && steps[k].approved) ||
        (steps[k] == Approve(e) &&
         StatusIn(Run(config, EMPTY, steps[..k]), e) == Some(PendingUserApproval) &&
         StatusIn(Run(config, EMPTY, steps[..k + 1]), e) == Some(Approved)))
  }

  ghost predicate ApprovedIn(config: Config, steps: seq<Step>, e: EnrollmentId)
    requires CanRun(config, EMPTY, steps)
  {
    exists k :: ApprovesAt(config, steps, e, k)
  }

  predicate OfClaim(step: Step, c: ClaimId) {
    (step.ClaimRead? && step.claim == c) || (step.ClaimFinish? && step.claim == c) || step == ClaimAbandon(c)
  }

  /** Claim c read enrollment e at step r with this code and has not ended. */
  ghost predicate Reading(steps: seq<Step>, c: ClaimId, e: EnrollmentId, code: string, r: nat) {
    r < |steps| && steps[r] == ClaimRead(c, e, code) && forall m :: r < m < |steps| ==> !OfClaim(steps[m], c)
  }

  /** Open, unclaimed and not expired. */
  ghost predicate OpenAt(s: State, e: EnrollmentId, at: Time) {
    && e in s.rows && (s.rows[e].status == PendingUserApproval || s.rows[e].status == Approved)
    && s.rows[e].claimedNode == None && at < s.rows[e].expiresAt
  }

  /** Claim c, of enrollment e, deserves a credential if it commits at this time after these steps. */
  ghost predicate Rightful(config: Config, steps: seq<Step>, c: ClaimId, e: EnrollmentId, at: Time)
    requires CanRun(config, EMPTY, steps)
  {
    && OpenAt(Run(config, EMPTY, steps), e, at)
    && exists r: nat, code :: RightRead(config, steps, c, e, code, r)
  }

  /** It read the enrollment with the code it was created with, when it was approved. */
  ghost predicate RightRead(
    config: Config, steps: seq<Step>, c: ClaimId, e: EnrollmentId, code: string, r: nat)
    requires CanRun(config, EMPTY, steps)
  {
    && Reading(steps, c, e, code, r) && CanRun(config, EMPTY, steps[..r])
    && CreatedWith(steps[..r], e, code)
    && (config.autoApprove || ApprovedIn(config, steps[..r], e))
  }

  // ---- The results ----

  /** A finishing claim hands out a credential exactly when it is rightful, and then one for its own enrollment. */
  lemma GrantExactly(config: Config, steps: seq<Step>, c: ClaimId, at: Time, n: NodeId)
    requires CanRun(config, EMPTY, steps) && Enabled(Run(config, EMPTY, steps), ClaimFinish(c, at, n))
    ensures var s := Run(config, EMPTY, steps);
            var t, e := Apply(config, s, ClaimFinish(c, at, n)), s.claims[c].enrollment;
            && (exists r: nat, code :: Reading(steps, c, e, code, r))
            && t.grants == s.grants + if Rightful(config, steps, c, e, at) then [Grant(e, n)] else []
  {
    KnownAlways(config, steps);
    var s := Run(config, EMPTY, steps);
    assert ClaimKnown(config, steps, s, c);
    FinishGrants(config, s, c, at, n);
    RightfulMeans(config, steps, s, c, at);
  }

  /** What a finishing claim does to the grants, in terms of its decision. */
  lemma FinishGrants(config: Config, s: State, c: ClaimId, at: Time, n: NodeId)
    requires Enabled(s, ClaimFinish(c, at, n))
    ensures Apply(config, s, ClaimFinish(c, at, n)).grants ==
            s.grants + if Grants(config, s, c, at) then [Grant(s.claims[c].enrollment, n)] else []
  {
  }

  ghost predicate Grants(config: Config, s: State, c: ClaimId, at: Time)
    requires c in s.claims
  {
    Decide(config, s.claims[c], at).Proceed? && Claimable(s.rows, s.claims[c].enrollment, at)
  }

  /** Every grant of a run was handed out by a rightful claim. */
  lemma {:induction false} EveryGrantIsRightful(config: Config, steps: seq<Step>, g: nat)
    requires CanRun(config, EMPTY, steps) && g < |Run(config, EMPTY, steps).grants|
    ensures var grant := Run(config, EMPTY, steps).grants[g];
            exists f, c, at :: GrantedAt(config, steps, f, c, at, grant)
    decreases |steps|
  {
    if steps != [] {
      var init, x := steps[..|steps| - 1], steps[|steps| - 1];
      assert steps == init + [x];
      LastStep(config, init, x);
      var s := Run(config, EMPTY, init);
      GrantsStep(config, init, x);
      if g < |s.grants| {
        EveryGrantIsRightful(config, init, g);
        var f, c, at :| GrantedAt(config, init, f, c, at, s.grants[g]);
        assert steps[..f] == init[..f];
        assert GrantedAt(config, steps, f, c, at, s.grants[g]);
      } else {
        assert steps[..|init|] == init;
        assert GrantedAt(config, steps, |init|, x.claim, x.at, Run(config, EMPTY, steps).grants[g]);
      }
    }
  }

  ghost predicate GrantedAt(config: Config, steps: seq<Step>, f: int, c: ClaimId, at: Time, grant: Grant) {
    && 0 <= f < |steps| && steps[f] == ClaimFinish(c, at, grant.node)
    && CanRun(config, EMPTY, steps[..f]) && Rightful(config, steps[..f], c, grant.enrollment, at)
  }

  // ---- What each step does to the rows ----

  /** The step is an approval that counts: of a pending enrollment that has not expired. */
  ghost predicate Approves(s: State, x: Step, e: EnrollmentId)
    requires e in s.rows
  {
    var row := s.rows[e];
    x == Approve(e) && row.status == PendingUserApproval && row.approvedAt == None && s.now < row.expiresAt
  }

  /** The step expires the enrollment: the sweep of a create, or a claim that read it and comes too late. */
  ghost predicate Expires(s: State, x: Step, e: EnrollmentId)
    requires e in s.rows && Enabled(s, x)
  {
    && (s.rows[e].status == PendingUserApproval || s.rows[e].status == Approved)
    && ((x.CreateSweep? && s.rows[e].expiresAt <= s.now) ||
        (x.ClaimFinish? && s.claims[x.claim].enrollment == e && s.claims[x.claim].row.expiresAt <= x.at))
  }

  /** The step is a claim that gets a credential for the enrollment. */
  ghost predicate Registering(config: Config, s: State, x: Step, e: EnrollmentId)
    requires Enabled(s, x)
  {
    x.ClaimFinish? && Apply(config, s, x).grants == s.grants + [Grant(e, x.node)]
  }

  /**
   * All a step can do to an enrollment: delete it with its node, approve, expire or register it. Code and
   * expiry never change, and nothing else does.
   */
  lemma RowChanges(config: Config, s: State, x: Step, e: EnrollmentId)
    requires Enabled(s, x) && Owned(s) && Fresh(s) && e in s.rows
    ensures var rows, row := Apply(config, s, x).rows, s.rows[e];
            if x.DeleteNode? && row.claimedNode == Some(x.node) then e !in rows
            else
              && e in rows
              && rows[e] ==
                 if Approves(s, x, e) then row.(status := Approved, approvedAt := Some(s.now))
                 else if Expires(s, x, e) then row.(status := Expired)
                 else if Registering(config, s, x, e) then row.(status := Registered, claimedNode := Some(x.node))
                 else row
  {
    if x.ClaimFinish? {
      FinishChanges(config, s, s.claims[x.claim], x.at, x.node, e);
      assert Apply(config, s, x).grants == FinishClaim(config, s, s.claims[x.claim], x.at, x.node).grants;
    }
  }

  lemma FinishChanges(config: Config, s: State, c: Claim, at: Time, n: NodeId, e: EnrollmentId)
    requires e in s.rows
    ensures var t, row := FinishClaim(config, s, c, at, n), s.rows[e];
            && e in t.rows
            && t.rows[e] == (if c.enrollment == e && c.row.expiresAt <= at && Open(row) then row.(status := Expired)
                             else if t.grants == s.grants + [Grant(e, n)]
                             then row.(status := Registered, claimedNode := Some(n))
                             else row)
            && (t.grants == s.grants + [Grant(e, n)] ==> c.enrollment == e && c.row.expiresAt > at)
  {
    var own, other := s.grants + [Grant(c.enrollment, n)], s.grants + [Grant(e, n)];
    assert own[|s.grants|] == Grant(c.enrollment, n) && other[|s.grants|] == Grant(e, n);
    assert |own| == |other| == |s.grants| + 1;
  }

  /** A new enrollment: its code, its expiry counted from the sweep of its create, and whether it is approved. */
  lemma InsertedRow(config: Config, s: State, x: Step)
    requires Enabled(s, x) && x.CreateInsert?
    ensures var t, at := Apply(config, s, x), s.create.at;
            && x.enrollment in t.rows
            && t.rows[x.enrollment] ==
               Row(if x.approved then Approved else PendingUserApproval, at + config.ttl, None,
                   if x.approved then Some(at) else None, x.code)
  {
  }

  /** A create gets as far as its insert exactly when fewer than the limit are live and unclaimed. */
  lemma CreateGoesOn(config: Config, s: State)
    requires s.create.Swept?
    ensures var live := set e | e in s.rows && OpenAt(s, e, s.create.at);
            Apply(config, s, CreateCount).create ==
            if |live| < (if config.maxPending <= 1 then 1 else config.maxPending) then Counted(s.create.at) else Idle
  {
    assert LiveIds(s.rows, s.create.at) == set e | e in s.rows && OpenAt(s, e, s.create.at);
  }

  ghost function NodeIn(s: State, n: NodeId): Option<Node> { if n in s.nodes then Some(s.nodes[n]) else None }

  /**
   * All a step can do to a node row: create it with a credential, delete, revoke or rotate it, or write a
   * heartbeat, which marks a row that is there as not revoked and puts one that is not back without credential.
   */
  lemma NodeChanges(config: Config, s: State, x: Step, n: NodeId)
    requires Enabled(s, x) && Fresh(s)
    ensures var before, after := NodeIn(s, n), NodeIn(Apply(config, s, x), n);
            after ==
            if x.ClaimFinish? && x.node == n && |Apply(config, s, x).grants| > |s.grants| then Some(Node(true, false))
            else if x == DeleteNode(n) then None
            else if x == RevokeNode(n) && before.Some? then Some(Node(false, true))
            else if x == RotateCredential(n) && before.Some? && !before.value.revoked then Some(Node(true, false))
            else if x.BeatWrite? && s.beats[x.beat] == n
            then Some(Node(before.Some? && before.value.credential, false))
            else before
  {
    if x.ClaimFinish? {
      FinishGrants(config, s, x.claim, x.at, x.node);
    }
  }

  /** After a revocation no heartbeat of the node passes its check until its credential is rotated. */
  lemma {:induction false} RevokedCannotVerify(config: Config, s: State, after: seq<Step>, n: NodeId)
    requires Inv(config, s) && n in s.usedNodes && CanRun(config, s, [RevokeNode(n)] + after)
    requires RotateCredential(n) !in after
    ensures !Verifies(Run(config, s, [RevokeNode(n)] + after), n)
  {
    var steps := [RevokeNode(n)] + after;
    assert steps[1..] == after;
    var t := Apply(config, s, RevokeNode(n));
    StepKeepsInv(config, s, RevokeNode(n));
    NeverVerifies(config, t, after, n);
  }

  /** A node without a credential, such as one that a heartbeat put back, stays so until it is rotated. */
  lemma {:induction false} NeverVerifies(config: Config, s: State, after: seq<Step>, n: NodeId)
    requires Inv(config, s) && n in s.usedNodes && CanRun(config, s, after) && RotateCredential(n) !in after
    requires n in s.nodes ==> !s.nodes[n].credential
    ensures var t := Run(config, s, after); n in t.nodes ==> !t.nodes[n].credential
    decreases |after|
  {
    if after != [] {
      var x, rest := after[0], after[1..];
      assert after == [x] + rest;
      StepKeepsInv(config, s, x);
      StepReusesNothing(config, s, x);
      CredentialStep(config, s, x, n);
      NeverVerifies(config, Apply(config, s, x), rest, n);
    }
  }

  lemma CredentialStep(config: Config, s: State, x: Step, n: NodeId)
    requires Enabled(s, x) && n in s.usedNodes && x != RotateCredential(n)
    requires n in s.nodes ==> !s.nodes[n].credential
    ensures var t := Apply(config, s, x); n in t.nodes ==> !t.nodes[n].credential
  {
  }

  // ---- What is known about rows and pending claims ----

  /** What a row of the enrollment, written or read after these steps, says about them. */
  ghost predicate RowKnown(config: Config, steps: seq<Step>, e: EnrollmentId, row: Row)
    requires CanRun(config, EMPTY, steps)
  {
    && (forall code :: CreatedWith(steps, e, code) <==> code == row.code)
    && (row.approvedAt.Some? <==> ApprovedIn(config, steps, e))
    && (row.status == Approved ==> row.approvedAt.Some?)
    && (row.status == PendingUserApproval ==> row.approvedAt.None?)
  }

  ghost predicate ClaimKnown(config: Config, steps: seq<Step>, s: State, c: ClaimId)
    requires CanRun(config, EMPTY, steps) && c in s.claims
  {
    var cl := s.claims[c];
    && cl.enrollment in s.usedEnrollments
    && (cl.enrollment in s.rows ==>
          var row := s.rows[cl.enrollment];
          row.expiresAt == cl.row.expiresAt && (Open(row) ==> Open(cl.row)))
    && exists r: nat ::
         && Reading(steps, c, cl.enrollment, cl.code, r) && CanRun(config, EMPTY, steps[..r])
         && RowKnown(config, steps[..r], cl.enrollment, cl.row)
  }

  ghost predicate Known(config: Config, steps: seq<Step>, s: State)
    requires CanRun(config, EMPTY, steps)
  {
    && Inv(config, s)
    && (forall e :: e in s.rows ==> RowKnown(config, steps, e, s.rows[e]))
    && (forall e, code :: CreatedWith(steps, e, code) ==> e in s.usedEnrollments)
    && (forall e :: ApprovedIn(config, steps, e) ==> e in s.usedEnrollments)
    && (forall c :: c in s.claims ==> ClaimKnown(config, steps, s, c))
  }

  /** Two readings of one claim are one. */
  lemma ReadingUnique(
    steps: seq<Step>, c: ClaimId, e: EnrollmentId, code: string, r: nat, f: EnrollmentId, other: string, q: nat)
    requires Reading(steps, c, e, code, r) && Reading(steps, c, f, other, q)
    ensures r == q && e == f && code == other
  {
  }

  /** The decision of a claim and its commit, in terms of the row it read and the row there is now. */
  lemma GrantsMeans(config: Config, s: State, c: ClaimId, at: Time)
    requires Owned(s) && c in s.claims
    requires var cl := s.claims[c];
             && (cl.row.status == Approved ==> cl.row.approvedAt.Some?)
             && (cl.enrollment in s.rows ==>
                   var row := s.rows[cl.enrollment];
                   row.expiresAt == cl.row.expiresAt && (Open(row) ==> Open(cl.row)))
    ensures var cl := s.claims[c];
            Grants(config, s, c, at) <==>
              OpenAt(s, cl.enrollment, at) && cl.code == cl.row.code && (config.autoApprove || cl.row.approvedAt.Some?)
  {
  }

  /** That the claim read rightly can be told from the row it read. */
  lemma ReadMeans(config: Config, steps: seq<Step>, cl: Claim, c: ClaimId, r: nat)
    requires CanRun(config, EMPTY, steps)
    requires Reading(steps, c, cl.enrollment, cl.code, r) && CanRun(config, EMPTY, steps[..r])
    requires RowKnown(config, steps[..r], cl.enrollment, cl.row)
    ensures (exists q: nat, code :: RightRead(config, steps, c, cl.enrollment, code, q)) <==>
            cl.code == cl.row.code && (config.autoApprove || cl.row.approvedAt.Some?)
  {
    assert RightRead(config, steps, c, cl.enrollment, cl.code, r) <==>
        cl.code == cl.row.code && (config.autoApprove || cl.row.approvedAt.Some?);
    forall q: nat, code | RightRead(config, steps, c, cl.enrollment, code, q)
      ensures q == r && code == cl.code
    {
      ReadingUnique(steps, c, cl.enrollment, cl.code, r, cl.enrollment, code, q);
    }
  }

  /** With what is known, the decision of a claim and its commit come down to being rightful. */
  lemma RightfulMeans(config: Config, steps: seq<Step>, s: State, c: ClaimId, at: Time)
    requires CanRun(config, EMPTY, steps) && s == Run(config, EMPTY, steps) && Owned(s)
    requires c in s.claims && ClaimKnown(config, steps, s, c)
    ensures Rightful(config, steps, c, s.claims[c].enrollment, at) <==> Grants(config, s, c, at)
  {
    var cl := s.claims[c];
    var r: nat :| Reading(steps, c, cl.enrollment, cl.code, r) && CanRun(config, EMPTY, steps[..r]) &&
                  RowKnown(config, steps[..r], cl.enrollment, cl.row);
    GrantsMeans(config, s, c, at);
    ReadMeans(config, steps, cl, c, r);
  }

  /** The steps up to the last, and the last one. */
  lemma LastStep(config: Config, init: seq<Step>, x: Step)
    requires CanRun(config, EMPTY, init + [x])
    ensures CanRun(config, EMPTY, init) && Enabled(Run(config, EMPTY, init), x)
    ensures Run(config, EMPTY, init + [x]) == Apply(config, Run(config, EMPTY, init), x)
  {
    RunSplit(config, EMPTY, init, [x]);
    var s := Run(config, EMPTY, init);
    assert CanRun(config, s, [x]) && Run(config, s, [x]) == Apply(config, s, x);
  }

  /** Only a finishing claim adds a grant, and only a rightful one. */
  lemma GrantsStep(config: Config, init: seq<Step>, x: Step)
    requires CanRun(config, EMPTY, init) && Enabled(Run(config, EMPTY, init), x)
    ensures var s := Run(config, EMPTY, init);
            var t := Apply(config, s, x);
            t.grants == s.grants ||
            (x.ClaimFinish? && t.grants == s.grants + [Grant(s.claims[x.claim].enrollment, x.node)] &&
             Rightful(config, init, x.claim, s.claims[x.claim].enrollment, x.at))
  {
    if x.ClaimFinish? {
      GrantExactly(config, init, x.claim, x.at, x.node);
    }
  }

  // ---- It stays known ----

  lemma CreatedSnoc(init: seq<Step>, x: Step, e: EnrollmentId, code: string)
    ensures CreatedWith(init + [x], e, code) <==> CreatedWith(init, e, code) || Inserts(x, e, code)
  {
    var more := init + [x];
    if i :| 0 <= i < |init| && Inserts(init[i], e, code) {
      assert more[i] == init[i];
    }
    if Inserts(x, e, code) {
      assert more[|init|] == x;
    }
  }

  /** The last step approves the enrollment. */
  ghost predicate ApprovesNow(config: Config, s: State, x: Step, e: EnrollmentId)
    requires Enabled(s, x)
  {
    || (x.CreateInsert? && x.enrollment == e && x.approved)
    || (x == Approve(e) && StatusIn(s, e) == Some(PendingUserApproval) &&
        StatusIn(Apply(config, s, x), e) == Some(Approved))
  }

  lemma ApprovedSnoc(config: Config, init: seq<Step>, x: Step, e: EnrollmentId)
    requires CanRun(config, EMPTY, init + [x]) && CanRun(config, EMPTY, init) && Enabled(Run(config, EMPTY, init), x)
    ensures ApprovedIn(config, init + [x], e) <==>
            ApprovedIn(config, init, e) || ApprovesNow(config, Run(config, EMPTY, init), x, e)
  {
    var more, k := init + [x], |init|;
    LastStep(config, init, x);
    assert more[..k] == init && more[..k + 1] == more && more[k] == x;
    forall i | 0 <= i < k ensures ApprovesAt(config, more, e, i) <==> ApprovesAt(config, init, e, i) {
      assert more[..i] == init[..i] && more[..i + 1] == init[..i + 1];
    }
    assert ApprovesAt(config, more, e, k) <==> ApprovesNow(config, Run(config, EMPTY, init), x, e);
    if i :| ApprovesAt(config, init, e, i) {
      assert ApprovesAt(config, more, e, i);
    }
  }

  lemma ReadingSnoc(init: seq<Step>, x: Step, c: ClaimId, e: EnrollmentId, code: string, r: nat)
    ensures Reading(init, c, e, code, r) && !OfClaim(x, c) ==> Reading(init + [x], c, e, code, r)
    ensures x == ClaimRead(c, e, code) ==> Reading(init + [x], c, e, code, |init|)
  {
  }

  /** What one step does to a row, in the terms needed here; the complete account is `RowChanges`. */
  lemma RowStep(config: Config, s: State, x: Step, e: EnrollmentId)
    requires Enabled(s, x) && Owned(s) && Fresh(s) && e in Apply(config, s, x).rows
    ensures var row := Apply(config, s, x).rows[e];
            if x.CreateInsert? && x.enrollment == e then
              row.code == x.code && (row.approvedAt.Some? <==> x.approved) &&
              row.status == if x.approved then Approved else PendingUserApproval
            else
              && e in s.rows && row.code == s.rows[e].code && row.expiresAt == s.rows[e].expiresAt
              && (row.approvedAt.Some? <==> s.rows[e].approvedAt.Some? || ApprovesNow(config, s, x, e))
              && (row.status == Approved ==> s.rows[e].status == Approved || ApprovesNow(config, s, x, e))
              && (row.status == PendingUserApproval ==> s.rows[e].status == PendingUserApproval)
              && (row.status == PendingUserApproval ==> !ApprovesNow(config, s, x, e))
              && (Open(row) ==> Open(s.rows[e]))
  {
    if x.CreateInsert? && x.enrollment == e {
      InsertedRow(config, s, x);
    } else {
      RowsStayFound(config, s, x, e);
      RowChanges(config, s, x, e);
    }
  }

  lemma RowsStayFound(config: Config, s: State, x: Step, e: EnrollmentId)
    requires Enabled(s, x) && e in Apply(config, s, x).rows && !(x.CreateInsert? && x.enrollment == e)
    ensures e in s.rows
  {
  }

  lemma RowStaysKnown(config: Config, init: seq<Step>, x: Step, e: EnrollmentId)
    requires CanRun(config, EMPTY, init + [x]) && CanRun(config, EMPTY, init) && Enabled(Run(config, EMPTY, init), x)
    requires Known(config, init, Run(config, EMPTY, init))
    requires e in Apply(config, Run(config, EMPTY, init), x).rows
    ensures RowKnown(config, init + [x], e, Apply(config, Run(config, EMPTY, init), x).rows[e])
  {
    var s := Run(config, EMPTY, init);
    var row := Apply(config, s, x).rows[e];
    RowStep(config, s, x, e);
    ApprovedSnoc(config, init, x, e);
    forall code ensures CreatedWith(init + [x], e, code) <==> code == row.code {
      CreatedSnoc(init, x, e, code);
    }
  }

  lemma ClaimStaysKnown(config: Config, init: seq<Step>, x: Step, c: ClaimId)
    requires CanRun(config, EMPTY, init + [x]) && CanRun(config, EMPTY, init) && Enabled(Run(config, EMPTY, init), x)
    requires Known(config, init, Run(config, EMPTY, init))
    requires c in Apply(config, Run(config, EMPTY, init), x).claims
    ensures ClaimKnown(config, init + [x], Apply(config, Run(config, EMPTY, init), x), c)
  {
    var s := Run(config, EMPTY, init);
    var t := Apply(config, s, x);
    var cl, more := t.claims[c], init + [x];
    ClaimsStepRows(config, s, x, c);
    if x.ClaimRead? && x.claim == c {
      ReadingSnoc(init, x, c, cl.enrollment, cl.code, 0);
      assert more[..|init|] == init;
      assert RowKnown(config, init, cl.enrollment, cl.row);
    } else {
      assert ClaimKnown(config, init, s, c);
      var r: nat :| Reading(init, c, cl.enrollment, cl.code, r) && CanRun(config, EMPTY, init[..r]) &&
                    RowKnown(config, init[..r], cl.enrollment, cl.row);
      ReadingSnoc(init, x, c, cl.enrollment, cl.code, r);
      assert more[..r] == init[..r];
    }
    if cl.enrollment in t.rows {
      RowStep(config, s, x, cl.enrollment);
    }
  }

  /** A step that does not concern a claim leaves it; reading copies the row; used identifiers stay used. */
  lemma ClaimsStepRows(config: Config, s: State, x: Step, c: ClaimId)
    requires Enabled(s, x) && c in Apply(config, s, x).claims
    ensures var cl := Apply(config, s, x).claims[c];
            if x.ClaimRead? && x.claim == c
            then cl.enrollment == x.enrollment && cl.code == x.code && x.enrollment in s.rows &&
                 cl.row == s.rows[x.enrollment]
            else c in s.claims && cl == s.claims[c] && !OfClaim(x, c)
    ensures s.usedEnrollments <= Apply(config, s, x).usedEnrollments
    ensures x.ClaimRead? ==> Apply(config, s, x).rows == s.rows
  {
  }

  lemma UsedStaysKnown(config: Config, init: seq<Step>, x: Step, e: EnrollmentId)
    requires CanRun(config, EMPTY, init + [x]) && CanRun(config, EMPTY, init) && Enabled(Run(config, EMPTY, init), x)
    requires Known(config, init, Run(config, EMPTY, init))
    ensures forall code :: CreatedWith(init + [x], e, code) ==>
                             e in Apply(config, Run(config, EMPTY, init), x).usedEnrollments
    ensures ApprovedIn(config, init + [x], e) ==> e in Apply(config, Run(config, EMPTY, init), x).usedEnrollments
  {
    var s := Run(config, EMPTY, init);
    UsedGrow(config, s, x);
    ApprovedSnoc(config, init, x, e);
    forall code | CreatedWith(init + [x], e, code) ensures e in Apply(config, s, x).usedEnrollments {
      CreatedSnoc(init, x, e, code);
    }
  }

  lemma UsedGrow(config: Config, s: State, x: Step)
    requires Enabled(s, x)
    ensures s.usedEnrollments <= Apply(config, s, x).usedEnrollments
    ensures x.CreateInsert? ==> x.enrollment in Apply(config, s, x).usedEnrollments
  {
  }

  lemma {:induction false} KnownAlways(config: Config, steps: seq<Step>)
    requires CanRun(config, EMPTY, steps)
    ensures Known(config, steps, Run(config, EMPTY, steps))
    decreases |steps|
  {
    InitInv(config);
    RunKeepsInv(config, EMPTY, steps);
    if steps != [] {
      var init, x := steps[..|steps| - 1], steps[|steps| - 1];
      assert steps == init + [x];
      LastStep(config, init, x);
      KnownAlways(config, init);
      var t := Apply(config, Run(config, EMPTY, init), x);
      forall e | e in t.rows ensures RowKnown(config, steps, e, t.rows[e]) {
        RowStaysKnown(config, init, x, e);
      }
      forall c | c in t.claims ensures ClaimKnown(config, steps, t, c) {
        ClaimStaysKnown(config, init, x, c);
      }
      forall e
        ensures forall code :: CreatedWith(steps, e, code) ==> e in t.usedEnrollments
        ensures ApprovedIn(config, steps, e) ==> e in t.usedEnrollments
      {
        UsedStaysKnown(config, init, x, e);
      }
    }
  }
}
