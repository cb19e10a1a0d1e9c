/**
 * The Core migration runner (`AppState::migrate`, `ensure_compatible_state`) under any number of
 * concurrent processes and crashes. Every query of the compatibility check and every migration
 * transaction is one atomic step of its runner; steps of all runners interleave freely.
 */
module Migrations {
  import opened Collections

  /** The numbered list has versions 1 to 17; version 3 creates the schema metadata. */
  const COUNT: nat := 17
  const FIRST_TABLES: int := 1
  const META_VERSION: int := 3
  const CORE_STATE_SLOT := "0.2.0"
  const SCHEMA_VERSION: int := 1

  datatype MetaRow = MetaRow(slot: string, schemaVersion: int)

  const META_ROW := MetaRow(CORE_STATE_SLOT, SCHEMA_VERSION)

  /**
   * The database: whether tables other than the two bookkeeping ones exist, the metadata table, the
   * table of applied migrations, and the transformations that ran, in order. The transformations are
   * kept uninterpreted, so equal logs mean equal schemas for every reading of the statements.
   */
  datatype Db = Db(
    otherTables: bool,
    meta: Option<seq<MetaRow>>,
    hasVersions: bool,
    applied: map<int, string>,
    log: seq<int>)

  const EMPTY_DB := Db(false, None, false, map[], [])

  type Checksums = s: seq<string> | |s| == COUNT witness seq(17, i => "")

  /** The statements of one migration and its bookkeeping row, committed together. */
  function RunMigration(sums: Checksums, db: Db, i: nat): Db
    requires i < COUNT
  {
    var version := i + 1;
    db.(otherTables := db.otherTables || version == FIRST_TABLES,
        meta := if version != META_VERSION then db.meta
                else Some((if db.meta.Some? then db.meta.value else []) + [META_ROW]),
        applied := db.applied[version := sums[i]],
        log := db.log + [version])
  }

  /** The database after the first k migrations, uninterrupted. */
  function Uninterrupted(sums: Checksums, k: nat): Db
    requires k <= COUNT
  {
    if k == 0 then EMPTY_DB.(hasVersions := true) else RunMigration(sums, Uninterrupted(sums, k - 1), k - 1)
  }

  /** Versions 1 to k. */
  function Versions(k: nat): seq<int> { if k == 0 then [] else Versions(k - 1) + [k] }

  /** What the database looks like after the first k migrations. */
  ghost predicate AfterFirst(sums: Checksums, db: Db, k: nat)
    requires k <= COUNT
  {
    && db.log == Versions(k) && |db.log| == k && db.hasVersions
    && (db.otherTables <==> k >= 1)
    && db.meta == (if k >= 3 then Some([META_ROW]) else None)
    && (forall v :: v in db.applied <==> 1 <= v <= k)
    && (forall v :: 1 <= v <= k ==> db.applied[v] == sums[v - 1])
    && |db.applied| == k
  }

  lemma MigrationEffect(sums: Checksums, db: Db, k: nat)
    requires k < COUNT && AfterFirst(sums, db, k)
    ensures AfterFirst(sums, RunMigration(sums, db, k), k + 1)
  {
    assert k + 1 !in db.applied;
    assert [] + [META_ROW] == [META_ROW];
  }

  lemma {:induction false} UninterruptedFacts(sums: Checksums, k: nat)
    requires k <= COUNT
    ensures AfterFirst(sums, Uninterrupted(sums, k), k)
  {
    if k > 0 {
      UninterruptedFacts(sums, k - 1);
      MigrationEffect(sums, Uninterrupted(sums, k - 1), k - 1);
    }
  }

  // ---- Runners ----

  /** Where a runner is: the queries of the check in order, then the migration loop. */
  datatype Pc =
    | Start
    | MetaExists
    | MetaCounted
    | NoMeta
    | TablesRead(others: bool)
    | VersionsRead(others: bool, recorded: bool)
    | AppliedCounted(count: nat)
    | Accepted
    | Migrating(index: nat)
    | Done
    | Rejected
    | Mismatch

  datatype State = State(db: Db, runners: map<nat, Pc>)

  const INITIAL := State(EMPTY_DB, map[])

  datatype Next = Next(db: Db, pc: Pc)

  predicate RowsKnown(sums: Checksums, applied: map<int, string>) {
    forall v :: v in applied ==> 1 <= v <= COUNT && applied[v] == sums[v - 1]
  }

  /** One query or transaction of a runner. */
  function Query(sums: Checksums, db: Db, pc: Pc): Next {
    match pc
    case Start => Next(db, if db.meta.Some? then MetaExists else NoMeta)
    case MetaExists => Next(db, if db.meta.Some? && |db.meta.value| == 1 then MetaCounted else Rejected)
    case MetaCounted =>
      Next(db, if db.meta.Some? && db.meta.value != [] && db.meta.value[0] == META_ROW then Accepted else Rejected)
    case NoMeta => Next(db, TablesRead(db.otherTables))
    case TablesRead(others) => Next(db, VersionsRead(others, db.hasVersions))
    case VersionsRead(others, recorded) =>
      var count := if recorded then |db.applied| else 0;
      Next(db, if others && count == 0 then Rejected else if count > 0 then AppliedCounted(count) else Accepted)
    case AppliedCounted(_) => Next(db, if RowsKnown(sums, db.applied) then Accepted else Rejected)
    case Accepted => Next(db.(hasVersions := true), Migrating(0))
    case Migrating(i) =>
      if i >= COUNT then Next(db, Done)
      else if i + 1 in db.applied then
        Next(db, if db.applied[i + 1] == sums[i] then Migrating(i + 1) else Mismatch)
      else Next(RunMigration(sums, db, i), Migrating(i + 1))
    case _ => Next(db, pc)
  }

  datatype Step = Spawn(runner: nat) | Advance(runner: nat) | Crash(runner: nat)

  predicate Enabled(s: State, step: Step) {
    match step
    case Spawn(r) => r !in s.runners
    case Advance(r) => r in s.runners
    case Crash(r) => r in s.runners
  }

  function Apply(sums: Checksums, s: State, step: Step): State
    requires Enabled(s, step)
  {
    match step
    case Spawn(r) => s.(runners := s.runners[r := Start])
    case Advance(r) =>
      var next := Query(sums, s.db, s.runners[r]);
      State(next.db, s.runners[r := next.pc])
    case Crash(r) => s.(runners := s.runners - {r})
  }

  predicate CanRun(sums: Checksums, s: State, steps: seq<Step>)
    decreases |steps|
  {
    steps == [] || (Enabled(s, steps[0]) && CanRun(sums, Apply(sums, s, steps[0]), steps[1..]))
  }

  function Run(sums: Checksums, s: State, steps: seq<Step>): State
    requires CanRun(sums, s, steps)
    decreases |steps|
  {
    if steps == [] then s else Run(sums, Apply(sums, s, steps[0]), steps[1..])
  }

  // ---- Invariant ----

  /** The database is the uninterrupted one after some number of migrations. */
  ghost predicate DbInv(sums: Checksums, db: Db) {
    && |db.log| <= COUNT
    && db == Uninterrupted(sums, |db.log|).(hasVersions := db.hasVersions)
    && (db.log != [] ==> db.hasVersions)
  }

  /** What a runner has seen is still true: everything it relies on only grows. */
  ghost predicate PcInv(db: Db, pc: Pc) {
    match pc
    case Start => true
    case NoMeta => true
    case Accepted => true
    case MetaExists => |db.log| >= 3
    case MetaCounted => |db.log| >= 3
    case TablesRead(others) => others ==> |db.log| >= 1
    case VersionsRead(others, recorded) => (others ==> |db.log| >= 1 && recorded) && (recorded ==> db.hasVersions)
    case AppliedCounted(count) => 1 <= count <= |db.log|
    case Migrating(i) => db.hasVersions && i <= |db.log| && i <= COUNT
    case Done => |db.log| == COUNT
    case Rejected => false
    case Mismatch => false
  }

  ghost predicate Inv(sums: Checksums, s: State) {
    DbInv(sums, s.db) && forall r :: r in s.runners ==> PcInv(s.db, s.runners[r])
  }

  /** A migration not yet recorded is the very next one. */
  lemma NextMigration(sums: Checksums, db: Db, i: nat)
    requires DbInv(sums, db) && i <= |db.log| && i < COUNT && i + 1 !in db.applied
    ensures i == |db.log|
  {
    UninterruptedFacts(sums, |db.log|);
  }

  lemma QueryKeepsInv(sums: Checksums, db: Db, pc: Pc)
    requires DbInv(sums, db) && PcInv(db, pc)
    ensures var next := Query(sums, db, pc);
            && DbInv(sums, next.db) && PcInv(next.db, next.pc)
            && db.log <= next.db.log && (db.hasVersions ==> next.db.hasVersions)
  {
    if pc.Migrating? && pc.index < COUNT && pc.index + 1 !in db.applied {
      MigrationKeepsInv(sums, db, pc.index);
    } else {
      UninterruptedFacts(sums, |db.log|);
    }
  }

  lemma MigrationKeepsInv(sums: Checksums, db: Db, i: nat)
    requires DbInv(sums, db) && db.hasVersions && i <= |db.log| && i < COUNT && i + 1 !in db.applied
    ensures var next := RunMigration(sums, db, i);
            DbInv(sums, next) && next.hasVersions && db.log <= next.log && |next.log| == i + 1
  {
    NextMigration(sums, db, i);
    UninterruptedFacts(sums, |db.log| + 1);
  }

  lemma OthersUnaffected(db: Db, later: Db, pc: Pc)
    requires PcInv(db, pc) && db.log <= later.log && |later.log| <= COUNT && (db.hasVersions ==> later.hasVersions)
    ensures PcInv(later, pc)
  {
  }

  lemma StepKeepsInv(sums: Checksums, s: State, step: Step)
    requires Inv(sums, s) && Enabled(s, step)
    ensures Inv(sums, Apply(sums, s, step))
    ensures s.db.log <= Apply(sums, s, step).db.log
  {
    if step.Advance? {
      QueryKeepsInv(sums, s.db, s.runners[step.runner]);
      var t := Apply(sums, s, step);
      forall r | r in t.runners ensures PcInv(t.db, t.runners[r]) {
        if r != step.runner {
          OthersUnaffected(s.db, t.db, s.runners[r]);
        }
      }
    }
  }

  lemma {:induction false} RunKeepsInv(sums: Checksums, s: State, steps: seq<Step>)
    requires Inv(sums, s) && CanRun(sums, s, steps)
    ensures Inv(sums, Run(sums, s, steps))
    ensures s.db.log <= Run(sums, s, steps).db.log
    decreases |steps|
  {
    if steps != [] {
      StepKeepsInv(sums, s, steps[0]);
      RunKeepsInv(sums, Apply(sums, s, steps[0]), steps[1..]);
    }
  }

  // ---- The results, over every interleaving and every crash ----

  /** The recorded versions are a prefix of the list, each applied once and in order. */
  lemma AppliedOnceInOrder(sums: Checksums, steps: seq<Step>)
    requires CanRun(sums, INITIAL, steps)
    ensures var db := Run(sums, INITIAL, steps).db;
            && db.log == Versions(|db.log|) && |db.log| <= COUNT
            && (forall v :: v in db.applied <==> v in db.log)
            && RowsKnown(sums, db.applied)
  {
    RunKeepsInv(sums, INITIAL, steps);
    var k := |Run(sums, INITIAL, steps).db.log|;
    UninterruptedFacts(sums, k);
    VersionsAre(k);
  }

  lemma {:induction false} VersionsAre(k: nat)
    ensures forall v :: v in Versions(k) <==> 1 <= v <= k
  {
    if k > 0 {
      VersionsAre(k - 1);
    }
  }

  /** The compatibility check never rejects such a database, nor does a checksum ever differ. */
  lemma NeverRejected(sums: Checksums, steps: seq<Step>, r: nat)
    requires CanRun(sums, INITIAL, steps) && r in Run(sums, INITIAL, steps).runners
    ensures var pc := Run(sums, INITIAL, steps).runners[r];
            !pc.Rejected? && !pc.Mismatch?
  {
    RunKeepsInv(sums, INITIAL, steps);
    assert PcInv(Run(sums, INITIAL, steps).db, Run(sums, INITIAL, steps).runners[r]);
  }

  /** Whenever some runner is done, the database is the one an undisturbed first run produces. */
  lemma DoneMeansUninterruptedResult(sums: Checksums, steps: seq<Step>, r: nat)
    requires CanRun(sums, INITIAL, steps)
    requires var s := Run(sums, INITIAL, steps); r in s.runners && s.runners[r] == Done
    ensures Run(sums, INITIAL, steps).db == Uninterrupted(sums, COUNT)
  {
    RunKeepsInv(sums, INITIAL, steps);
    var s := Run(sums, INITIAL, steps);
    assert PcInv(s.db, s.runners[r]);
    UninterruptedFacts(sums, COUNT);
  }

  // ---- A rerun always gets there ----

  /** How far a runner has come. */
  function Rank(pc: Pc): nat {
    match pc
    case Start => 0
    case MetaExists => 1
    case NoMeta => 1
    case MetaCounted => 2
    case TablesRead(_) => 2
    case VersionsRead(_, _) => 3
    case AppliedCounted(_) => 4
    case Accepted => 5
    case Migrating(i) => 6 + i
    case _ => 7 + COUNT
  }

  /** Every query of a runner that is not done brings it forward, whatever the others did before. */
  lemma AdvanceProgresses(sums: Checksums, db: Db, pc: Pc)
    requires DbInv(sums, db) && PcInv(db, pc) && !pc.Done?
    ensures Rank(Query(sums, db, pc).pc) > Rank(pc)
  {
    QueryKeepsInv(sums, db, pc);
  }

  /** A runner left alone from any reachable state. */
  function Alone(sums: Checksums, s: State, r: nat, n: nat): State
    requires r in s.runners
    decreases n
  {
    if n == 0 then s else Alone(sums, Apply(sums, s, Advance(r)), r, n - 1)
  }

  lemma {:induction false} AloneFinishes(sums: Checksums, s: State, r: nat)
    requires Inv(sums, s) && r in s.runners
    ensures exists n :: 0 <= n && r in Alone(sums, s, r, n).runners && Alone(sums, s, r, n).runners[r] == Done
    decreases 7 + COUNT - Rank(s.runners[r])
  {
    if s.runners[r] == Done {
      assert Alone(sums, s, r, 0) == s;
    } else {
      var t := Apply(sums, s, Advance(r));
      StepKeepsInv(sums, s, Advance(r));
      assert PcInv(s.db, s.runners[r]);
      AdvanceProgresses(sums, s.db, s.runners[r]);
      AloneFinishes(sums, t, r);
      var n: nat :| r in Alone(sums, t, r, n).runners && Alone(sums, t, r, n).runners[r] == Done;
      assert Alone(sums, s, r, n + 1) == Alone(sums, t, r, n);
    }
  }

  /** After any history of runners and crashes, one more rerun converges to the uninterrupted result. */
  lemma RerunConverges(sums: Checksums, steps: seq<Step>, r: nat)
    requires CanRun(sums, INITIAL, steps) && r !in Run(sums, INITIAL, steps).runners
    ensures var s := Apply(sums, Run(sums, INITIAL, steps), Spawn(r));
            exists n :: 0 <= n && Alone(sums, s, r, n).db == Uninterrupted(sums, COUNT)
  {
    RunKeepsInv(sums, INITIAL, steps);
    var s := Apply(sums, Run(sums, INITIAL, steps), Spawn(r));
    StepKeepsInv(sums, Run(sums, INITIAL, steps), Spawn(r));
    AloneFinishes(sums, s, r);
    var n: nat :| r in Alone(sums, s, r, n).runners && Alone(sums, s, r, n).runners[r] == Done;
    AloneKeepsInv(sums, s, r, n);
    assert PcInv(Alone(sums, s, r, n).db, Done);
    UninterruptedFacts(sums, COUNT);
  }

  lemma {:induction false} AloneKeepsInv(sums: Checksums, s: State, r: nat, n: nat)
    requires Inv(sums, s) && r in s.runners
    ensures Inv(sums, Alone(sums, s, r, n))
    decreases n
  {
    if n > 0 {
      StepKeepsInv(sums, s, Advance(r));
      AloneKeepsInv(sums, Apply(sums, s, Advance(r)), r, n - 1);
    }
  }

  // ---- Runs from any database ----

  /** What holds of every runner, whatever database it started on: the versions it has passed are recorded. */
  ghost predicate Passed(sums: Checksums, db: Db, pc: Pc) {
    match pc
    case Migrating(i) => forall v :: 1 <= v <= i && v <= COUNT ==> Recorded(sums, db, v)
    case Done => forall v :: 1 <= v <= COUNT ==> Recorded(sums, db, v)
    case _ => true
  }

  ghost predicate AllPassed(sums: Checksums, s: State) {
    forall r :: r in s.runners ==> Passed(sums, s.db, s.runners[r])
  }

  /** A query never changes or drops a recorded version. */
  lemma QueryKeepsRecords(sums: Checksums, db: Db, pc: Pc)
    ensures var next := Query(sums, db, pc).db;
            forall v :: v in db.applied ==> v in next.applied && next.applied[v] == db.applied[v]
  {
  }

  lemma QueryPasses(sums: Checksums, db: Db, pc: Pc)
    requires Passed(sums, db, pc)
    ensures var next := Query(sums, db, pc); Passed(sums, next.db, next.pc)
  {
    QueryKeepsRecords(sums, db, pc);
    var next := Query(sums, db, pc);
    if pc.Migrating? && next.pc.Migrating? {
      assert Recorded(sums, next.db, pc.index + 1);
      assert forall v :: 1 <= v <= pc.index && Recorded(sums, db, v) ==> Recorded(sums, next.db, v);
    }
  }

  lemma StepPasses(sums: Checksums, s: State, step: Step)
    requires AllPassed(sums, s) && Enabled(s, step)
    ensures AllPassed(sums, Apply(sums, s, step))
  {
    if step.Advance? {
      var t := Apply(sums, s, step);
      QueryKeepsRecords(sums, s.db, s.runners[step.runner]);
      QueryPasses(sums, s.db, s.runners[step.runner]);
      forall r | r in t.runners && r != step.runner ensures Passed(sums, t.db, t.runners[r]) {
        assert forall v :: Recorded(sums, s.db, v) ==> Recorded(sums, t.db, v);
      }
    }
  }

  /**
   * From any database at all, with any number of runners and crashes: a runner that finishes leaves every
   * version recorded under its own checksum, and one that meets a foreign checksum never finishes.
   */
  lemma {:induction false} DoneMeansRecorded(sums: Checksums, s: State, steps: seq<Step>, r: nat)
    requires AllPassed(sums, s) && CanRun(sums, s, steps)
    requires var t := Run(sums, s, steps); r in t.runners && t.runners[r] == Done
    ensures var db := Run(sums, s, steps).db;
            forall v :: 1 <= v <= 17 ==> v in db.applied && db.applied[v] == sums[v - 1]
    decreases |steps|
  {
    if steps != [] {
      StepPasses(sums, s, steps[0]);
      DoneMeansRecorded(sums, Apply(sums, s, steps[0]), steps[1..], r);
    } else {
      assert Passed(sums, s.db, s.runners[r]);
      forall v | 1 <= v <= 17 ensures v in s.db.applied && s.db.applied[v] == sums[v - 1] {
        assert Recorded(sums, s.db, v);
      }
    }
  }

  // ---- The check on a database nobody else is changing ----

  /** What the check is meant to accept. */
  ghost predicate Compatible(sums: Checksums, db: Db) {
    if db.meta.Some? then db.meta.value == [META_ROW]
    else
      && (db.otherTables ==> db.hasVersions && db.applied != map[])
      && (db.hasVersions ==> RowsKnown(sums, db.applied))
  }

  /** `ensure_compatible_state`, for any database at all; `rows` is the result of its last query. */
  method EnsureCompatibleState(sums: Checksums, db: Db, rows: seq<(int, string)>) returns (ok: bool)
    requires forall v, c :: (v, c) in rows <==> v in db.applied && db.applied[v] == c
    ensures ok <==>
            if db.meta.Some? then db.meta.value == [MetaRow("0.2.0", 1)]
            else
              && (db.otherTables ==> db.hasVersions && db.applied != map[])
              && (db.hasVersions ==>
                    forall v :: v in db.applied ==> 1 <= v <= 17 && db.applied[v] == sums[v - 1])
    ensures ok <==> Compatible(sums, db)
  {
    if db.meta.Some? {
      if |db.meta.value| != 1 {
        return false;
      }
      assert db.meta.value == [MetaRow(db.meta.value[0].slot, db.meta.value[0].schemaVersion)];
      return db.meta.value[0].slot == CORE_STATE_SLOT && db.meta.value[0].schemaVersion == SCHEMA_VERSION;
    }
    var count := if db.hasVersions then |db.applied| else 0;
    if db.otherTables && count == 0 {
      return false;
    }
    if count > 0 {
      for i := 0 to |rows|
        invariant forall k :: 0 <= k < i ==> 1 <= rows[k].0 <= COUNT && sums[rows[k].0 - 1] == rows[k].1
      {
        var (version, checksum) := rows[i];
        assert (version, checksum) in rows;
        if !(1 <= version <= COUNT) || sums[version - 1] != checksum {
          return false;
        }
      }
      forall v | v in db.applied ensures 1 <= v <= COUNT && db.applied[v] == sums[v - 1] {
        assert (v, db.applied[v]) in rows;
      }
    }
    return true;
  }

  lemma ReachedIsCompatible(sums: Checksums, db: Db)
    requires DbInv(sums, db)
    ensures Compatible(sums, db)
  {
    UninterruptedFacts(sums, |db.log|);
    if db.otherTables {
      assert 1 in db.applied;
    }
  }

  /** The version is recorded with its own checksum. */
  predicate Recorded(sums: Checksums, db: Db, v: int) {
    1 <= v <= COUNT && v in db.applied && db.applied[v] == sums[v - 1]
  }

  /**
   * `migrate`, alone on any database: an incompatible one is left as it was, success means that every
   * version is recorded with its own checksum, and a database that earlier runs reached, however they
   * were interrupted, becomes the uninterrupted result.
   */
  method Migrate(sums: Checksums, db: Db, rows: seq<(int, string)>) returns (after: Db, ok: bool)
    requires forall v, c :: (v, c) in rows <==> v in db.applied && db.applied[v] == c
    ensures !Compatible(sums, db) ==> !ok && after == db
    ensures ok ==> forall v :: 1 <= v <= COUNT ==> Recorded(sums, after, v)
    ensures forall v :: v in db.applied ==> v in after.applied && after.applied[v] == db.applied[v]
    ensures DbInv(sums, db) ==> ok && after == Uninterrupted(sums, COUNT)
  {
    ok := EnsureCompatibleState(sums, db, rows);
    if !ok {
      if DbInv(sums, db) {
        ReachedIsCompatible(sums, db);
      }
      return db, false;
    }
    after, ok := RunMigrations(sums, db.(hasVersions := true));
    assert DbInv(sums, db) ==> DbInv(sums, db.(hasVersions := true));
  }

  /** The loop over the migrations, each in its own transaction. */
  method RunMigrations(sums: Checksums, db: Db) returns (after: Db, ok: bool)
    requires db.hasVersions
    ensures ok ==> forall v :: 1 <= v <= COUNT ==> Recorded(sums, after, v)
    ensures forall v :: v in db.applied ==> v in after.applied && after.applied[v] == db.applied[v]
    ensures DbInv(sums, db) ==> ok && after == Uninterrupted(sums, COUNT)
  {
    after := db;
    for i := 0 to COUNT
      invariant MigratedTo(sums, db, after, i)
    {
      MigrateOne(sums, db, after, i);
      if i + 1 in after.applied {
        if after.applied[i + 1] != sums[i] {
          return after, false;
        }
      } else {
        after := RunMigration(sums, after, i);
      }
    }
    ok := true;
    if DbInv(sums, db) {
      UninterruptedFacts(sums, COUNT);
    }
  }

  /** The first i versions are recorded, nothing that was recorded has changed, and a reached database stays one. */
  ghost predicate MigratedTo(sums: Checksums, db: Db, after: Db, i: nat) {
    && after.hasVersions
    && (forall v :: 1 <= v <= i ==> Recorded(sums, after, v))
    && (forall v :: v in db.applied ==> v in after.applied && after.applied[v] == db.applied[v])
    && (DbInv(sums, db) ==> DbInv(sums, after) && i <= |after.log|)
  }

  lemma MigrateOne(sums: Checksums, db: Db, after: Db, i: nat)
    requires i < COUNT && MigratedTo(sums, db, after, i)
    ensures i + 1 !in after.applied ==> MigratedTo(sums, db, RunMigration(sums, after, i), i + 1)
    ensures i + 1 in after.applied && after.applied[i + 1] == sums[i] ==> MigratedTo(sums, db, after, i + 1)
    ensures i + 1 in after.applied && DbInv(sums, db) ==> after.applied[i + 1] == sums[i]
  {
    if DbInv(sums, db) {
      QueryKeepsInv(sums, after, Migrating(i));
    }
    var next := RunMigration(sums, after, i);
    if i + 1 !in after.applied {
      assert Recorded(sums, next, i + 1);
      assert forall v :: 1 <= v <= i && Recorded(sums, after, v) ==> Recorded(sums, next, v);
    }
  }

  /** The queries of one runner on an unchanging database, until it decides. */
  function Settle(sums: Checksums, db: Db, pc: Pc): Pc
    decreases 7 + COUNT - Rank(pc)
  {
    if Rank(pc) >= Rank(Accepted) then pc else Settle(sums, db, Query(sums, db, pc).pc)
  }

  /** The step-by-step check of a runner agrees with the check as a whole. */
  lemma QuiescentCheck(sums: Checksums, db: Db)
    ensures Settle(sums, db, Start) == if Compatible(sums, db) then Accepted else Rejected
  {
    if db.meta.Some? {
      assert |db.meta.value| == 1 ==> db.meta.value == [db.meta.value[0]];
      var a := Query(sums, db, MetaExists).pc;
      assert Settle(sums, db, Start) == Settle(sums, db, MetaExists) == Settle(sums, db, a);
    } else {
      var a := VersionsRead(db.otherTables, db.hasVersions);
      assert Settle(sums, db, Start) == Settle(sums, db, NoMeta) == Settle(sums, db, TablesRead(db.otherTables));
      var b := Query(sums, db, a).pc;
      assert Settle(sums, db, TablesRead(db.otherTables)) == Settle(sums, db, a) == Settle(sums, db, b);
      if b.AppliedCounted? {
        assert Settle(sums, db, b) == Query(sums, db, b).pc;
      }
    }
  }
}
