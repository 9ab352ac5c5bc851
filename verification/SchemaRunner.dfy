/** One run of the migration runner from lock to unlock, as the loops it is. */
module SchemaRunner {
  import opened SchemaStep
  import opened SchemaRuns

  /** What the server will do to the statements of a run: how many attempts at a
      step time out on their lock, and which steps' statements fail. */
  datatype Server = Server(timeouts: map<int, nat>, broken: set<int>)

  function Timeouts(v: Server, n: int): nat {
    if n in v.timeouts then v.timeouts[n] else 0
  }

  function Attempts(s: Step): nat {
    if s.kind == GuardedDDL then GUARD_ATTEMPTS else 1
  }

  predicate TxSucceeds(v: Server, s: Step) {
    s.n !in v.broken && Timeouts(v, s.n) < Attempts(s)
  }

  /** The server lets the step through. */
  predicate Healthy(v: Server, s: Step) {
    if Transactional(s) then TxSucceeds(v, s)
    else s.n !in v.broken && (s.kind == ConcurrentIndex ==> s.index != "")
  }

  predicate PlanAllowed(c: Classifier, plan: seq<Step>) {
    forall s :: s in plan ==> SqlAllowed(c, s.kind, s.sql)
  }

  /** An applied step whose text is no longer what the ledger recorded. */
  predicate Edited(ledger: map<int, Sha>, s: Step) {
    s.n in ledger && s.kind != BatchedDML && ledger[s.n] != Sum(s)
  }

  /** One step the ledger lacks: what it leaves behind, and whether it succeeded. */
  function StepOutcome(db: Db, s: Step, v: Server): (Db, bool) {
    match s.kind
    case ConcurrentIndex =>
      if s.index == "" then (db, false)
      else if s.n in v.broken && StatusOf(db, s.index) != Valid
      then (db.(indexes := db.indexes[s.index := Invalid]), false)
      else (Record(db.(indexes := db.indexes[s.index := Valid]), s), true)
    case BatchedDML => if s.n in v.broken then (db, false) else (Record(db, s), true)
    case _ =>
      if !TxSucceeds(v, s) || s.n in db.ledger then (db, false)
      else (db.(ledger := db.ledger[s.n := Sum(s)], commits := db.commits[s.n := Commits(db, s.n) + 1]), true)
  }

  datatype Outcome = Outcome(db: Db, executed: nat, ok: bool)

  /** The steps from k on, those in `applied` skipped unless edited. */
  function StepsOutcome(db: Db, applied: map<int, Sha>, plan: seq<Step>, k: nat, v: Server): Outcome
    requires k <= |plan|
    decreases |plan| - k
  {
    if k == |plan| then Outcome(db, 0, true)
    else if plan[k].n in applied then
      if Edited(applied, plan[k]) then Outcome(db, 0, false) else StepsOutcome(db, applied, plan, k + 1, v)
    else
      var (db', ok) := StepOutcome(db, plan[k], v);
      if !ok then Outcome(db', 0, false)
      else
        var rest := StepsOutcome(db', applied, plan, k + 1, v);
        rest.(executed := rest.executed + 1)
  }

  class SchemaRunner {
    var db: Db

    constructor (db: Db)
      ensures this.db == db
    {
      this.db := db;
    }

    /** The SQL and its ledger row commit together, or not at all. */
    method RunTxDDL(s: Step, v: Server) returns (ok: bool)
      requires Transactional(s)
      modifies this
      ensures (db, ok) == StepOutcome(old(db), s, v)
      ensures ok <==> s.n !in v.broken && s.n !in old(db).ledger && Timeouts(v, s.n) < if s.kind == GuardedDDL then 20 else 1
      ensures ok ==> db.ledger == old(db).ledger[s.n := ShaOf(s.sql)] && Commits(db, s.n) == Commits(old(db), s.n) + 1
      ensures !ok ==> db == old(db)
    {
      for i := 0 to Attempts(s)
        invariant db == old(db) && i <= Timeouts(v, s.n)
      {
        if i < Timeouts(v, s.n) {
          if s.kind != GuardedDDL { return false; }
          continue;
        }
        if s.n in v.broken || s.n in db.ledger { return false; }
        db := db.(commits := db.commits[s.n := Commits(db, s.n) + 1]);
        db := db.(ledger := db.ledger[s.n := Sum(s)]);
        return true;
      }
      return false;
    }

    /** Builds outside any transaction: an invalid leftover is dropped first, a
        valid one is kept and only recorded; a failed build leaves an invalid one. */
    method RunConcurrentIndex(s: Step, v: Server) returns (ok: bool)
      requires s.kind == ConcurrentIndex
      modifies this
      ensures (db, ok) == StepOutcome(old(db), s, v)
      ensures ok <==> s.index != "" && (s.n in v.broken ==> StatusOf(old(db), s.index) == Valid)
      ensures ok ==> StatusOf(db, s.index) == Valid && s.n in db.ledger
      ensures ok ==> db.ledger == if s.n in old(db).ledger then old(db).ledger else old(db).ledger[s.n := ShaOf(s.sql)]
      ensures !ok ==> db.ledger == old(db).ledger && (s.index != "" ==> StatusOf(db, s.index) == Invalid)
      ensures db.commits == old(db).commits && forall x :: x != s.index ==> StatusOf(db, x) == StatusOf(old(db), x)
    {
      if s.index == "" { return false; }
      var status := StatusOf(db, s.index);
      if status == Invalid { db := db.(indexes := db.indexes[s.index := Absent]); }
      if status != Valid {
        if s.n in v.broken {
          db := db.(indexes := db.indexes[s.index := Invalid]);
          assert db.indexes == old(db).indexes[s.index := Invalid];
          return false;
        }
        db := db.(indexes := db.indexes[s.index := Valid]);
      }
      assert db.indexes == old(db).indexes[s.index := Valid];
      db := Record(db, s);
      return true;
    }

    method RunStep(s: Step, v: Server) returns (ok: bool)
      modifies this
      ensures (db, ok) == StepOutcome(old(db), s, v)
    {
      match s.kind
      case ConcurrentIndex => ok := RunConcurrentIndex(s, v);
      case BatchedDML =>
        ok := s.n !in v.broken;
        if ok { db := Record(db, s); }
      case _ => ok := RunTxDDL(s, v);
    }

    method RunSteps(plan: seq<Step>, v: Server) returns (executed: nat, ok: bool)
      modifies this
      ensures Outcome(db, executed, ok) == StepsOutcome(old(db), old(db).ledger, plan, 0, v)
    {
      var applied := db.ledger;
      executed := 0;
      for k := 0 to |plan|
        invariant var rest := StepsOutcome(db, applied, plan, k, v);
          StepsOutcome(old(db), applied, plan, 0, v) == rest.(executed := rest.executed + executed)
      {
        var s := plan[k];
        if s.n in applied {
          if s.kind != BatchedDML && applied[s.n] != Sum(s) { return executed, false; }
          continue;
        }
        var done := RunStep(s, v);
        if !done { return executed, false; }
        executed := executed + 1;
      }
      ok := true;
    }

    /** A plan that fails the check changes nothing; any other runs its steps. */
    method Run(c: Classifier, plan: seq<Step>, v: Server) returns (executed: nat, ok: bool)
      modifies this
      ensures !PlanAllowed(c, plan) ==> !ok && executed == 0 && db == old(db)
      ensures PlanAllowed(c, plan) ==> Outcome(db, executed, ok) == StepsOutcome(old(db), old(db).ledger, plan, 0, v)
      ensures forall full, m, k: nat, i: nat ::
        Distinct(full) && Migrated(old(db), full, m) && i < m && k < |plan| && Rewritten(plan[k], full[i]) ==> !ok && executed <= k
    {
      var allowed := Check(c, plan);
      if !allowed { return 0, false; }
      forall full, m, k: nat, i: nat
        | Distinct(full) && Migrated(db, full, m) && i < m && k < |plan| && Rewritten(plan[k], full[i])
        ensures !StepsOutcome(db, db.ledger, plan, 0, v).ok && StepsOutcome(db, db.ledger, plan, 0, v).executed <= k
      {
        EditedStepStopsRun(db, full, m, plan, k, i, v);
      }
      executed, ok := RunSteps(plan, v);
    }
  }

  // ---- what a run achieves ----

  lemma {:induction false} StepMigrates(db: Db, full: seq<Step>, m: nat, v: Server)
    requires Distinct(full) && Migrated(db, full, m) && m < |full|
    ensures var (db', ok) := StepOutcome(db, full[m], v);
      Migrated(db', full, if ok then m + 1 else m) && (Healthy(v, full[m]) ==> ok)
  {
    var s := full[m];
    LedgerOfMeaning(full, m);
    match s.kind
    case ConcurrentIndex =>
      if s.index != "" {
        if StatusOf(db, s.index) != Valid { IndexMigrates(db, full, m, s.index, Invalid); }
        IndexMigrates(db, full, m, s.index, Valid);
        RecordMigrates(db.(indexes := db.indexes[s.index := Valid]), full, m);
      }
    case BatchedDML => RecordMigrates(db, full, m);
    case _ => CommitMigrates(db, full, m);
  }

  lemma {:induction false} OneStepOutcome(db: Db, full: seq<Step>, m0: nat, plan: seq<Step>, k: nat, v: Server)
    requires Distinct(full) && m0 <= |full| && k < |plan| <= |full| && plan == full[..|plan|]
    ensures plan[k] == full[k]
    ensures k < m0 ==> StepsOutcome(db, LedgerOf(full, m0), plan, k, v) == StepsOutcome(db, LedgerOf(full, m0), plan, k + 1, v)
    ensures k >= m0 ==>
      var (db', ok) := StepOutcome(db, full[k], v);
      var rest := StepsOutcome(db', LedgerOf(full, m0), plan, k + 1, v);
      StepsOutcome(db, LedgerOf(full, m0), plan, k, v) == if ok then rest.(executed := rest.executed + 1) else Outcome(db', 0, false)
  {
    LedgerOfMeaning(full, m0);
  }

  /** A run that started with `at` steps in place left the migration of a prefix,
      and counts what it added to it; a success added all that was missing. */
  ghost predicate Progressed(o: Outcome, full: seq<Step>, at: nat, plan: seq<Step>) {
    && at + o.executed <= Max(at, |plan|) <= |full|
    && Migrated(o.db, full, at + o.executed)
    && (o.ok ==> at + o.executed == Max(at, |plan|))
  }

  predicate AllHealthy(v: Server, plan: seq<Step>, from: nat) {
    forall i :: from <= i < |plan| ==> Healthy(v, plan[i])
  }

  lemma {:induction false} OneMoreProgresses(rest: Outcome, full: seq<Step>, k: nat, plan: seq<Step>)
    requires Progressed(rest, full, k + 1, plan) && k < |plan|
    ensures Progressed(rest.(executed := rest.executed + 1), full, k, plan)
  {
  }

  lemma {:induction false} StoppedProgressed(db: Db, full: seq<Step>, at: nat, plan: seq<Step>)
    requires Migrated(db, full, at) && |plan| <= |full|
    ensures Progressed(Outcome(db, 0, false), full, at, plan)
    ensures |plan| <= at ==> Progressed(Outcome(db, 0, true), full, at, plan)
  {
  }

  /** On a database that holds the first m0 steps, whatever the server does, a run
      leaves the migration of a prefix; where the server lets every missing step
      through, of the whole plan. */
  lemma {:induction false} RunMigrates(db: Db, full: seq<Step>, m0: nat, plan: seq<Step>, k: nat, v: Server)
    requires Distinct(full) && m0 <= |full| && Migrated(db, full, Max(m0, k)) && k <= |plan| <= |full| && plan == full[..|plan|]
    ensures Progressed(StepsOutcome(db, LedgerOf(full, m0), plan, k, v), full, Max(m0, k), plan)
    ensures AllHealthy(v, plan, m0) ==> StepsOutcome(db, LedgerOf(full, m0), plan, k, v).ok
    decreases |plan| - k
  {
    if k == |plan| {
      StoppedProgressed(db, full, Max(m0, k), plan);
    } else {
      OneStepOutcome(db, full, m0, plan, k, v);
      if k < m0 {
        RunMigrates(db, full, m0, plan, k + 1, v);
      } else {
        StepMigrates(db, full, k, v);
        var db' := StepOutcome(db, full[k], v).0;
        if StepOutcome(db, full[k], v).1 {
          RunMigrates(db', full, m0, plan, k + 1, v);
          OneMoreProgresses(StepsOutcome(db', LedgerOf(full, m0), plan, k + 1, v), full, k, plan);
        } else {
          StoppedProgressed(db', full, k, plan);
        }
      }
    }
  }

  lemma {:induction false} NothingMissing(db: Db, full: seq<Step>, m0: nat, plan: seq<Step>, k: nat, v: Server)
    requires Distinct(full) && |plan| <= m0 <= |full| && plan == full[..|plan|] && k <= |plan|
    ensures StepsOutcome(db, LedgerOf(full, m0), plan, k, v) == Outcome(db, 0, true)
    decreases |plan| - k
  {
    if k < |plan| {
      OneStepOutcome(db, full, m0, plan, k, v);
      NothingMissing(db, full, m0, plan, k + 1, v);
    }
  }

  /** Two databases record the same steps and committed them equally often. */
  ghost predicate SameMigration(db: Db, db': Db, full: seq<Step>) {
    && db.ledger == db'.ledger
    && forall s :: s in full && Transactional(s) ==> Commits(db, s.n) == Commits(db', s.n)
  }

  lemma {:induction false} MigratedAgree(db: Db, db': Db, full: seq<Step>, m: nat)
    requires Migrated(db, full, m) && Migrated(db', full, m)
    ensures SameMigration(db, db', full)
  {
    forall s | s in full && Transactional(s) ensures Commits(db, s.n) == Commits(db', s.n) {
      var i :| 0 <= i < |full| && full[i] == s;
    }
  }

  lemma {:induction false} SuccessIsMigrated(db: Db, full: seq<Step>, m: nat, plan: seq<Step>, v: Server)
    requires Distinct(full) && Migrated(db, full, m) && |plan| <= |full| && plan == full[..|plan|]
    ensures var o := StepsOutcome(db, db.ledger, plan, 0, v);
      && m + o.executed <= Max(m, |plan|) && Migrated(o.db, full, m + o.executed)
      && (AllHealthy(v, plan, 0) ==> o.ok) && (o.ok ==> m + o.executed == Max(m, |plan|))
  {
    RunMigrates(db, full, m, plan, 0, v);
  }

  /** However a run ended, running again once the server lets every step through
      completes the plan and leaves the ledger and the commit counts an
      undisturbed run would have left. */
  lemma {:induction false} ResumedRunCompletes(db: Db, full: seq<Step>, m: nat, plan: seq<Step>, v: Server, healthy: Server)
    requires Distinct(full) && Migrated(db, full, m) && |plan| <= |full| && plan == full[..|plan|]
    requires AllHealthy(healthy, plan, 0)
    ensures var first := StepsOutcome(db, db.ledger, plan, 0, v);
      var second := StepsOutcome(first.db, first.db.ledger, plan, 0, healthy);
      var undisturbed := StepsOutcome(db, db.ledger, plan, 0, healthy);
      && second.ok && undisturbed.ok && first.executed + second.executed == undisturbed.executed
      && SameMigration(second.db, undisturbed.db, full)
  {
    var first := StepsOutcome(db, db.ledger, plan, 0, v);
    SuccessIsMigrated(db, full, m, plan, v);
    HealthyCompletes(db, full, m, plan, healthy);
    HealthyCompletes(first.db, full, m + first.executed, plan, healthy);
    MigratedAgree(StepsOutcome(first.db, first.db.ledger, plan, 0, healthy).db,
      StepsOutcome(db, db.ledger, plan, 0, healthy).db, full, Max(m, |plan|));
  }

  lemma {:induction false} HealthyCompletes(db: Db, full: seq<Step>, m: nat, plan: seq<Step>, healthy: Server)
    requires Distinct(full) && Migrated(db, full, m) && |plan| <= |full| && plan == full[..|plan|]
    requires AllHealthy(healthy, plan, 0)
    ensures var o := StepsOutcome(db, db.ledger, plan, 0, healthy);
      o.ok && m + o.executed == Max(m, |plan|) && Migrated(o.db, full, Max(m, |plan|))
  {
    SuccessIsMigrated(db, full, m, plan, healthy);
  }

  /** After a success, running the same plan again executes nothing and changes
      nothing, whatever the server would do. */
  lemma {:induction false} RunAfterSuccessIsNothing(db: Db, full: seq<Step>, m: nat, plan: seq<Step>, v: Server, later: Server)
    requires Distinct(full) && Migrated(db, full, m) && |plan| <= |full| && plan == full[..|plan|]
    requires StepsOutcome(db, db.ledger, plan, 0, v).ok
    ensures var o := StepsOutcome(db, db.ledger, plan, 0, v);
      StepsOutcome(o.db, o.db.ledger, plan, 0, later) == Outcome(o.db, 0, true)
  {
    var o := StepsOutcome(db, db.ledger, plan, 0, v);
    SuccessIsMigrated(db, full, m, plan, v);
    NothingMissing(o.db, full, m + o.executed, plan, 0, later);
  }

  // ---- edited history ----

  /** The plan's step may stand for the recorded one: it is a batched step, which
      has no text, or both have the same SQL. */
  predicate SameText(s: Step, recorded: Step) {
    s.kind == BatchedDML || (recorded.kind != BatchedDML && s.sql == recorded.sql)
  }

  /** The plan's step has the number of the recorded one and SQL of its own, and
      another text. */
  predicate Rewritten(s: Step, recorded: Step) {
    s.n == recorded.n && s.kind != BatchedDML && (recorded.kind == BatchedDML || s.sql != recorded.sql)
  }

  lemma {:induction false} EditedExactly(db: Db, full: seq<Step>, m: nat, s: Step, i: nat)
    requires Distinct(full) && Migrated(db, full, m) && i < m && s.n == full[i].n
    ensures s.n in db.ledger && (Edited(db.ledger, s) <==> !SameText(s, full[i]))
  {
    LedgerOfMeaning(full, m);
  }

  lemma {:induction false} StopsWhereEdited(db: Db, applied: map<int, Sha>, plan: seq<Step>, from: nat, k: nat, v: Server)
    requires from <= k < |plan| && Edited(applied, plan[k])
    ensures var o, head := StepsOutcome(db, applied, plan, from, v), StepsOutcome(db, applied, plan[..k], from, v);
      !o.ok && o.db == head.db && o.executed == head.executed <= k - from
    decreases k - from
  {
    if from < k {
      assert plan[..k][from] == plan[from];
      var db' := if plan[from].n in applied then db else StepOutcome(db, plan[from], v).0;
      StopsWhereEdited(db', applied, plan, from + 1, k, v);
    }
  }

  /** An edited step stops the run: if a step of the plan was applied with another
      text, the run fails and leaves exactly what the plan before that step would
      have left; nothing after it is executed. */
  lemma {:induction false} EditedStepStopsRun(db: Db, full: seq<Step>, m: nat, plan: seq<Step>, k: nat, i: nat, v: Server)
    requires Distinct(full) && Migrated(db, full, m) && i < m && k < |plan| && Rewritten(plan[k], full[i])
    ensures var o, head := StepsOutcome(db, db.ledger, plan, 0, v), StepsOutcome(db, db.ledger, plan[..k], 0, v);
      !o.ok && o.db == head.db && o.executed == head.executed <= k
  {
    EditedExactly(db, full, m, plan[k], i);
    StopsWhereEdited(db, db.ledger, plan, 0, k, v);
  }

  lemma {:induction false} SkipsUnedited(db: Db, applied: map<int, Sha>, plan: seq<Step>, from: nat, k: nat, v: Server)
    requires k < |plan| && from <= |plan| && plan[k].n in applied && !Edited(applied, plan[k])
    ensures var less := plan[..k] + plan[k + 1..];
      StepsOutcome(db, applied, plan, from, v) == StepsOutcome(db, applied, less, if from <= k then from else from - 1, v)
    decreases |plan| - from
  {
    var less := plan[..k] + plan[k + 1..];
    if from < |plan| {
      assert from < k ==> less[from] == plan[from];
      assert from > k ==> less[from - 1] == plan[from];
      var db' := if plan[from].n in applied then db else StepOutcome(db, plan[from], v).0;
      SkipsUnedited(db', applied, plan, from + 1, k, v);
    }
  }

  /** A step applied with the same text is skipped: the run is that of the plan
      without it. */
  lemma {:induction false} UneditedStepIsSkipped(db: Db, full: seq<Step>, m: nat, plan: seq<Step>, k: nat, i: nat, v: Server)
    requires Distinct(full) && Migrated(db, full, m) && i < m && k < |plan| && plan[k].n == full[i].n
    requires plan[k].kind == BatchedDML || (full[i].kind != BatchedDML && plan[k].sql == full[i].sql)
    ensures StepsOutcome(db, db.ledger, plan, 0, v) == StepsOutcome(db, db.ledger, plan[..k] + plan[k + 1..], 0, v)
  {
    EditedExactly(db, full, m, plan[k], i);
    SkipsUnedited(db, db.ledger, plan, 0, k, v);
  }

  lemma {:induction false} HealthyUneditedRuns(db: Db, applied: map<int, Sha>, plan: seq<Step>, k: nat, v: Server)
    requires Distinct(plan) && k <= |plan| && AllHealthy(v, plan, k)
    requires forall j :: k <= j < |plan| ==> !Edited(applied, plan[j])
    requires forall j :: k <= j < |plan| && plan[j].n !in applied ==> plan[j].n !in db.ledger
    ensures StepsOutcome(db, applied, plan, k, v).ok
    decreases |plan| - k
  {
    if k < |plan| {
      if plan[k].n in applied {
        HealthyUneditedRuns(db, applied, plan, k + 1, v);
      } else {
        var (db', ok) := StepOutcome(db, plan[k], v);
        assert ok && db'.ledger.Keys == db.ledger.Keys + {plan[k].n};
        HealthyUneditedRuns(db', applied, plan, k + 1, v);
      }
    }
  }

  /** Where the server lets every step through, a run succeeds exactly when no step
      of the plan was applied with another text. */
  lemma {:induction false} SucceedsExactlyUnedited(db: Db, full: seq<Step>, m: nat, plan: seq<Step>, v: Server)
    requires Distinct(full) && Distinct(plan) && Migrated(db, full, m) && AllHealthy(v, plan, 0)
    ensures StepsOutcome(db, db.ledger, plan, 0, v).ok
      <==> forall k, i :: 0 <= k < |plan| && 0 <= i < m && plan[k].n == full[i].n ==> SameText(plan[k], full[i])
  {
    LedgerOfMeaning(full, m);
    if k, i :| 0 <= k < |plan| && 0 <= i < m && plan[k].n == full[i].n && !SameText(plan[k], full[i]) {
      EditedStepStopsRun(db, full, m, plan, k, i, v);
    } else {
      forall k | 0 <= k < |plan| ensures !Edited(db.ledger, plan[k]) {
        if plan[k].n in db.ledger {
          var i := RecordedStep(full, m, plan[k].n);
          EditedExactly(db, full, m, plan[k], i);
        }
      }
      HealthyUneditedRuns(db, db.ledger, plan, 0, v);
    }
  }

  lemma {:induction false} RecordedStep(full: seq<Step>, m: nat, n: int) returns (i: nat)
    requires m <= |full| && n in LedgerOf(full, m)
    ensures i < m && full[i].n == n
  {
    if full[m - 1].n == n { i := m - 1; } else { i := RecordedStep(full, m - 1, n); }
  }
}
