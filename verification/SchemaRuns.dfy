/** The migration runner as the statements it issues: runners of one package
    compete for the session lock, crash between statements and resume from the
    ledger (internal/schemastep/schemastep.go). */
module SchemaRuns {
  import opened Common
  import opened SchemaStep

  type RunnerId = nat

  const GUARD_ATTEMPTS := 20

  datatype IndexStatus = Absent | Invalid | Valid

  /** The ledger of the package, how often each step's SQL was committed, and the
      indexes that concurrent steps build. */
  datatype Db = Db(ledger: map<int, Sha>, commits: map<int, nat>, indexes: map<string, IndexStatus>)

  /** Where a runner stands. With `applied`, what it read of the ledger, and the
      number of steps it has executed. */
  datatype Pc =
    | Waiting
    | Reading
    | At(applied: map<int, Sha>, k: nat, executed: nat, attempt: nat)
    | Probed(applied: map<int, Sha>, k: nat, executed: nat, status: IndexStatus)
    | Building(applied: map<int, Sha>, k: nat, executed: nat)
    | Recording(applied: map<int, Sha>, k: nat, executed: nat)
    | Done(applied: map<int, Sha>, executed: nat)
    | Failed

  datatype Runner = Runner(plan: seq<Step>, pc: Pc)

  datatype System = System(db: Db, lock: Option<RunnerId>, runners: map<RunnerId, Runner>)

  datatype Act =
    | Boot(r: RunnerId, steps: nat)
    | TryLock(r: RunnerId)
    | Proceed(r: RunnerId)
    | Abort(r: RunnerId, lockTimeout: bool)
    | Crash(r: RunnerId)

  /** What the ledger records of a step: a batched one has no SQL to hash, the hash
      of any other stands for its text. */
  datatype Sha = NoSql | ShaOf(sql: string)

  function Sum(s: Step): Sha {
    if s.kind == BatchedDML then NoSql else ShaOf(s.sql)
  }

  function StatusOf(db: Db, index: string): IndexStatus {
    if index in db.indexes then db.indexes[index] else Absent
  }

  function Commits(db: Db, n: int): nat {
    if n in db.commits then db.commits[n] else 0
  }

  /** The lock is held from the moment it is taken until the run returns. */
  predicate Working(pc: Pc) {
    !pc.Waiting? && !pc.Done? && !pc.Failed?
  }

  function Set(s: System, r: RunnerId, pc: Pc): System
    requires r in s.runners
  {
    s.(runners := s.runners[r := s.runners[r].(pc := pc)])
  }

  /** The run returns, and its deferred unlock runs. */
  function Return(s: System, r: RunnerId, pc: Pc): System
    requires r in s.runners
  {
    Set(s, r, pc).(lock := if s.lock == Some(r) then None else s.lock)
  }

  function Record(db: Db, s: Step): Db {
    if s.n in db.ledger then db else db.(ledger := db.ledger[s.n := Sum(s)])
  }

  /** The next statement for step k, which the ledger read at the start lacks. */
  function BeginStep(s: System, r: RunnerId, pc: Pc, step: Step): System
    requires r in s.runners && pc.At?
  {
    match step.kind
    case ConcurrentIndex =>
      if step.index == "" then Return(s, r, Failed)
      else Set(s, r, Probed(pc.applied, pc.k, pc.executed, StatusOf(s.db, step.index)))
    case BatchedDML => Set(s, r, Recording(pc.applied, pc.k, pc.executed))
    case _ =>
      // one transaction: the SQL and its ledger row
      if step.n in s.db.ledger then Return(s, r, Failed)
      else
        var db := s.db.(ledger := s.db.ledger[step.n := Sum(step)], commits := s.db.commits[step.n := Commits(s.db, step.n) + 1]);
        Set(s, r, At(pc.applied, pc.k + 1, pc.executed + 1, 0)).(db := db)
  }

  function Advance(s: System, r: RunnerId): System
    requires r in s.runners
  {
    var plan, pc := s.runners[r].plan, s.runners[r].pc;
    match pc
    case Reading => Set(s, r, At(s.db.ledger, 0, 0, 0))
    case At(applied, k, executed, _) =>
      if k >= |plan| then Return(s, r, Done(applied, executed))
      else if plan[k].n !in applied then BeginStep(s, r, pc, plan[k])
      else if plan[k].kind != BatchedDML && applied[plan[k].n] != Sum(plan[k]) then Return(s, r, Failed)
      else Set(s, r, At(applied, k + 1, executed, 0))
    case Probed(applied, k, executed, status) =>
      if k >= |plan| then s
      else (
        match status
        case Invalid => Set(s, r, Probed(applied, k, executed, Absent)).(db := s.db.(indexes := s.db.indexes[plan[k].index := Absent]))
        case Absent => Set(s, r, Building(applied, k, executed)).(db := s.db.(indexes := s.db.indexes[plan[k].index := Invalid]))
        case Valid => Set(s, r, Recording(applied, k, executed)))
    case Building(applied, k, executed) =>
      if k >= |plan| then s
      else Set(s, r, Recording(applied, k, executed)).(db := s.db.(indexes := s.db.indexes[plan[k].index := Valid]))
    case Recording(applied, k, executed) =>
      if k >= |plan| then s
      else Set(s, r, At(applied, k + 1, executed + 1, 0)).(db := Record(s.db, plan[k]))
    case _ => s
  }

  /** A statement fails and its transaction rolls back. Only a guarded step that
      timed out on its lock is tried again, twenty times in all. */
  function Fail(s: System, r: RunnerId, lockTimeout: bool): System
    requires r in s.runners
  {
    var plan, pc := s.runners[r].plan, s.runners[r].pc;
    if !Working(pc) then s
    else if lockTimeout && pc.At? && pc.k < |plan| && plan[pc.k].kind == GuardedDDL && pc.attempt + 1 < GUARD_ATTEMPTS
    then Set(s, r, pc.(attempt := pc.attempt + 1))
    else Return(s, r, Failed)
  }

  /** One step of any runner; every runner's plan is a prefix of `full`, the plan
      of the newest release. */
  function Next(s: System, a: Act, full: seq<Step>): System {
    match a
    case Boot(r, steps) =>
      if r in s.runners || steps > |full| then s else s.(runners := s.runners[r := Runner(full[..steps], Waiting)])
    case TryLock(r) =>
      if r in s.runners && s.runners[r].pc.Waiting? && s.lock.None? then Set(s, r, Reading).(lock := Some(r)) else s
    case Proceed(r) => if r in s.runners then Advance(s, r) else s
    case Abort(r, lockTimeout) => if r in s.runners then Fail(s, r, lockTimeout) else s
    case Crash(r) => s.(runners := s.runners - {r}, lock := if s.lock == Some(r) then None else s.lock)
  }

  function Run(s: System, acts: seq<Act>, full: seq<Step>): System
    decreases |acts|
  {
    if acts == [] then s else Run(Next(s, acts[0], full), acts[1..], full)
  }

  // ---- what every step keeps ----

  ghost predicate Distinct(full: seq<Step>) {
    forall i, j :: 0 <= i < j < |full| ==> full[i].n != full[j].n
  }

  function LedgerOf(full: seq<Step>, m: nat): map<int, Sha>
    requires m <= |full|
  {
    if m == 0 then map[] else LedgerOf(full, m - 1)[full[m - 1].n := Sum(full[m - 1])]
  }

  predicate Transactional(s: Step) {
    s.kind == TxDDL || s.kind == GuardedDDL
  }

  /** The database after exactly the first m steps of the plan: the ledger is that
      prefix, each transactional step was committed once if it is in the prefix
      and never if not, and every index the prefix builds is valid. */
  ghost predicate Migrated(db: Db, full: seq<Step>, m: nat) {
    && m <= |full| && db.ledger == LedgerOf(full, m)
    && (forall i :: 0 <= i < |full| && Transactional(full[i]) ==> Commits(db, full[i].n) == if i < m then 1 else 0)
    && (forall i :: 0 <= i < m && full[i].kind == ConcurrentIndex ==> StatusOf(db, full[i].index) == Valid)
  }

  /** What a runner holds agrees with the database: it read the first |applied|
      steps, stands at step k, and has executed what was missing before it. */
  ghost predicate Placed(db: Db, full: seq<Step>, m: nat, runner: Runner) {
    && |runner.plan| <= |full| && runner.plan == full[..|runner.plan|]
    && match runner.pc
       case At(applied, k, executed, _) =>
         && Read(full, m, applied) && k <= |runner.plan|
         && m == Max(|applied|, k) && executed == Max(0, k - |applied|)
       case Probed(applied, k, executed, status) =>
         && AtMissing(full, m, runner, applied, k, executed)
         && full[k].kind == ConcurrentIndex && status == StatusOf(db, full[k].index)
       case Building(applied, k, executed) =>
         AtMissing(full, m, runner, applied, k, executed)
         && full[k].kind == ConcurrentIndex && StatusOf(db, full[k].index) == Invalid
       case Recording(applied, k, executed) =>
         && AtMissing(full, m, runner, applied, k, executed) && !Transactional(full[k])
         && (full[k].kind == ConcurrentIndex ==> StatusOf(db, full[k].index) == Valid)
       case Done(applied, executed) =>
         Read(full, m, applied) && |runner.plan| <= m && executed == Max(0, |runner.plan| - |applied|)
       case _ => true
  }

  function Max(a: int, b: int): int {
    if a < b then b else a
  }

  ghost predicate Read(full: seq<Step>, m: nat, applied: map<int, Sha>) {
    |applied| <= m <= |full| && applied == LedgerOf(full, |applied|)
  }

  ghost predicate AtMissing(full: seq<Step>, m: nat, runner: Runner, applied: map<int, Sha>, k: nat, executed: nat) {
    Read(full, m, applied) && |applied| <= k == m && k < |runner.plan| && executed == k - |applied|
  }

  /** Exactly the lock's holder is at work. */
  ghost predicate Exclusive(s: System) {
    && (forall r :: r in s.runners && Working(s.runners[r].pc) ==> s.lock == Some(r))
    && (s.lock.Some? ==> s.lock.value in s.runners && Working(s.runners[s.lock.value].pc))
  }

  ghost predicate Inv(s: System, full: seq<Step>, m: nat) {
    && Migrated(s.db, full, m) && Exclusive(s)
    && forall r :: r in s.runners ==> Placed(s.db, full, m, s.runners[r])
  }

  lemma {:induction false} LedgerOfMeaning(full: seq<Step>, m: nat)
    requires Distinct(full) && m <= |full|
    ensures |LedgerOf(full, m)| == m
    ensures forall i :: 0 <= i < |full| ==> (full[i].n in LedgerOf(full, m) <==> i < m)
    ensures forall i :: 0 <= i < m ==> LedgerOf(full, m)[full[i].n] == Sum(full[i])
  {
    if m > 0 {
      LedgerOfMeaning(full, m - 1);
      var before := LedgerOf(full, m - 1);
      assert full[m - 1].n !in before;
      assert LedgerOf(full, m).Keys == before.Keys + {full[m - 1].n};
    }
  }

  lemma {:induction false} LaterStepStaysPlaced(db: Db, db': Db, full: seq<Step>, m: nat, m': nat, runner: Runner)
    requires Placed(db, full, m, runner) && !Working(runner.pc) && m <= m' <= |full|
    ensures Placed(db', full, m', runner)
  {
  }

  lemma {:induction false} CommitMigrates(db: Db, full: seq<Step>, m: nat)
    requires Distinct(full) && Migrated(db, full, m) && m < |full| && Transactional(full[m])
    ensures var n := full[m].n;
      Migrated(db.(ledger := db.ledger[n := Sum(full[m])], commits := db.commits[n := Commits(db, n) + 1]), full, m + 1)
  {
    var n := full[m].n;
    var db' := db.(ledger := db.ledger[n := Sum(full[m])], commits := db.commits[n := Commits(db, n) + 1]);
    assert db'.ledger == LedgerOf(full, m + 1);
    forall i | 0 <= i < |full| && Transactional(full[i]) ensures Commits(db', full[i].n) == if i < m + 1 then 1 else 0 {
      if i != m { assert full[i].n != n; }
    }
  }

  lemma {:induction false} RecordMigrates(db: Db, full: seq<Step>, m: nat)
    requires Distinct(full) && Migrated(db, full, m) && m < |full| && !Transactional(full[m])
    requires full[m].kind == ConcurrentIndex ==> StatusOf(db, full[m].index) == Valid
    ensures Migrated(Record(db, full[m]), full, m + 1)
  {
    LedgerOfMeaning(full, m);
    assert Record(db, full[m]).ledger == LedgerOf(full, m + 1);
  }

  lemma {:induction false} IndexMigrates(db: Db, full: seq<Step>, m: nat, index: string, status: IndexStatus)
    requires Migrated(db, full, m) && (status == Valid || StatusOf(db, index) != Valid)
    ensures Migrated(db.(indexes := db.indexes[index := status]), full, m)
  {
    var db' := db.(indexes := db.indexes[index := status]);
    forall i | 0 <= i < m && full[i].kind == ConcurrentIndex ensures StatusOf(db', full[i].index) == Valid {
      assert StatusOf(db, full[i].index) == Valid;
    }
    assert forall n :: Commits(db', n) == Commits(db, n);
  }

  /** The runner at work takes the migration at most one step further, and the
      database is again that of a prefix. */
  lemma {:induction false} AdvanceMigrates(s: System, r: RunnerId, full: seq<Step>, m: nat) returns (m': nat)
    requires Distinct(full) && Migrated(s.db, full, m) && r in s.runners && Placed(s.db, full, m, s.runners[r])
    ensures m <= m' <= m + 1 && Migrated(Advance(s, r).db, full, m')
    ensures Placed(Advance(s, r).db, full, m', Advance(s, r).runners[r])
  {
    var plan, pc := s.runners[r].plan, s.runners[r].pc;
    m' := m;
    match pc
    case Reading => LedgerOfMeaning(full, m);
    case At(applied, k, executed, _) => m' := AtMigrates(s, r, full, m);
    case Probed(_, _, _, _) => ProbedMigrates(s, r, full, m);
    case Building(_, _, _) => BuildingMigrates(s, r, full, m);
    case Recording(_, _, _) =>
      RecordingMigrates(s, r, full, m);
      m' := m + 1;
    case _ =>
  }

  lemma {:induction false} ProbedMigrates(s: System, r: RunnerId, full: seq<Step>, m: nat)
    requires Migrated(s.db, full, m) && r in s.runners && Placed(s.db, full, m, s.runners[r]) && s.runners[r].pc.Probed?
    ensures Migrated(Advance(s, r).db, full, m) && Placed(Advance(s, r).db, full, m, Advance(s, r).runners[r])
  {
    var pc := s.runners[r].pc;
    assert s.runners[r].plan[pc.k] == full[pc.k];
    if pc.status == Invalid { IndexMigrates(s.db, full, m, full[pc.k].index, Absent); }
    if pc.status == Absent { IndexMigrates(s.db, full, m, full[pc.k].index, Invalid); }
  }

  lemma {:induction false} BuildingMigrates(s: System, r: RunnerId, full: seq<Step>, m: nat)
    requires Migrated(s.db, full, m) && r in s.runners && Placed(s.db, full, m, s.runners[r]) && s.runners[r].pc.Building?
    ensures Migrated(Advance(s, r).db, full, m) && Placed(Advance(s, r).db, full, m, Advance(s, r).runners[r])
  {
    var pc := s.runners[r].pc;
    assert s.runners[r].plan[pc.k] == full[pc.k];
    IndexMigrates(s.db, full, m, full[pc.k].index, Valid);
  }

  lemma {:induction false} RecordingMigrates(s: System, r: RunnerId, full: seq<Step>, m: nat)
    requires Distinct(full) && Migrated(s.db, full, m) && r in s.runners && Placed(s.db, full, m, s.runners[r])
    requires s.runners[r].pc.Recording?
    ensures Migrated(Advance(s, r).db, full, m + 1) && Placed(Advance(s, r).db, full, m + 1, Advance(s, r).runners[r])
  {
    var pc := s.runners[r].pc;
    assert s.runners[r].plan[pc.k] == full[pc.k];
    RecordMigrates(s.db, full, m);
  }

  lemma {:induction false} AtMigrates(s: System, r: RunnerId, full: seq<Step>, m: nat) returns (m': nat)
    requires Distinct(full) && Migrated(s.db, full, m) && r in s.runners && Placed(s.db, full, m, s.runners[r])
    requires s.runners[r].pc.At?
    ensures m <= m' <= m + 1 && Migrated(Advance(s, r).db, full, m')
    ensures Placed(Advance(s, r).db, full, m', Advance(s, r).runners[r])
  {
    var plan, pc := s.runners[r].plan, s.runners[r].pc;
    m' := m;
    if pc.k < |plan| {
      assert plan[pc.k] == full[pc.k];
      LedgerOfMeaning(full, |pc.applied|);
      if plan[pc.k].n !in pc.applied {
        LedgerOfMeaning(full, m);
        assert Advance(s, r) == BeginStep(s, r, pc, full[pc.k]);
        m' := BeginMigrates(s, r, full, m);
      }
    }
  }

  lemma {:induction false} BeginMigrates(s: System, r: RunnerId, full: seq<Step>, m: nat) returns (m': nat)
    requires Distinct(full) && Migrated(s.db, full, m) && r in s.runners && Placed(s.db, full, m, s.runners[r])
    requires s.runners[r].pc.At? && s.runners[r].pc.k == m < |s.runners[r].plan| && full[m].n !in s.db.ledger
    ensures m <= m' <= m + 1 && Migrated(BeginStep(s, r, s.runners[r].pc, full[m]).db, full, m')
    ensures Placed(BeginStep(s, r, s.runners[r].pc, full[m]).db, full, m', BeginStep(s, r, s.runners[r].pc, full[m]).runners[r])
  {
    m' := m;
    if Transactional(full[m]) {
      CommitMigrates(s.db, full, m);
      CommitPlaces(s, r, full, m);
      m' := m + 1;
    } else {
      OtherPlaces(s, r, full, m);
    }
  }

  lemma {:induction false} CommitPlaces(s: System, r: RunnerId, full: seq<Step>, m: nat)
    requires r in s.runners && Placed(s.db, full, m, s.runners[r])
    requires s.runners[r].pc.At? && s.runners[r].pc.k == m < |s.runners[r].plan|
    requires full[m].n !in s.db.ledger && Transactional(full[m])
    ensures var s' := BeginStep(s, r, s.runners[r].pc, full[m]); Placed(s'.db, full, m + 1, s'.runners[r])
  {
  }

  lemma {:induction false} OtherPlaces(s: System, r: RunnerId, full: seq<Step>, m: nat)
    requires r in s.runners && Placed(s.db, full, m, s.runners[r])
    requires s.runners[r].pc.At? && s.runners[r].pc.k == m < |s.runners[r].plan| && !Transactional(full[m])
    ensures var s' := BeginStep(s, r, s.runners[r].pc, full[m]); s'.db == s.db && Placed(s'.db, full, m, s'.runners[r])
  {
  }
}
