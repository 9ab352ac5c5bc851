/** One run as the loops of `SchemaRunner` is a schedule of the interleaved model
    in which nobody else takes a step. */
module SchemaRefinement {
  import opened Common
  import opened SchemaStep
  import opened SchemaRuns
  import S = SchemaSafety
  import R = SchemaRunner

  /** Only runner r moves, and it neither boots nor crashes. */
  predicate Alone(acts: seq<Act>, r: RunnerId) {
    forall a :: a in acts ==> a.r == r && !a.Boot? && !a.Crash?
  }

  lemma {:induction false} RunConcat(s: System, a: seq<Act>, b: seq<Act>, full: seq<Step>)
    ensures Run(s, a + b, full) == Run(Run(s, a, full), b, full)
    decreases |a|
  {
    if a == [] {
      assert a + b == b;
    } else {
      assert (a + b)[0] == a[0] && (a + b)[1..] == a[1..] + b;
      RunConcat(Next(s, a[0], full), a[1..], b, full);
    }
  }

  lemma {:induction false} RunOne(s: System, a: Act, full: seq<Step>)
    ensures Run(s, [a], full) == Next(s, a, full)
  {
    assert [a][1..] == [];
  }

  lemma {:induction false} ThenOne(s: System, acts: seq<Act>, a: Act, full: seq<Step>)
    ensures Run(s, acts + [a], full) == Next(Run(s, acts, full), a, full)
  {
    RunConcat(s, acts, [a], full);
    RunOne(Run(s, acts, full), a, full);
  }

  /** The runner holds the lock and stands before step k, which it must execute. */
  ghost predicate Before(s: System, r: RunnerId) {
    && r in s.runners && s.lock == Some(r) && s.runners[r].pc.At? && s.runners[r].pc.attempt == 0
    && s.runners[r].pc.k < |s.runners[r].plan|
  }

  /** What one executed step leaves: the next place, or a failed run that has
      released the lock. */
  function After(s: System, r: RunnerId, db: Db, ok: bool): System
    requires r in s.runners && s.runners[r].pc.At?
  {
    var pc := s.runners[r].pc;
    if ok then Set(s, r, At(pc.applied, pc.k + 1, pc.executed + 1, 0)).(db := db)
    else Set(s, r, Failed).(db := db, lock := None)
  }

  lemma {:induction false} TimedOutAlone(r: RunnerId, n: nat)
    ensures Alone(S.TimedOut(r, n), r)
  {
    if n > 0 { TimedOutAlone(r, n - 1); }
  }

  lemma {:induction false} TimedOutKeepsOthers(s: System, r: RunnerId, full: seq<Step>, n: nat)
    requires r in s.runners
    ensures var t := Run(s, S.TimedOut(r, n), full);
      r in t.runners && t.runners == s.runners[r := s.runners[r].(pc := t.runners[r].pc)]
    decreases n
  {
    S.TimeoutsRun(s, r, full, n);
    if n > 0 { TimedOutKeepsOthers(Next(s, Abort(r, true), full), r, full, n - 1); }
  }

  /** The transaction is tried until it succeeds, fails, or has used its attempts. */
  lemma {:induction false} TransactionRuns(s: System, r: RunnerId, full: seq<Step>, v: R.Server) returns (acts: seq<Act>)
    requires Before(s, r)
    requires var step := s.runners[r].plan[s.runners[r].pc.k];
      Transactional(step) && step.n !in s.runners[r].pc.applied
    ensures Alone(acts, r)
    ensures var (db, ok) := R.StepOutcome(s.db, s.runners[r].plan[s.runners[r].pc.k], v); Run(s, acts, full) == After(s, r, db, ok)
  {
    var pc, step := s.runners[r].pc, s.runners[r].plan[s.runners[r].pc.k];
    var most := if step.kind == GuardedDDL then 20 else 1;
    var n := if R.Timeouts(v, step.n) < most then R.Timeouts(v, step.n) else most;
    acts := S.TimedOut(r, n);
    TimedOutAlone(r, n);
    TimedOutKeepsOthers(s, r, full, n);
    S.GuardGivesUpAtTwenty(s, r, full, n);
    var t := Run(s, acts, full);
    if n < most {
      var last := if step.n in v.broken then Abort(r, false) else Proceed(r);
      ThenOne(s, acts, last, full);
      acts := acts + [last];
    }
  }

  lemma {:induction false} IndexRuns(s: System, r: RunnerId, full: seq<Step>, v: R.Server) returns (acts: seq<Act>)
    requires Before(s, r)
    requires var step := s.runners[r].plan[s.runners[r].pc.k];
      step.kind == ConcurrentIndex && step.n !in s.runners[r].pc.applied && step.index != ""
    ensures Alone(acts, r)
    ensures var (db, ok) := R.StepOutcome(s.db, s.runners[r].plan[s.runners[r].pc.k], v); Run(s, acts, full) == After(s, r, db, ok)
  {
    var pc, step := s.runners[r].pc, s.runners[r].plan[s.runners[r].pc.k];
    var status := StatusOf(s.db, step.index);
    var s1 := Next(s, Proceed(r), full);
    RunOne(s, Proceed(r), full);
    assert s1 == Set(s, r, Probed(pc.applied, pc.k, pc.executed, status));
    if status == Valid {
      assert s.db.indexes[step.index := Valid] == s.db.indexes;
      RecordingRuns(s, s1, r, full, s.db);
      acts := [Proceed(r)] + [Proceed(r), Proceed(r)];
      RunConcat(s, [Proceed(r)], [Proceed(r), Proceed(r)], full);
    } else {
      var built := BuildRuns(s, s1, r, full, v);
      acts := [Proceed(r)] + built;
      RunConcat(s, [Proceed(r)], built, full);
    }
  }

  lemma {:induction false} RecordingRuns(s: System, s1: System, r: RunnerId, full: seq<Step>, db: Db)
    requires Before(s, r)
    requires var pc := s.runners[r].pc; s1 == Set(s, r, Probed(pc.applied, pc.k, pc.executed, Valid)).(db := db)
    ensures var step := s.runners[r].plan[s.runners[r].pc.k];
      Run(s1, [Proceed(r), Proceed(r)], full) == After(s, r, Record(db, step), true)
  {
    assert [Proceed(r), Proceed(r)] == [Proceed(r)] + [Proceed(r)];
    RunOne(s1, Proceed(r), full);
    ThenOne(s1, [Proceed(r)], Proceed(r), full);
  }

  /** The index is being built, whatever was left of it dropped. */
  function UnderWay(s: System, r: RunnerId): System
    requires Before(s, r)
  {
    var pc := s.runners[r].pc;
    Set(s, r, Building(pc.applied, pc.k, pc.executed)).(
      db := s.db.(indexes := s.db.indexes[s.runners[r].plan[pc.k].index := Invalid]))
  }

  lemma {:induction false} BuildStarts(s: System, s1: System, r: RunnerId, full: seq<Step>) returns (acts: seq<Act>)
    requires Before(s, r)
    requires var pc, index := s.runners[r].pc, s.runners[r].plan[s.runners[r].pc.k].index;
      StatusOf(s.db, index) != Valid && s1 == Set(s, r, Probed(pc.applied, pc.k, pc.executed, StatusOf(s.db, index)))
    ensures Alone(acts, r) && Run(s1, acts, full) == UnderWay(s, r)
  {
    var pc, index, ix := s.runners[r].pc, s.runners[r].plan[s.runners[r].pc.k].index, s.db.indexes;
    RunOne(s1, Proceed(r), full);
    acts := [Proceed(r)];
    if StatusOf(s.db, index) == Invalid {
      assert ix[index := SchemaRuns.Absent][index := Invalid] == ix[index := Invalid];
      ThenOne(s1, acts, Proceed(r), full);
      acts := acts + [Proceed(r)];
    }
  }

  lemma {:induction false} BuildEnds(s: System, r: RunnerId, full: seq<Step>, v: R.Server) returns (acts: seq<Act>)
    requires Before(s, r)
    requires var step := s.runners[r].plan[s.runners[r].pc.k];
      step.kind == ConcurrentIndex && step.index != "" && StatusOf(s.db, step.index) != Valid
    ensures Alone(acts, r)
    ensures var (db, ok) := R.StepOutcome(s.db, s.runners[r].plan[s.runners[r].pc.k], v);
      Run(UnderWay(s, r), acts, full) == After(s, r, db, ok)
  {
    var pc, step := s.runners[r].pc, s.runners[r].plan[s.runners[r].pc.k];
    var s3, ix := UnderWay(s, r), s.db.indexes;
    if step.n in v.broken {
      RunOne(s3, Abort(r, false), full);
      acts := [Abort(r, false)];
    } else {
      var db := s.db.(indexes := ix[step.index := Valid]);
      assert ix[step.index := Invalid][step.index := Valid] == ix[step.index := Valid];
      RunOne(s3, Proceed(r), full);
      assert Next(s3, Proceed(r), full) == Set(s, r, Recording(pc.applied, pc.k, pc.executed)).(db := db);
      ThenOne(s3, [Proceed(r)], Proceed(r), full);
      acts := [Proceed(r)] + [Proceed(r)];
    }
  }

  /** An invalid leftover is dropped, the index is built, and recorded. */
  lemma {:induction false} BuildRuns(s: System, s1: System, r: RunnerId, full: seq<Step>, v: R.Server) returns (acts: seq<Act>)
    requires Before(s, r)
    requires var pc, step := s.runners[r].pc, s.runners[r].plan[s.runners[r].pc.k];
      && step.kind == ConcurrentIndex && step.index != "" && StatusOf(s.db, step.index) != Valid
      && s1 == Set(s, r, Probed(pc.applied, pc.k, pc.executed, StatusOf(s.db, step.index)))
    ensures Alone(acts, r)
    ensures var (db, ok) := R.StepOutcome(s.db, s.runners[r].plan[s.runners[r].pc.k], v); Run(s1, acts, full) == After(s, r, db, ok)
  {
    var first := BuildStarts(s, s1, r, full);
    var rest := BuildEnds(s, r, full, v);
    RunConcat(s1, first, rest, full);
    acts := first + rest;
  }

  lemma {:induction false} BatchRuns(s: System, r: RunnerId, full: seq<Step>, v: R.Server) returns (acts: seq<Act>)
    requires Before(s, r)
    requires var step := s.runners[r].plan[s.runners[r].pc.k]; step.kind == BatchedDML && step.n !in s.runners[r].pc.applied
    ensures Alone(acts, r)
    ensures var (db, ok) := R.StepOutcome(s.db, s.runners[r].plan[s.runners[r].pc.k], v); Run(s, acts, full) == After(s, r, db, ok)
  {
    var step := s.runners[r].plan[s.runners[r].pc.k];
    var last := if step.n in v.broken then Abort(r, false) else Proceed(r);
    RunOne(s, Proceed(r), full);
    ThenOne(s, [Proceed(r)], last, full);
    acts := [Proceed(r)] + [last];
  }

  lemma {:induction false} StepRuns(s: System, r: RunnerId, full: seq<Step>, v: R.Server) returns (acts: seq<Act>)
    requires Before(s, r) && s.runners[r].plan[s.runners[r].pc.k].n !in s.runners[r].pc.applied
    ensures Alone(acts, r)
    ensures var (db, ok) := R.StepOutcome(s.db, s.runners[r].plan[s.runners[r].pc.k], v); Run(s, acts, full) == After(s, r, db, ok)
  {
    var step := s.runners[r].plan[s.runners[r].pc.k];
    if Transactional(step) {
      acts := TransactionRuns(s, r, full, v);
    } else if step.kind == BatchedDML {
      acts := BatchRuns(s, r, full, v);
    } else if step.index == "" {
      acts := [Proceed(r)];
      RunOne(s, Proceed(r), full);
    } else {
      acts := IndexRuns(s, r, full, v);
    }
  }

  /** The run is over: it has succeeded or failed, and the lock is free. */
  ghost predicate Over(t: System, r: RunnerId, o: R.Outcome, applied: map<int, Sha>, executed: nat) {
    && t.db == o.db && t.lock == None && r in t.runners
    && t.runners[r].pc == if o.ok then Done(applied, executed + o.executed) else Failed
  }

  lemma {:induction false} StepsRun(s: System, r: RunnerId, full: seq<Step>, v: R.Server) returns (acts: seq<Act>)
    requires r in s.runners && s.lock == Some(r) && s.runners[r].pc.At? && s.runners[r].pc.attempt == 0
    requires s.runners[r].pc.k <= |s.runners[r].plan|
    ensures Alone(acts, r)
    ensures var pc := s.runners[r].pc;
      Over(Run(s, acts, full), r, R.StepsOutcome(s.db, pc.applied, s.runners[r].plan, pc.k, v), pc.applied, pc.executed)
    decreases |s.runners[r].plan| - s.runners[r].pc.k
  {
    var pc, plan := s.runners[r].pc, s.runners[r].plan;
    var first := [Proceed(r)];
    RunOne(s, Proceed(r), full);
    if pc.k < |plan| && plan[pc.k].n !in pc.applied {
      first := StepRuns(s, r, full, v);
    }
    var t := Run(s, first, full);
    acts := first;
    if t.runners[r].pc.At? {
      var rest := StepsRun(t, r, full, v);
      RunConcat(s, first, rest, full);
      acts := first + rest;
    }
  }

  /** For any plan, whatever the server does to its statements, the run of the loops
      is what the interleaved model does when one runner takes the lock and is left
      alone: the same database, the same count, the same verdict, the lock free. */
  lemma {:induction false} UninterruptedRun(s: System, r: RunnerId, full: seq<Step>, v: R.Server) returns (acts: seq<Act>)
    requires r in s.runners && s.runners[r].pc.Waiting? && s.lock.None?
    ensures Alone(acts, r)
    ensures Over(Run(s, acts, full), r, R.StepsOutcome(s.db, s.db.ledger, s.runners[r].plan, 0, v), s.db.ledger, 0)
  {
    var s1 := Next(s, TryLock(r), full);
    var s2 := Next(s1, Proceed(r), full);
    RunOne(s, TryLock(r), full);
    ThenOne(s, [TryLock(r)], Proceed(r), full);
    var rest := StepsRun(s2, r, full, v);
    RunConcat(s, [TryLock(r)] + [Proceed(r)], rest, full);
    acts := [TryLock(r)] + [Proceed(r)] + rest;
  }

  /** A first boot on a fresh database, left alone by a server that lets every step
      through, executes the whole plan. */
  lemma {:induction false} FirstBootCompletes(r: RunnerId, full: seq<Step>, v: R.Server) returns (acts: seq<Act>)
    requires Distinct(full) && R.AllHealthy(v, full, 0)
    ensures var t := Run(System(Db(map[], map[], map[]), None, map[]), [Boot(r, |full|)] + acts, full);
      && r in t.runners && t.runners[r].pc == Done(map[], |full|) && t.lock == None
      && Migrated(t.db, full, |full|)
  {
    var s := System(Db(map[], map[], map[]), None, map[]);
    var s1 := Next(s, Boot(r, |full|), full);
    assert full[..|full|] == full && s1.runners[r] == Runner(full, Waiting);
    RunOne(s, Boot(r, |full|), full);
    acts := UninterruptedRun(s1, r, full, v);
    RunConcat(s, [Boot(r, |full|)], acts, full);
    R.HealthyCompletes(s.db, full, 0, full, v);
  }
}
