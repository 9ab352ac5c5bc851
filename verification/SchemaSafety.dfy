/** What the migration guarantees over every run of competing, crashing runners. */
module SchemaSafety {
  import opened Common
  import opened SchemaStep
  import opened SchemaRuns

  // ---- one runner at a time ----

  lemma {:induction false} AdvanceFrame(s: System, r: RunnerId)
    requires r in s.runners
    ensures var s' := Advance(s, r);
      s'.runners.Keys == s.runners.Keys && s'.runners[r].plan == s.runners[r].plan
      && forall o :: o in s.runners && o != r ==> s'.runners[o] == s.runners[o]
  {
  }

  lemma {:induction false} IdleAdvance(s: System, r: RunnerId)
    requires r in s.runners && !Working(s.runners[r].pc)
    ensures Advance(s, r) == s
  {
  }

  lemma {:induction false} AdvanceLock(s: System, r: RunnerId)
    requires r in s.runners && Working(s.runners[r].pc) && s.lock == Some(r)
    ensures Advance(s, r).lock == if Working(Advance(s, r).runners[r].pc) then Some(r) else None
  {
  }

  lemma {:induction false} AdvanceKeepsExclusive(s: System, r: RunnerId)
    requires r in s.runners && Exclusive(s)
    ensures Exclusive(Advance(s, r))
  {
    AdvanceFrame(s, r);
    if Working(s.runners[r].pc) {
      AdvanceLock(s, r);
      assert forall o :: o in s.runners && o != r ==> !Working(s.runners[o].pc);
    } else {
      IdleAdvance(s, r);
    }
  }

  lemma {:induction false} AdvanceKeepsInv(s: System, r: RunnerId, full: seq<Step>, m: nat) returns (m': nat)
    requires Distinct(full) && Inv(s, full, m) && r in s.runners
    ensures m <= m' <= m + 1 && Inv(Advance(s, r), full, m')
  {
    m' := m;
    if Working(s.runners[r].pc) {
      m' := AdvanceMigrates(s, r, full, m);
      var s' := Advance(s, r);
      AdvanceFrame(s, r);
      AdvanceKeepsExclusive(s, r);
      forall o | o in s'.runners ensures Placed(s'.db, full, m', s'.runners[o]) {
        if o != r { LaterStepStaysPlaced(s.db, s'.db, full, m, m', s.runners[o]); }
      }
    } else {
      IdleAdvance(s, r);
    }
  }

  lemma {:induction false} FailKeepsInv(s: System, r: RunnerId, lockTimeout: bool, full: seq<Step>, m: nat)
    requires Inv(s, full, m) && r in s.runners
    ensures Inv(Fail(s, r, lockTimeout), full, m)
  {
    var s' := Fail(s, r, lockTimeout);
    forall o | o in s'.runners ensures Placed(s'.db, full, m, s'.runners[o]) {
      assert Placed(s.db, full, m, s.runners[o]);
    }
  }

  lemma {:induction false} CrashKeepsInv(s: System, r: RunnerId, full: seq<Step>, m: nat)
    requires Inv(s, full, m)
    ensures Inv(Next(s, Crash(r), full), full, m)
  {
  }

  lemma {:induction false} StartKeepsInv(s: System, a: Act, full: seq<Step>, m: nat)
    requires Inv(s, full, m) && (a.Boot? || a.TryLock?)
    ensures Inv(Next(s, a, full), full, m)
  {
    var s' := Next(s, a, full);
    forall o | o in s'.runners ensures Placed(s'.db, full, m, s'.runners[o]) {
      if o in s.runners { assert Placed(s.db, full, m, s.runners[o]); }
    }
  }

  lemma {:induction false} NextKeepsInv(s: System, a: Act, full: seq<Step>, m: nat) returns (m': nat)
    requires Distinct(full) && Inv(s, full, m)
    ensures m <= m' <= m + 1 && Inv(Next(s, a, full), full, m')
  {
    m' := m;
    match a
    case Boot(_, _) => StartKeepsInv(s, a, full, m);
    case TryLock(_) => StartKeepsInv(s, a, full, m);
    case Proceed(r) => if r in s.runners { m' := AdvanceKeepsInv(s, r, full, m); }
    case Abort(r, lockTimeout) => if r in s.runners { FailKeepsInv(s, r, lockTimeout, full, m); }
    case Crash(r) => CrashKeepsInv(s, r, full, m);
  }

  /** For any interleaving of runners of one plan and any crashes, the database is
      at every moment the migration of a prefix of the plan, which only grows: the
      ledger is that prefix, each transactional step is committed once exactly
      when it is recorded, and a recorded concurrent index is valid; and at most
      one runner is at work, the one that holds the lock. */
  lemma {:induction false} LedgerIsAlwaysAPrefix(s: System, acts: seq<Act>, full: seq<Step>, m: nat) returns (m': nat)
    requires Distinct(full) && Inv(s, full, m)
    ensures m <= m' <= m + |acts| && Inv(Run(s, acts, full), full, m')
    decreases |acts|
  {
    m' := m;
    if acts != [] {
      m' := NextKeepsInv(s, acts[0], full, m);
      m' := LedgerIsAlwaysAPrefix(Next(s, acts[0], full), acts[1..], full, m');
    }
  }

  /** So it is from the first boot on: whatever runs on a fresh database, its
      ledger is a prefix of the plan, no longer than the run. */
  lemma {:induction false} FreshDatabaseMigrates(acts: seq<Act>, full: seq<Step>) returns (m: nat)
    requires Distinct(full)
    ensures m <= |acts| && Inv(Run(System(Db(map[], map[], map[]), None, map[]), acts, full), full, m)
  {
    m := LedgerIsAlwaysAPrefix(System(Db(map[], map[], map[]), None, map[]), acts, full, 0);
  }

  // ---- the guard ----

  function TimedOut(r: RunnerId, n: nat): seq<Act> {
    if n == 0 then [] else [Abort(r, true)] + TimedOut(r, n - 1)
  }

  lemma {:induction false} TimeoutsRun(s: System, r: RunnerId, full: seq<Step>, n: nat)
    ensures n > 0 ==> Run(s, TimedOut(r, n), full) == Run(Next(s, Abort(r, true), full), TimedOut(r, n - 1), full)
  {
    if n > 0 { assert TimedOut(r, n)[1..] == TimedOut(r, n - 1); }
  }

  lemma {:induction false} FailedStays(s: System, r: RunnerId, full: seq<Step>, n: nat)
    requires r in s.runners && s.runners[r].pc.Failed?
    ensures Run(s, TimedOut(r, n), full) == s
    decreases n
  {
    TimeoutsRun(s, r, full, n);
    if n > 0 { FailedStays(s, r, full, n - 1); }
  }

  /** A guarded step survives nineteen lock timeouts and gives up, and releases the
      lock, at the twentieth; any other transactional step at the first. */
  lemma {:induction false} GuardGivesUpAtTwenty(s: System, r: RunnerId, full: seq<Step>, n: nat)
    requires r in s.runners && s.lock == Some(r) && s.runners[r].pc.At? && s.runners[r].pc.k < |s.runners[r].plan|
    requires var step := s.runners[r].plan[s.runners[r].pc.k]; Transactional(step)
    ensures var t, pc := Run(s, TimedOut(r, n), full), s.runners[r].pc;
      var left := if s.runners[r].plan[pc.k].kind == GuardedDDL && pc.attempt < 20 then 20 - pc.attempt else 1;
      && t.db == s.db && r in t.runners
      && (n < left ==> t.lock == Some(r) && t.runners[r].pc == pc.(attempt := pc.attempt + n))
      && (n >= left ==> t.lock == None && t.runners[r].pc.Failed?)
    decreases n
  {
    TimeoutsRun(s, r, full, n);
    if n > 0 {
      var s' := Next(s, Abort(r, true), full);
      if s'.runners[r].pc.Failed? {
        FailedStays(s', r, full, n - 1);
      } else {
        GuardGivesUpAtTwenty(s', r, full, n - 1);
      }
    }
  }

  // ---- success is final ----

  function AppliedBy(pc: Pc): Option<map<int, Sha>> {
    match pc
    case At(applied, _, _, _) => Some(applied)
    case Probed(applied, _, _, _) => Some(applied)
    case Building(applied, _, _) => Some(applied)
    case Recording(applied, _, _) => Some(applied)
    case Done(applied, _) => Some(applied)
    case _ => None
  }

  /** Runner b read the ledger, if it has, when it held at least `found` steps. */
  ghost predicate ReadsAtLeast(s: System, b: RunnerId, found: nat) {
    b in s.runners && AppliedBy(s.runners[b].pc).Some? ==> |AppliedBy(s.runners[b].pc).value| >= found
  }

  lemma {:induction false} NextReadsAtLeast(s: System, a: Act, full: seq<Step>, m: nat, b: RunnerId, found: nat)
    requires Distinct(full) && Inv(s, full, m) && m >= found && ReadsAtLeast(s, b, found)
    ensures ReadsAtLeast(Next(s, a, full), b, found)
  {
    LedgerOfMeaning(full, m);
    if a.Proceed? && a.r in s.runners {
      AdvanceFrame(s, a.r);
      if a.r == b { AdvanceReads(s, b, full, m, found); }
    }
  }

  lemma {:induction false} AdvanceReads(s: System, b: RunnerId, full: seq<Step>, m: nat, found: nat)
    requires |s.db.ledger| >= found && b in s.runners && ReadsAtLeast(s, b, found)
    ensures ReadsAtLeast(Advance(s, b), b, found)
  {
    AdvanceKeepsApplied(s, b);
  }

  /** What a runner read of the ledger it keeps; only its first read sets it. */
  lemma {:induction false} AdvanceKeepsApplied(s: System, b: RunnerId)
    requires b in s.runners
    ensures var pc, pc' := s.runners[b].pc, Advance(s, b).runners[b].pc;
      AppliedBy(pc').None? || AppliedBy(pc') == AppliedBy(pc) || AppliedBy(pc') == Some(s.db.ledger)
  {
  }

  lemma {:induction false} RunReadsAtLeast(s: System, acts: seq<Act>, full: seq<Step>, m: nat, b: RunnerId, found: nat)
    requires Distinct(full) && Inv(s, full, m) && m >= found && ReadsAtLeast(s, b, found)
    ensures ReadsAtLeast(Run(s, acts, full), b, found)
    decreases |acts|
  {
    if acts != [] {
      NextReadsAtLeast(s, acts[0], full, m, b, found);
      var m' := NextKeepsInv(s, acts[0], full, m);
      RunReadsAtLeast(Next(s, acts[0], full), acts[1..], full, m', b, found);
    }
  }

  /** After a runner has succeeded, every runner that boots later with the same or
      an older plan and succeeds has executed no step. */
  lemma {:induction false} SecondRunExecutesNothing(s: System, acts: seq<Act>, full: seq<Step>, m: nat, a: RunnerId, b: RunnerId)
    requires Distinct(full) && Inv(s, full, m)
    requires a in s.runners && s.runners[a].pc.Done? && b !in s.runners
    ensures var s' := Run(s, acts, full);
      b in s'.runners && s'.runners[b].pc.Done? && |s'.runners[b].plan| <= |s.runners[a].plan| ==>
        s'.runners[b].pc.executed == 0
  {
    var found := |s.runners[a].plan|;
    assert Placed(s.db, full, m, s.runners[a]);
    RunReadsAtLeast(s, acts, full, m, b, found);
    var m' := LedgerIsAlwaysAPrefix(s, acts, full, m);
    var s' := Run(s, acts, full);
    if b in s'.runners && s'.runners[b].pc.Done? {
      assert Placed(s'.db, full, m', s'.runners[b]);
    }
  }

  /** A success means the whole plan is in the database: its last statement cannot
      be followed by an unrecorded step. */
  lemma {:induction false} SuccessIsComplete(s: System, full: seq<Step>, m: nat, a: RunnerId, i: nat)
    requires Distinct(full) && Inv(s, full, m) && a in s.runners && s.runners[a].pc.Done? && i < |s.runners[a].plan|
    ensures var step := s.runners[a].plan[i];
      && step.n in s.db.ledger && s.db.ledger[step.n] == Sum(step)
      && (Transactional(step) ==> Commits(s.db, step.n) == 1)
      && (step.kind == ConcurrentIndex ==> StatusOf(s.db, step.index) == Valid)
  {
    assert Placed(s.db, full, m, s.runners[a]);
    LedgerOfMeaning(full, m);
    assert s.runners[a].plan[i] == full[i];
  }
}
