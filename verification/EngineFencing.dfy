/** Fencing: an execution's guarded statement can only succeed while its task
    has not been reaped since that execution's own start. Inline owners owe
    this to the serial number, worker owners (reused for the same task) to the
    inflight map; the dispatcher's shared owner string has neither. */
module EngineFencing {
  import opened Common
  import opened EngineRows
  import opened EngineRun

  /** Renew, complete and fail of `x` would succeed only in the attempt `x`
      started; `attempt` grows at every reap and at nothing else. */
  ghost predicate Fenced(s: System, e: nat)
    requires e in s.executions
  {
    var x := s.executions[e];
    x.phase == Working && Holds(s.db, x.task, x.owner) ==> s.db.tasks[x.task].attempt == x.attempt
  }

  /** Attempts count reaps: any statement keeps a row's attempt, or reaps the row
      because its lease has run out. */
  lemma {:induction false} AttemptsCountReaps(s: System, a: Action, i: TaskId, maxAttempts: nat)
    requires i in s.db.tasks
    ensures i in NextDb(s, a, maxAttempts).tasks
    ensures var t, t' := s.db.tasks[i], NextDb(s, a, maxAttempts).tasks[i];
      && (t'.attempt == t.attempt
          || (a.DoReap? && i in a.tasks && Expired(t, s.db.now) && t'.attempt == t.attempt + 1
              && t'.state == Assigned && t'.owner == None))
      && (a.DoReap? && i in a.tasks && Expired(t, s.db.now) && t.attempt < maxAttempts ==> t'.attempt == t.attempt + 1)
  {
  }

  // ---- who can carry which owner string ----

  ghost predicate OwnersOk(s: System) {
    && (forall e :: e in s.executions ==> OwnerOk(s, e))
    && (forall e, f :: e in s.executions && f in s.executions && Contend(s.executions[e], s.executions[f]) ==> e == f)
  }

  ghost predicate OwnerOk(s: System, e: nat)
    requires e in s.executions
  {
    var x := s.executions[e];
    match x.owner
    case InlineOwner(p, id, n) => id == x.task && n <= Serial(s, p)
    case WorkerOwner(p, id) => id == x.task && (x.phase != Gone ==> (p, id) in s.inflight)
    case DispatchOwner => true
  }

  /** Two executions that could be confused by their owner string. */
  predicate Contend(x: Execution, y: Execution) {
    && x.owner == y.owner && !x.owner.DispatchOwner?
    && (x.owner.WorkerOwner? ==> x.phase != Gone && y.phase != Gone)
  }

  lemma {:induction false} NextOwnerOk(s: System, a: Action, e: nat, maxAttempts: nat)
    requires OwnersOk(s) && e in Next(s, a, maxAttempts).executions
    ensures OwnerOk(Next(s, a, maxAttempts), e)
  {
    var s' := Next(s, a, maxAttempts);
    if e in s.executions {
      assert OwnerOk(s, e);
      if a.LeaveSlot? && a.e in s.executions && a.e != e {
        assert OwnerOk(s, a.e);
        assert !(Contend(s.executions[e], s.executions[a.e]));
      }
    }
  }

  lemma {:induction false} NextOwnersOk(s: System, a: Action, maxAttempts: nat)
    requires OwnersOk(s)
    ensures OwnersOk(Next(s, a, maxAttempts))
  {
    var s' := Next(s, a, maxAttempts);
    forall e | e in s'.executions ensures OwnerOk(s', e) {
      NextOwnerOk(s, a, e, maxAttempts);
    }
    forall e, f | e in s'.executions && f in s'.executions && Contend(s'.executions[e], s'.executions[f])
      ensures e == f
    {
      NextContend(s, a, e, f, maxAttempts);
    }
  }

  lemma {:induction false} NextContend(s: System, a: Action, e: nat, f: nat, maxAttempts: nat)
    requires OwnersOk(s) && e in NextExecutions(s, a) && f in NextExecutions(s, a)
    requires Contend(NextExecutions(s, a)[e], NextExecutions(s, a)[f])
    ensures e == f
  {
    if e in s.executions { assert OwnerOk(s, e); }
    if f in s.executions { assert OwnerOk(s, f); }
    if e in s.executions && f in s.executions { assert Contend(s.executions[e], s.executions[f]); }
  }

  ghost predicate AllFenced(s: System) {
    forall e :: e in s.executions && !s.executions[e].owner.DispatchOwner? ==> Fenced(s, e)
  }

  lemma {:induction false} NextFenced(s: System, a: Action, e: nat, maxAttempts: nat)
    requires OwnersOk(s) && AllFenced(s)
    requires e in Next(s, a, maxAttempts).executions && !Next(s, a, maxAttempts).executions[e].owner.DispatchOwner?
    ensures Fenced(Next(s, a, maxAttempts), e)
  {
    var s' := Next(s, a, maxAttempts);
    var x' := s'.executions[e];
    if x'.phase == Working && Holds(s'.db, x'.task, x'.owner) {
      assert e in s.executions && Fenced(s, e);
      if s.executions[e].phase == Working {
        assert x' == s.executions[e];
        HeldWasHeld(s, a, e, maxAttempts);
      } else {
        StartedIsFenced(s, a, e, maxAttempts);
      }
    }
  }

  lemma {:induction false} StartedIsFenced(s: System, a: Action, e: nat, maxAttempts: nat)
    requires e in s.executions && s.executions[e].phase != Working && NextExecution(s, a, e).phase == Working
    ensures var x := NextExecution(s, a, e);
      x.task in NextDb(s, a, maxAttempts).tasks && NextDb(s, a, maxAttempts).tasks[x.task].attempt == x.attempt
  {
  }

  /** An execution at work whose guard would pass after a step had it pass before,
      in the same attempt: nobody else starts the task under its owner string. */
  lemma {:induction false} HeldWasHeld(s: System, a: Action, e: nat, maxAttempts: nat)
    requires OwnersOk(s) && e in s.executions && s.executions[e].phase == Working && !s.executions[e].owner.DispatchOwner?
    requires Holds(NextDb(s, a, maxAttempts), s.executions[e].task, s.executions[e].owner)
    ensures var x := s.executions[e];
      Holds(s.db, x.task, x.owner) && NextDb(s, a, maxAttempts).tasks[x.task].attempt == s.db.tasks[x.task].attempt
  {
    var x := s.executions[e];
    if a.Start? && a.e in s.executions && s.executions[a.e].phase == Spawned {
      assert !Contend(x, s.executions[a.e]);
    }
    HeldRow(s, a, x.task, x.owner, maxAttempts);
  }

  lemma {:induction false} HeldRow(s: System, a: Action, i: TaskId, owner: Owner, maxAttempts: nat)
    requires Holds(NextDb(s, a, maxAttempts), i, owner)
    requires a.Start? && a.e in s.executions && s.executions[a.e].phase == Spawned && s.executions[a.e].task == i ==>
      s.executions[a.e].owner != owner
    ensures Holds(s.db, i, owner) && NextDb(s, a, maxAttempts).tasks[i].attempt == s.db.tasks[i].attempt
  {
  }

  lemma {:induction false} RunFenced(s: System, acts: seq<Action>, maxAttempts: nat)
    requires OwnersOk(s) && AllFenced(s)
    ensures OwnersOk(RunFrom(s, acts, maxAttempts)) && AllFenced(RunFrom(s, acts, maxAttempts))
    decreases |acts|
  {
    if acts != [] {
      var s' := Next(s, acts[0], maxAttempts);
      NextOwnersOk(s, acts[0], maxAttempts);
      forall e | e in s'.executions && !s'.executions[e].owner.DispatchOwner? ensures Fenced(s', e) {
        NextFenced(s, acts[0], e, maxAttempts);
      }
      RunFenced(s', acts[1..], maxAttempts);
    }
  }

  // ---- main results ----

  /** In every run every inline and worker execution is fenced. */
  lemma {:induction false} ExecutionsAreFenced(now: int, acts: seq<Action>, e: nat, maxAttempts: nat)
    ensures var s := RunFrom(Init(now), acts, maxAttempts);
      e in s.executions && !s.executions[e].owner.DispatchOwner? ==> Fenced(s, e)
  {
    RunFenced(Init(now), acts, maxAttempts);
  }

  /** Once reaped, an execution can never renew, complete or fail again, however
      often its task is started, reaped and started anew. */
  lemma {:induction false} ReapedStaysOut(now: int, before: seq<Action>, after: seq<Action>, e: nat, maxAttempts: nat)
    requires var s := RunFrom(Init(now), before, maxAttempts);
      && HasPhase(s, e, Working) && !s.executions[e].owner.DispatchOwner?
      && s.executions[e].task in s.db.tasks
      && s.db.tasks[s.executions[e].task].attempt > s.executions[e].attempt
    ensures var s, t := RunFrom(Init(now), before, maxAttempts), RunFrom(Init(now), before + after, maxAttempts);
      HasPhase(t, e, Working) ==> !Holds(t.db, s.executions[e].task, s.executions[e].owner)
  {
    var s := RunFrom(Init(now), before, maxAttempts);
    RunFromConcat(Init(now), before, after, maxAttempts);
    AttemptsGrow(s, after, e, maxAttempts);
    ExecutionsAreFenced(now, before + after, e, maxAttempts);
  }

  lemma {:induction false} AttemptsGrow(s: System, acts: seq<Action>, e: nat, maxAttempts: nat)
    requires e in s.executions && s.executions[e].phase != Spawned
    ensures var t := RunFrom(s, acts, maxAttempts);
      && e in t.executions && t.executions[e].owner == s.executions[e].owner
      && t.executions[e].task == s.executions[e].task && t.executions[e].attempt == s.executions[e].attempt
      && t.executions[e].phase != Spawned
      && forall i :: i in s.db.tasks ==> i in t.db.tasks && s.db.tasks[i].attempt <= t.db.tasks[i].attempt
    decreases |acts|
  {
    if acts != [] {
      var s' := Next(s, acts[0], maxAttempts);
      forall i | i in s.db.tasks ensures i in s'.db.tasks && s.db.tasks[i].attempt <= s'.db.tasks[i].attempt {
        AttemptsCountReaps(s, acts[0], i, maxAttempts);
      }
      AttemptsGrow(s', acts[1..], e, maxAttempts);
    }
  }

  /** One workflow of one operation, its task just assigned. */
  function AssignedSystem(now: int, op: OpDef): System {
    System(Db(now, map[0 := Workflow([op], InProgress, 0)], map[0 := Task(0, 0, op, Assigned, None, now, 1)], []),
           {Candidate(0, 0, op)}, map[], map[], {}, {})
  }

  function AssignOne(op: OpDef): seq<Action> {
    [Create(0, [op]), ReadCandidates, InsertCandidate(Candidate(0, 0, op), 0, 0)]
  }

  lemma {:induction false} ReachesAssigned(now: int, op: OpDef, maxAttempts: nat)
    ensures RunFrom(Init(now), AssignOne(op), maxAttempts) == AssignedSystem(now, op)
  {
    var acts := AssignOne(op);
    var s1 := Next(Init(now), acts[0], maxAttempts);
    assert s1.db == Db(now, map[0 := Workflow([op], InProgress, 0)], map[], []);
    assert NeedsTask(s1.db, 0) && !AssignReadFails(s1.db);
    assert AssignRead(s1.db) == {Candidate(0, 0, op)};
    var s2 := Next(s1, acts[1], maxAttempts);
    assert !HasTask(s2.db, 0, 0);
    assert Next(s2, acts[2], maxAttempts) == AssignedSystem(now, op);
    RunOfThree(Init(now), acts, maxAttempts);
  }

  lemma {:induction false} RunOfThree(s: System, acts: seq<Action>, maxAttempts: nat)
    requires |acts| == 3
    ensures RunFrom(s, acts, maxAttempts)
         == Next(Next(Next(s, acts[0], maxAttempts), acts[1], maxAttempts), acts[2], maxAttempts)
  {
    var s1 := Next(s, acts[0], maxAttempts);
    var s2 := Next(s1, acts[1], maxAttempts);
    assert RunFrom(s1, acts[1..], maxAttempts) == RunFrom(s2, acts[1..][1..], maxAttempts);
    assert acts[1..][1..] == [acts[2]];
  }

  /** Two dispatchers are on the task; the first has started it and stalls past
      its lease. */
  function StalledSystem(now: int, op: OpDef): System {
    AssignedSystem(now, op).(
      db := Db(now + 1, map[0 := Workflow([op], InProgress, 0)],
               map[0 := Task(0, 0, op, Running, Some(DispatchOwner), now, 1)], []),
      executions := map[0 := Execution(0, DispatchOwner, Working, 1), 1 := Execution(0, DispatchOwner, Spawned, 0)])
  }

  lemma {:induction false} FirstDispatcherStarts(now: int, op: OpDef, maxAttempts: nat)
    ensures var s := AssignedSystem(now, op);
      Next(Next(Next(s, SpawnDispatch(0, 0), maxAttempts), SpawnDispatch(1, 0), maxAttempts), Start(0, 0), maxAttempts)
      == StalledSystem(now, op).(db := StalledSystem(now, op).db.(now := now))
  {
    var s := AssignedSystem(now, op);
    var s1 := s.(executions := map[0 := Execution(0, DispatchOwner, Spawned, 0)]);
    var s2 := s.(executions := map[0 := Execution(0, DispatchOwner, Spawned, 0), 1 := Execution(0, DispatchOwner, Spawned, 0)]);
    assert Next(s, SpawnDispatch(0, 0), maxAttempts) == s1 by {
      assert NextExecutions(s, SpawnDispatch(0, 0)) == s1.executions;
    }
    assert Next(s1, SpawnDispatch(1, 0), maxAttempts) == s2 by {
      assert NextExecutions(s1, SpawnDispatch(1, 0)) == s2.executions;
    }
    SecondDispatcherWaits(s2, now, op, maxAttempts);
  }

  lemma {:induction false} SecondDispatcherWaits(s: System, now: int, op: OpDef, maxAttempts: nat)
    requires s == AssignedSystem(now, op).(executions :=
      map[0 := Execution(0, DispatchOwner, Spawned, 0), 1 := Execution(0, DispatchOwner, Spawned, 0)])
    ensures Next(s, Start(0, 0), maxAttempts) == StalledSystem(now, op).(db := StalledSystem(now, op).db.(now := now))
  {
    assert NextExecutions(s, Start(0, 0)) == StalledSystem(now, op).executions;
    assert NextDb(s, Start(0, 0), maxAttempts).tasks == StalledSystem(now, op).db.tasks;
  }

  lemma {:induction false} ReachesStalled(now: int, op: OpDef, maxAttempts: nat)
    ensures RunFrom(AssignedSystem(now, op), [SpawnDispatch(0, 0), SpawnDispatch(1, 0), Start(0, 0)] + [Tick(1)], maxAttempts)
         == StalledSystem(now, op)
  {
    var s := AssignedSystem(now, op);
    var acts := [SpawnDispatch(0, 0), SpawnDispatch(1, 0), Start(0, 0)];
    FirstDispatcherStarts(now, op, maxAttempts);
    RunOfThree(s, acts, maxAttempts);
    RunFromConcat(s, acts, [Tick(1)], maxAttempts);
    OneTick(RunFrom(s, acts, maxAttempts), maxAttempts);
  }

  lemma {:induction false} OneTick(s: System, maxAttempts: nat)
    ensures RunFrom(s, [Tick(1)], maxAttempts) == s.(db := s.db.(now := s.db.now + 1))
  {
    var a := Tick(1);
    assert NextExecutions(s, a) == s.executions;
    assert RunFrom(s, [a], maxAttempts) == RunFrom(Next(s, a, maxAttempts), [a][1..], maxAttempts);
  }

  /** One dispatcher stalls past its lease, the task is reaped, a second
      dispatcher starts it: the first one still passes every guard. */
  lemma {:induction false} DispatcherIsNotFenced(now: int, op: OpDef, maxAttempts: nat) returns (acts: seq<Action>)
    requires 2 <= maxAttempts
    ensures var s := RunFrom(Init(now), acts, maxAttempts);
      0 in s.executions && s.executions[0].owner == DispatchOwner && !Fenced(s, 0)
  {
    var tail := [DoReap({0}, 0), Start(1, 0), Tick(0)];
    var s := StalledSystem(now, op);
    var s1 := Next(s, tail[0], maxAttempts);
    assert s1.db.tasks[0] == Task(0, 0, op, Assigned, None, now + 1, 2);
    var s2 := Next(s1, tail[1], maxAttempts);
    assert s2.db.tasks[0] == Task(0, 0, op, Running, Some(DispatchOwner), now + 1, 2);
    var s3 := Next(s2, tail[2], maxAttempts);
    assert s3.executions[0] == Execution(0, DispatchOwner, Working, 1) && !Fenced(s3, 0);
    RunOfThree(s, tail, maxAttempts);
    ReachesAssigned(now, op, maxAttempts);
    ReachesStalled(now, op, maxAttempts);
    var middle := [SpawnDispatch(0, 0), SpawnDispatch(1, 0), Start(0, 0)] + [Tick(1)];
    acts := AssignOne(op) + middle + tail;
    RunFromConcat(Init(now), AssignOne(op) + middle, tail, maxAttempts);
    RunFromConcat(Init(now), AssignOne(op), middle, maxAttempts);
  }

  // ---- a single attempt ----

  /** With at most one attempt nothing is ever requeued. */
  ghost predicate OneAttempt(s: System) {
    && (forall i :: i in s.db.tasks ==> s.db.tasks[i].attempt == 1)
    && (forall e :: HasPhase(s, e, Working) ==> s.executions[e].attempt == 1)
  }

  lemma {:induction false} NextOneAttempt(s: System, a: Action, maxAttempts: nat)
    requires OneAttempt(s) && maxAttempts < 2
    ensures OneAttempt(Next(s, a, maxAttempts))
  {
    var s' := Next(s, a, maxAttempts);
    forall i | i in s'.db.tasks ensures s'.db.tasks[i].attempt == 1 {
      if i in s.db.tasks { AttemptsCountReaps(s, a, i, maxAttempts); }
    }
    forall e | HasPhase(s', e, Working) ensures s'.executions[e].attempt == 1 {
      assert e in s.executions;
      assert HasPhase(s, e, Working) || (s.executions[e].task in s.db.tasks);
    }
  }

  lemma {:induction false} RunOneAttempt(s: System, acts: seq<Action>, maxAttempts: nat)
    requires OneAttempt(s) && maxAttempts < 2
    ensures OneAttempt(RunFrom(s, acts, maxAttempts))
    decreases |acts|
  {
    if acts != [] {
      NextOneAttempt(s, acts[0], maxAttempts);
      RunOneAttempt(Next(s, acts[0], maxAttempts), acts[1..], maxAttempts);
    }
  }

  /** Fencing holds for every execution that carries `o`, in every run, exactly
      when `o` is not the dispatcher's string or a task has but one attempt. */
  lemma {:induction false} FencedExactlyWhenNotDispatcher(o: Owner, now: int, maxAttempts: nat)
    ensures !o.DispatchOwner? || maxAttempts < 2 <==>
      forall acts: seq<Action>, e: nat ::
        var s := RunFrom(Init(now), acts, maxAttempts);
        e in s.executions && s.executions[e].owner == o ==> Fenced(s, e)
  {
    if o.DispatchOwner? && maxAttempts >= 2 {
      var op := OpDef("", map[], 0, 0, 0);
      var acts := DispatcherIsNotFenced(now, op, maxAttempts);
    } else {
      forall acts: seq<Action>, e: nat
        ensures var s := RunFrom(Init(now), acts, maxAttempts);
          e in s.executions && s.executions[e].owner == o ==> Fenced(s, e)
      {
        ExecutionsAreFenced(now, acts, e, maxAttempts);
        if maxAttempts < 2 { RunOneAttempt(Init(now), acts, maxAttempts); }
      }
    }
  }
}
