/** What a row remembers of the run that made it: the lease it was last given,
    the writes of the completion that finished it, and the definition its
    workflow was created with. Guards are written out here as the statements of
    internal/engine/engine.go state them. */
module EngineHistory {
  import opened Common
  import opened EngineRows
  import opened EngineRun
  import opened EngineRefinement

  // ---- leases ----

  /** The lease that one action gives row `i`: it assigns, starts, renews or
      requeues it. */
  ghost function LeaseGiven(s: System, a: Action, i: TaskId, maxAttempts: nat): Option<int> {
    match a
    case InsertCandidate(c, id, lease) =>
      if id == i && c in s.pending && id !in s.db.tasks && !HasTask(s.db, c.workflow, c.opIndex) then Some(lease) else None
    case Start(e, lease) =>
      if e in s.executions && s.executions[e].phase == Spawned && s.executions[e].task == i
         && i in s.db.tasks && s.db.tasks[i].state == Assigned
      then Some(lease) else None
    case Renew(e, lease) =>
      if HeldBy(s, e, i) && !s.executions[e].owner.DispatchOwner? then Some(lease) else None
    case DoReap(ids, lease) =>
      if i in ids && i in s.db.tasks && (s.db.tasks[i].state == Assigned || s.db.tasks[i].state == Running)
         && s.db.tasks[i].leaseExpires < s.db.now && s.db.tasks[i].attempt < maxAttempts
      then Some(lease) else None
    case _ => None
  }

  /** Execution `e` is at work on row `i`, which is RUNNING under its owner. */
  ghost predicate HeldBy(s: System, e: nat, i: TaskId) {
    && e in s.executions && s.executions[e].phase == Working && s.executions[e].task == i
    && i in s.db.tasks && s.db.tasks[i].state == Running && s.db.tasks[i].owner == Some(s.executions[e].owner)
  }

  /** Until when the last lease given to row `i` in a run lasts; `end` is the one
      before the run. */
  ghost function LeaseEnd(s: System, acts: seq<Action>, i: TaskId, end: Option<int>, maxAttempts: nat): Option<int>
    decreases |acts|
  {
    if acts == [] then end
    else
      var given := LeaseGiven(s, acts[0], i, maxAttempts);
      LeaseEnd(Next(s, acts[0], maxAttempts), acts[1..], i,
               if given.Some? then Some(s.db.now + given.value) else end, maxAttempts)
  }

  lemma {:induction false} StepSetsLease(s: System, a: Action, i: TaskId, maxAttempts: nat)
    ensures var db', given := NextDb(s, a, maxAttempts), LeaseGiven(s, a, i, maxAttempts);
      && (i in db'.tasks <==> i in s.db.tasks || given.Some?)
      && (given.Some? ==> db'.tasks[i].leaseExpires == s.db.now + given.value)
      && (given.None? && i in db'.tasks ==> db'.tasks[i].leaseExpires == s.db.tasks[i].leaseExpires)
  {
  }

  lemma {:induction false} LeaseRunsFromLastGiven(s: System, acts: seq<Action>, i: TaskId, end: Option<int>, maxAttempts: nat)
    requires i in s.db.tasks ==> end == Some(s.db.tasks[i].leaseExpires)
    ensures var t := RunFrom(s, acts, maxAttempts).db;
      i in t.tasks ==> LeaseEnd(s, acts, i, end, maxAttempts) == Some(t.tasks[i].leaseExpires)
    decreases |acts|
  {
    if acts != [] {
      var given := LeaseGiven(s, acts[0], i, maxAttempts);
      StepSetsLease(s, acts[0], i, maxAttempts);
      LeaseRunsFromLastGiven(Next(s, acts[0], maxAttempts), acts[1..], i,
                             if given.Some? then Some(s.db.now + given.value) else end, maxAttempts);
    }
  }

  lemma {:induction false} ReapChanges(s: System, a: Action, i: TaskId, maxAttempts: nat)
    requires i in s.db.tasks && (a.DoReap? || a.DoExhaust?)
    ensures i in NextDb(s, a, maxAttempts).tasks
    ensures var t := s.db.tasks[i];
      NextDb(s, a, maxAttempts).tasks[i] != t <==>
        && i in a.tasks && (t.state == Assigned || t.state == Running) && t.leaseExpires < s.db.now
        && (if a.DoReap? then t.attempt < maxAttempts else t.attempt >= maxAttempts)
  {
  }

  /** In every run a reap statement takes exactly the live rows whose last lease,
      counted from the moment it was given, has run out: those with attempts left
      go to the one statement, the others to the other. */
  lemma {:induction false} ReapTakesExactlyTheOverdue(now: int, acts: seq<Action>, a: Action, i: TaskId, maxAttempts: nat)
    requires a.DoReap? || a.DoExhaust?
    requires i in RunFrom(Init(now), acts, maxAttempts).db.tasks
    ensures var s, end := RunFrom(Init(now), acts, maxAttempts), LeaseEnd(Init(now), acts, i, None, maxAttempts);
      && end.Some? && i in NextDb(s, a, maxAttempts).tasks
      && (NextDb(s, a, maxAttempts).tasks[i] != s.db.tasks[i] <==>
            && i in a.tasks && (s.db.tasks[i].state == Assigned || s.db.tasks[i].state == Running) && end.value < s.db.now
            && (if a.DoReap? then s.db.tasks[i].attempt < maxAttempts else s.db.tasks[i].attempt >= maxAttempts))
  {
    LeaseRunsFromLastGiven(Init(now), acts, i, None, maxAttempts);
    ReapChanges(RunFrom(Init(now), acts, maxAttempts), a, i, maxAttempts);
  }

  /** No action of the run gives a shorter lease than `least`. */
  ghost predicate LeasesAtLeast(acts: seq<Action>, least: int) {
    forall a :: a in acts ==>
      match a
      case InsertCandidate(_, _, lease) => lease >= least
      case Start(_, lease) => lease >= least
      case Renew(_, lease) => lease >= least
      case DoReap(_, lease) => lease >= least
      case _ => true
  }

  lemma {:induction false} LeaseOutlasts(s: System, acts: seq<Action>, i: TaskId, until: int, least: int, maxAttempts: nat)
    requires i in s.db.tasks && s.db.tasks[i].leaseExpires >= until && until <= s.db.now + least && LeasesAtLeast(acts, least)
    ensures i in RunFrom(s, acts, maxAttempts).db.tasks && RunFrom(s, acts, maxAttempts).db.tasks[i].leaseExpires >= until
    decreases |acts|
  {
    if acts != [] {
      assert acts[0] in acts;
      assert forall a :: a in acts[1..] ==> a in acts;
      StepSetsLease(s, acts[0], i, maxAttempts);
      ClockGoesOn(s, acts[0], maxAttempts);
      LeaseOutlasts(Next(s, acts[0], maxAttempts), acts[1..], i, until, least, maxAttempts);
    }
  }

  lemma {:induction false} ClockGoesOn(s: System, a: Action, maxAttempts: nat)
    ensures NextDb(s, a, maxAttempts).now >= s.db.now
  {
  }

  /** What a lease is for: a row that is assigned, started, renewed or requeued at
      time t with lease L is left alone by both reap statements while the clock
      has not passed t + L, whatever runs in between gives leases no shorter. */
  lemma {:induction false} LeaseProtects(s: System, a: Action, acts: seq<Action>, reap: Action, i: TaskId, lease: int, maxAttempts: nat)
    requires LeaseGiven(s, a, i, maxAttempts) == Some(lease) && LeasesAtLeast(acts, lease) && (reap.DoReap? || reap.DoExhaust?)
    requires RunFrom(Next(s, a, maxAttempts), acts, maxAttempts).db.now <= s.db.now + lease
    ensures var t := RunFrom(Next(s, a, maxAttempts), acts, maxAttempts);
      i in t.db.tasks && i in NextDb(t, reap, maxAttempts).tasks && NextDb(t, reap, maxAttempts).tasks[i] == t.db.tasks[i]
  {
    StepSetsLease(s, a, i, maxAttempts);
    ClockGoesOn(s, a, maxAttempts);
    LeaseOutlasts(Next(s, a, maxAttempts), acts, i, s.db.now + lease, lease, maxAttempts);
    ReapChanges(RunFrom(Next(s, a, maxAttempts), acts, maxAttempts), reap, i, maxAttempts);
  }

  // ---- how a row ends ----

  /** A live row finishes exactly by a completion of an execution that holds it,
      and fails exactly by a failure of one, or when it is overdue with no attempt
      left. */
  lemma {:induction false} RowEndsExactly(s: System, a: Action, i: TaskId, maxAttempts: nat)
    requires i in s.db.tasks && (s.db.tasks[i].state == Assigned || s.db.tasks[i].state == Running)
    ensures i in NextDb(s, a, maxAttempts).tasks
    ensures NextDb(s, a, maxAttempts).tasks[i].state == Finished <==>
      a.Complete? && HeldBy(s, a.e, i) && !s.executions[a.e].owner.DispatchOwner?
    ensures NextDb(s, a, maxAttempts).tasks[i].state == Failed <==>
      || (a.Fail? && HeldBy(s, a.e, i))
      || (a.DoExhaust? && i in a.tasks && s.db.tasks[i].leaseExpires < s.db.now && s.db.tasks[i].attempt >= maxAttempts)
  {
  }

  // ---- writes ----

  /** What an action publishes: a completion that wins its guard publishes what its
      mutation wrote, anything else nothing. */
  ghost function Publishes(s: System, a: Action): seq<(TaskId, seq<Write>)> {
    if a.Complete? && a.e in s.executions && HeldBy(s, a.e, s.executions[a.e].task) && !s.executions[a.e].owner.DispatchOwner?
    then [(s.executions[a.e].task, a.writes)] else []
  }

  ghost function PublishedBy(s: System, acts: seq<Action>, maxAttempts: nat): seq<(TaskId, seq<Write>)>
    decreases |acts|
  {
    if acts == [] then [] else Publishes(s, acts[0]) + PublishedBy(Next(s, acts[0], maxAttempts), acts[1..], maxAttempts)
  }

  /** `store` shows `before` and then `published`, task by task and write by write. */
  ghost predicate Shows(store: seq<Commit>, before: seq<Commit>, published: seq<(TaskId, seq<Write>)>) {
    && |store| == |before| + |published| && store[..|before|] == before
    && forall k :: 0 <= k < |published| ==>
         store[|before| + k].task == published[k].0 && store[|before| + k].writes == published[k].1
  }

  lemma {:induction false} StepPublishes(s: System, a: Action, maxAttempts: nat)
    ensures Shows(NextDb(s, a, maxAttempts).store, s.db.store, Publishes(s, a))
  {
  }

  lemma {:induction false} ShowsThen(store: seq<Commit>, middle: seq<Commit>, before: seq<Commit>,
                                     first: seq<(TaskId, seq<Write>)>, rest: seq<(TaskId, seq<Write>)>)
    requires Shows(middle, before, first) && Shows(store, middle, rest)
    ensures Shows(store, before, first + rest)
  {
    assert store[..|before|] == store[..|middle|][..|before|];
    forall k | 0 <= k < |first + rest|
      ensures store[|before| + k].task == (first + rest)[k].0 && store[|before| + k].writes == (first + rest)[k].1
    {
      if k < |first| {
        assert store[|before| + k] == store[..|middle|][|before| + k] == middle[|before| + k];
      } else {
        assert store[|before| + k] == store[|middle| + (k - |first|)];
      }
    }
  }

  /** Over every run the visible mutations are the writes of the completions that
      won, in that order: nothing a winner wrote is lost or changed, and nothing a
      loser wrote is seen. */
  lemma {:induction false} StoreIsWhatWasPublished(s: System, acts: seq<Action>, maxAttempts: nat)
    ensures Shows(RunFrom(s, acts, maxAttempts).db.store, s.db.store, PublishedBy(s, acts, maxAttempts))
    decreases |acts|
  {
    if acts != [] {
      var s' := Next(s, acts[0], maxAttempts);
      StepPublishes(s, acts[0], maxAttempts);
      StoreIsWhatWasPublished(s', acts[1..], maxAttempts);
      ShowsThen(RunFrom(s, acts, maxAttempts).db.store, s'.db.store, s.db.store,
                Publishes(s, acts[0]), PublishedBy(s', acts[1..], maxAttempts));
    }
  }

  /** Mutation number `done` of `w` has been added, by task `i`, with these writes. */
  ghost predicate AddsMutation(db: Db, db': Db, w: WorkflowId, i: TaskId, writes: seq<Write>) {
    && w in db.workflows && w in db'.workflows && Done(db', w) == Done(db, w) + 1
    && var cs, cs' := CommitsOf(db.store, w), CommitsOf(db'.store, w);
    && |cs| == Done(db, w) && |cs'| == Done(db', w)
    && cs'[..|cs|] == cs && cs'[|cs|].writes == writes && cs'[|cs|].task == i
  }

  /** In its workflow a winning completion's writes become mutation number `done`,
      the next one of the interpreter. */
  lemma {:induction false} CompletionIsNextMutation(s: System, e: nat, writes: seq<Write>, i: TaskId, maxAttempts: nat)
    requires DbInv(s.db, maxAttempts) && HeldBy(s, e, i) && !s.executions[e].owner.DispatchOwner?
    ensures AddsMutation(s.db, NextDb(s, Complete(e, writes), maxAttempts), s.db.tasks[i].workflow, i, writes)
  {
    WinningCompletes(s, e, writes, i, maxAttempts);
    CompletionIsNext(s.db, i, s.executions[e].owner, writes, maxAttempts);
  }

  lemma {:induction false} WinningCompletes(s: System, e: nat, writes: seq<Write>, i: TaskId, maxAttempts: nat)
    requires HeldBy(s, e, i) && !s.executions[e].owner.DispatchOwner?
    ensures Holds(s.db, i, s.executions[e].owner)
    ensures NextDb(s, Complete(e, writes), maxAttempts) == CompleteTask(s.db, i, s.executions[e].owner, writes)
  {
  }

  lemma {:induction false} CompletionIsNext(db: Db, i: TaskId, owner: Owner, writes: seq<Write>, maxAttempts: nat)
    requires DbInv(db, maxAttempts) && Holds(db, i, owner)
    ensures AddsMutation(db, CompleteTask(db, i, owner, writes), db.tasks[i].workflow, i, writes)
  {
    var db', w := CompleteTask(db, i, owner, writes), db.tasks[i].workflow;
    assert TaskOk(db, i, maxAttempts) && WorkflowOk(db, w) && CommitsInOrder(db, w);
    CompletesOwn(db, i, owner, writes, maxAttempts);
    CommitsOfAppend(db.store, CommitOf(db, i, writes), w);
  }

  // ---- definitions ----

  lemma {:induction false} DefinitionStays(s: System, acts: seq<Action>, w: WorkflowId, maxAttempts: nat)
    requires w in s.db.workflows
    ensures var t := RunFrom(s, acts, maxAttempts).db;
      w in t.workflows && t.workflows[w].definition == s.db.workflows[w].definition
    decreases |acts|
  {
    if acts != [] {
      NextWorkflows(s, acts[0], w, maxAttempts);
      DefinitionStays(Next(s, acts[0], maxAttempts), acts[1..], w, maxAttempts);
    }
  }

  /** A workflow runs the definition it was created with: whatever follows, its
      k-th visible mutation is that of the k-th operation given, and it succeeds
      exactly when all of them have run. */
  lemma {:induction false} RunsWhatWasGiven(now: int, before: seq<Action>, w: WorkflowId, definition: seq<OpDef>,
                                            after: seq<Action>, maxAttempts: nat)
    requires 1 <= maxAttempts && definition != [] && w !in RunFrom(Init(now), before, maxAttempts).db.workflows
    ensures var db := RunFrom(Init(now), before + [Create(w, definition)] + after, maxAttempts).db;
      && w in db.workflows && |CommitsOf(db.store, w)| <= |definition|
      && (forall k :: 0 <= k < |CommitsOf(db.store, w)| ==> CommitsOf(db.store, w)[k].op == definition[k])
      && (db.workflows[w].state == Succeeded <==> db.workflows[w].currentOp == |definition|)
      && (db.workflows[w].state == Succeeded ==> |CommitsOf(db.store, w)| == |definition|)
  {
    var create := Create(w, definition);
    var s0 := RunFrom(Init(now), before, maxAttempts);
    var s1 := Next(s0, create, maxAttempts);
    assert RunFrom(s0, [create], maxAttempts) == s1 by {
      assert [create][1..] == [];
      assert RunFrom(s1, [], maxAttempts) == s1;
    }
    RunFromConcat(Init(now), before, [create], maxAttempts);
    RunFromConcat(Init(now), before + [create], after, maxAttempts);
    DefinitionStays(s1, after, w, maxAttempts);
    RunsLikeInterpreter(now, before + [create] + after, w, maxAttempts);
  }

  // ---- how an execution ends ----

  /** The process of an execution's owner string, if it belongs to one. */
  predicate RunsIn(x: Execution, p: nat) {
    (x.owner.InlineOwner? || x.owner.WorkerOwner?) && x.owner.process == p
  }

  /** An execution gets to work by winning its start, and stops by losing it, by its
      own terminal write, won or lost, by giving up, or with its process; a worker's
      slot is free only after that. */
  lemma {:induction false} PhasesMoveExactly(s: System, a: Action, e: nat, maxAttempts: nat)
    requires e in s.executions
    ensures e in Next(s, a, maxAttempts).executions
    ensures var x, x' := s.executions[e], Next(s, a, maxAttempts).executions[e];
      var starts, ends := a.Start? && a.e == e, (a.Fail? && a.e == e) || (a.Complete? && a.e == e && !x.owner.DispatchOwner?);
      var stops := a == Abandon(e) || (a.Crash? && RunsIn(x, a.process));
      var wins := x.task in s.db.tasks && s.db.tasks[x.task].state == Assigned;
      && x'.task == x.task && x'.owner == x.owner
      && (x.phase == Spawned ==> x'.phase == if starts && wins then Working else if starts || stops then Exited else Spawned)
      && (x.phase == Working ==> x'.phase == if stops || ends then Exited else Working)
      && (x.phase == Exited ==> x'.phase == if a == LeaveSlot(e) && x.owner.WorkerOwner? then Gone else Exited)
      && (x.phase == Gone ==> x'.phase == Gone)
  {
  }

  /** Who may set out on a task: any live core process, under a serial number it has
      not used; a live worker process with no execution of its own on the task; and
      the engine's dispatcher. A worker's place on the task is free again when the
      execution has left its slot. */
  lemma {:induction false} SpawnsExactly(s: System, a: Action, maxAttempts: nat)
    requires a.SpawnInline? || a.SpawnWorker? || a.SpawnDispatch?
    ensures var s' := Next(s, a, maxAttempts);
      var alive := a.SpawnDispatch? || a.process !in s.dead;
      var spawns := a.e !in s.executions && alive && (a.SpawnWorker? ==> (a.process, a.id) !in s.inflight);
      && s'.db == s.db && (spawns <==> s'.executions != s.executions)
      && (spawns ==> a.e in s'.executions && s'.executions[a.e].phase == Spawned && s'.executions[a.e].task == a.id)
      && (spawns && a.SpawnInline? ==> s'.executions[a.e].owner == InlineOwner(a.process, a.id, Serial(s', a.process)))
      && (spawns && a.SpawnInline? ==> Serial(s', a.process) == Serial(s, a.process) + 1)
      && (spawns && a.SpawnWorker? ==> s'.executions[a.e].owner == WorkerOwner(a.process, a.id) && (a.process, a.id) in s'.inflight)
      && (spawns && a.SpawnDispatch? ==> s'.executions[a.e].owner == DispatchOwner)
  {
    assert SpawnOwner(s, a).None? ==> NextExecutions(s, a) == s.executions;
  }

  lemma {:induction false} InflightEndsExactly(s: System, a: Action, p: nat, i: TaskId, maxAttempts: nat)
    requires (p, i) in s.inflight
    ensures (p, i) !in Next(s, a, maxAttempts).inflight <==>
      a.LeaveSlot? && a.e in s.executions && s.executions[a.e].phase == Exited && s.executions[a.e].owner == WorkerOwner(p, i)
  {
  }

  /** An execution that has stopped never does anything to the database again. */
  lemma {:induction false} StoppedIsSilent(s: System, acts: seq<Action>, e: nat, a: Action, maxAttempts: nat)
    requires e in s.executions && (s.executions[e].phase == Exited || s.executions[e].phase == Gone)
    requires (a.Start? || a.Renew? || a.Complete? || a.Fail?) && a.e == e
    ensures NextDb(RunFrom(s, acts, maxAttempts), a, maxAttempts) == RunFrom(s, acts, maxAttempts).db
    decreases |acts|
  {
    if acts != [] {
      PhasesMoveExactly(s, acts[0], e, maxAttempts);
      StoppedIsSilent(Next(s, acts[0], maxAttempts), acts[1..], e, a, maxAttempts);
    }
  }

  /** A crashed process has no execution left that could do anything. */
  ghost predicate Silenced(s: System, p: nat) {
    p in s.dead && forall e :: e in s.executions && RunsIn(s.executions[e], p) ==>
      s.executions[e].phase == Exited || s.executions[e].phase == Gone
  }

  /** A crash ends every execution of its process, and the process starts none
      again. */
  lemma {:induction false} CrashIsFinal(s: System, p: nat, acts: seq<Action>, maxAttempts: nat)
    ensures Silenced(RunFrom(Next(s, Crash(p), maxAttempts), acts, maxAttempts), p)
  {
    var s' := Next(s, Crash(p), maxAttempts);
    forall e | e in s'.executions && RunsIn(s'.executions[e], p)
      ensures s'.executions[e].phase == Exited || s'.executions[e].phase == Gone
    {
      PhasesMoveExactly(s, Crash(p), e, maxAttempts);
    }
    StaysSilenced(s', p, acts, maxAttempts);
  }

  lemma {:induction false} StaysSilenced(s: System, p: nat, acts: seq<Action>, maxAttempts: nat)
    requires Silenced(s, p)
    ensures Silenced(RunFrom(s, acts, maxAttempts), p)
    decreases |acts|
  {
    if acts != [] {
      var s' := Next(s, acts[0], maxAttempts);
      forall e | e in s'.executions && RunsIn(s'.executions[e], p)
        ensures s'.executions[e].phase == Exited || s'.executions[e].phase == Gone
      {
        if e in s.executions { PhasesMoveExactly(s, acts[0], e, maxAttempts); }
      }
      StaysSilenced(s', p, acts[1..], maxAttempts);
    }
  }

  // ---- one winner per attempt ----

  /** What an execution that has started its task knows: its attempt is over, or
      the row is no longer there to be started. */
  ghost predicate StartedOk(s: System, e: nat)
    requires e in s.executions
  {
    var x := s.executions[e];
    x.attempt > 0 ==>
      && x.phase != Spawned && x.task in s.db.tasks && x.attempt <= s.db.tasks[x.task].attempt
      && (x.attempt == s.db.tasks[x.task].attempt ==> s.db.tasks[x.task].state != Assigned)
  }

  /** Both have started the same attempt of the same task. */
  predicate SameAttempt(x: Execution, y: Execution) {
    x.attempt > 0 && x.task == y.task && x.attempt == y.attempt
  }

  ghost predicate OneWinner(s: System) {
    && (forall e :: e in s.executions ==> StartedOk(s, e))
    && (forall e, f :: e in s.executions && f in s.executions && SameAttempt(s.executions[e], s.executions[f]) ==> e == f)
  }

  /** A row is ASSIGNED after a step only in a new attempt, or if nobody started it. */
  lemma {:induction false} StaysStarted(s: System, a: Action, i: TaskId, maxAttempts: nat)
    requires i in s.db.tasks
    ensures i in NextDb(s, a, maxAttempts).tasks
    ensures var t, t' := s.db.tasks[i], NextDb(s, a, maxAttempts).tasks[i];
      t.attempt <= t'.attempt && (t'.attempt == t.attempt && t.state != Assigned ==> t'.state != Assigned)
  {
  }

  lemma {:induction false} StartRecords(s: System, a: Action, e: nat, maxAttempts: nat)
    requires e in s.executions
    ensures var x, x' := s.executions[e], NextExecution(s, a, e);
      && x'.task == x.task
      && (x'.attempt == x.attempt
          || (a.Start? && a.e == e && x.phase == Spawned && x.task in s.db.tasks && s.db.tasks[x.task].state == Assigned
              && x'.attempt == s.db.tasks[x.task].attempt && x'.phase == Working
              && NextDb(s, a, maxAttempts).tasks[x.task].state == Running
              && NextDb(s, a, maxAttempts).tasks[x.task].attempt == x'.attempt))
      && (x.phase != Spawned ==> x'.phase != Spawned)
  {
  }

  lemma {:induction false} NextStartedOk(s: System, a: Action, e: nat, maxAttempts: nat)
    requires OneWinner(s) && e in Next(s, a, maxAttempts).executions
    ensures StartedOk(Next(s, a, maxAttempts), e)
  {
    if e in s.executions {
      assert StartedOk(s, e);
      StartRecords(s, a, e, maxAttempts);
      if s.executions[e].task in s.db.tasks { StaysStarted(s, a, s.executions[e].task, maxAttempts); }
    }
  }

  lemma {:induction false} NextOneWinner(s: System, a: Action, maxAttempts: nat)
    requires OneWinner(s)
    ensures OneWinner(Next(s, a, maxAttempts))
  {
    var s' := Next(s, a, maxAttempts);
    forall e | e in s'.executions ensures StartedOk(s', e) { NextStartedOk(s, a, e, maxAttempts); }
    forall e, f | e in s'.executions && f in s'.executions && SameAttempt(s'.executions[e], s'.executions[f]) ensures e == f
    {
      assert e in s.executions && f in s.executions;
      StartRecords(s, a, e, maxAttempts);
      StartRecords(s, a, f, maxAttempts);
      assert StartedOk(s, e) && StartedOk(s, f);
    }
  }

  lemma {:induction false} RunOneWinner(s: System, acts: seq<Action>, maxAttempts: nat)
    requires OneWinner(s)
    ensures OneWinner(RunFrom(s, acts, maxAttempts))
    decreases |acts|
  {
    if acts != [] {
      NextOneWinner(s, acts[0], maxAttempts);
      RunOneWinner(Next(s, acts[0], maxAttempts), acts[1..], maxAttempts);
    }
  }

  /** Of any number of executions over-provisioned for one attempt of a task, of
      whatever kind, at most one ever starts it. */
  lemma {:induction false} SingleWinner(now: int, acts: seq<Action>, e: nat, f: nat, maxAttempts: nat)
    requires var s := RunFrom(Init(now), acts, maxAttempts);
      e in s.executions && f in s.executions && SameAttempt(s.executions[e], s.executions[f])
    ensures e == f
  {
    RunOneWinner(Init(now), acts, maxAttempts);
  }

  /** And the first to try does: it then holds the row, in the row's attempt, and
      any other execution of the task that tries next is out. */
  lemma {:induction false} FirstStartWins(s: System, e: nat, lease: int, f: nat, again: int, maxAttempts: nat)
    requires e in s.executions && s.executions[e].phase == Spawned && s.executions[e].task in s.db.tasks
    requires s.db.tasks[s.executions[e].task].state == Assigned
    ensures var i, s' := s.executions[e].task, Next(s, Start(e, lease), maxAttempts);
      && HeldBy(s', e, i) && s'.executions[e].attempt == s'.db.tasks[i].attempt == s.db.tasks[i].attempt
      && (f != e && f in s.executions && s.executions[f].phase == Spawned && s.executions[f].task == i ==>
            var s'' := Next(s', Start(f, again), maxAttempts);
            s''.db == s'.db && f in s''.executions && s''.executions[f].phase == Exited)
  {
    var s' := Next(s, Start(e, lease), maxAttempts);
    assert s'.executions[e] == NextExecution(s, Start(e, lease), e);
  }
}
