/** An orchestrator pass as the class runs it is a schedule of the interleaved
    model: its statements in their order, each dispatched row by an execution of
    the engine's own dispatcher. */
module EngineSteps {
  import opened Common
  import opened EngineRows
  import opened EngineRun

  /** The row assignment creates for a workflow in need. */
  function FreshRow(db: Db, w: WorkflowId, lease: int): Task
    requires w in db.workflows && db.workflows[w].currentOp < |db.workflows[w].definition|
  {
    var wf := db.workflows[w];
    Task(w, wf.currentOp, wf.definition[wf.currentOp], Assigned, None, db.now + lease, 1)
  }

  ghost predicate CanInsert(db: Db, w: WorkflowId) {
    NeedsTask(db, w) && db.workflows[w].currentOp < |db.workflows[w].definition|
  }

  /** `created` are new rows, one per workflow of `done`, and nothing else
      changed. */
  ghost predicate Inserted(db: Db, tasks: map<TaskId, Task>, created: set<TaskId>, done: set<WorkflowId>, lease: int) {
    && created !! db.tasks.Keys && tasks.Keys == db.tasks.Keys + created
    && (forall i :: i in db.tasks ==> tasks[i] == db.tasks[i])
    && (forall i :: i in created ==> tasks[i].workflow in done)
    && (forall i, j :: i in created && j in created && tasks[i].workflow == tasks[j].workflow ==> i == j)
    && (forall w :: w in done ==> CanInsert(db, w) && exists i :: i in created && tasks[i] == FreshRow(db, w, lease))
  }

  lemma ProvisionNothing(db: Db, runnable: OpDef -> bool, lease: int)
    ensures Provision(db, {}, runnable, lease) == db
  {
    assert Provision(db, {}, runnable, lease).tasks == db.tasks;
  }

  lemma ProvisionOneMore(db: Db, ids: set<TaskId>, i: TaskId, runnable: OpDef -> bool, lease: int)
    requires i !in ids
    ensures Provision(Provision(db, ids, runnable, lease), {i}, runnable, lease) == Provision(db, ids + {i}, runnable, lease)
  {
    assert Provision(Provision(db, ids, runnable, lease), {i}, runnable, lease).tasks
        == Provision(db, ids + {i}, runnable, lease).tasks;
  }

  lemma {:induction false} StillInNeed(db: Db, tasks: map<TaskId, Task>, created: set<TaskId>, done: set<WorkflowId>,
                                       lease: int, w: WorkflowId)
    requires Inserted(db, tasks, created, done, lease) && w !in done && CanInsert(db, w)
    ensures CanInsert(db.(tasks := tasks), w) && FreshRow(db.(tasks := tasks), w, lease) == FreshRow(db, w, lease)
  {
    var now, k := db.(tasks := tasks), db.workflows[w].currentOp;
    forall i ensures !IsTaskOf(now, i, w, k) {
      if IsTaskOf(now, i, w, k) {
        assert i !in created;
        assert IsTaskOf(db, i, w, k);
      }
    }
  }

  lemma {:induction false} InsertedButOne(db: Db, rows: map<TaskId, Task>, created: set<TaskId>, done: set<WorkflowId>, lease: int, i: TaskId)
    requires Inserted(db, rows, created, done, lease) && i in created
    ensures var w := rows[i].workflow;
      && w in done && CanInsert(db, w) && rows[i] == FreshRow(db, w, lease)
      && Inserted(db, rows - {i}, created - {i}, done - {w}, lease) && rows == (rows - {i})[i := rows[i]]
  {
    var w, less := rows[i].workflow, rows - {i};
    var j :| j in created && rows[j] == FreshRow(db, w, lease);
    assert j == i;
    assert rows == less[i := rows[i]];
    forall v | v in done - {w} ensures exists k :: k in created - {i} && less[k] == FreshRow(db, v, lease) {
      var k :| k in created && rows[k] == FreshRow(db, v, lease);
      assert k != i;
      assert k in created - {i} && less[k] == FreshRow(db, v, lease);
    }
  }

  // ---- dispatch ----

  /** Only the dispatcher moves. */
  predicate Dispatches(acts: seq<Action>) {
    forall a :: a in acts ==> a.SpawnDispatch? || a.Start? || a.Fail?
  }

  predicate Inserts(acts: seq<Action>) {
    forall a :: a in acts ==> a.InsertCandidate?
  }

  lemma {:induction false} UnusedName(names: set<nat>) returns (e: nat)
    ensures forall n :: n in names ==> n < e
  {
    if names == {} {
      e := 0;
    } else {
      var n :| n in names;
      var rest := UnusedName(names - {n});
      e := if rest <= n then n + 1 else rest;
      assert names == (names - {n}) + {n};
    }
  }

  lemma {:induction false} ThreeSteps(s: System, a: Action, b: Action, c: Action, maxAttempts: nat)
    ensures RunFrom(s, [a, b, c], maxAttempts) == Next(Next(Next(s, a, maxAttempts), b, maxAttempts), c, maxAttempts)
  {
    assert [a, b, c][1..][1..] == [c] && [c][1..] == [];
    var s2 := Next(Next(s, a, maxAttempts), b, maxAttempts);
    assert RunFrom(s2, [c], maxAttempts) == RunFrom(Next(s2, c, maxAttempts), [], maxAttempts);
  }

  lemma {:induction false} DispatchOne(s: System, i: TaskId, runnable: OpDef -> bool, lease: int, maxAttempts: nat) returns (acts: seq<Action>)
    ensures Dispatches(acts) && RunFrom(s, acts, maxAttempts).db == Provision(s.db, {i}, runnable, lease)
    ensures RunFrom(s, acts, maxAttempts).pending == s.pending
  {
    var after := Provision(s.db, {i}, runnable, lease);
    acts := [];
    if i in s.db.tasks && !runnable(s.db.tasks[i].op) {
      var e := UnusedName(s.executions.Keys);
      FailsUnrunnable(s, e, i, lease, maxAttempts);
      acts := [SpawnDispatch(e, i), Start(e, lease), Fail(e)];
      ThreeSteps(s, acts[0], acts[1], acts[2], maxAttempts);
      assert after.tasks == RunFrom(s, acts, maxAttempts).db.tasks;
    } else {
      assert after.tasks == s.db.tasks;
    }
  }

  lemma {:induction false} FailsUnrunnable(s: System, e: nat, i: TaskId, lease: int, maxAttempts: nat)
    requires e !in s.executions && i in s.db.tasks
    ensures var s1 := Next(s, SpawnDispatch(e, i), maxAttempts);
      var s3 := Next(Next(s1, Start(e, lease), maxAttempts), Fail(e), maxAttempts);
      s3.db == s.db.(tasks := s.db.tasks[i := UnrunnableRow(s.db.tasks[i], s.db.now, lease)]) && s3.pending == s.pending
  {
    var s1 := Next(s, SpawnDispatch(e, i), maxAttempts);
    assert s1.db == s.db && s1.executions[e] == Execution(i, DispatchOwner, Spawned, 0);
    DispatchStarts(s1, e, i, lease, maxAttempts);
    var s2 := Next(s1, Start(e, lease), maxAttempts);
    DispatchFails(s2, e, i, maxAttempts);
  }

  lemma {:induction false} DispatchStarts(s: System, e: nat, i: TaskId, lease: int, maxAttempts: nat)
    requires HasPhase(s, e, Spawned) && s.executions[e].task == i && s.executions[e].owner == DispatchOwner && i in s.db.tasks
    ensures var s2, t := Next(s, Start(e, lease), maxAttempts), s.db.tasks[i];
      && s2.pending == s.pending && e in s2.executions && s2.executions[e].task == i && s2.executions[e].owner == DispatchOwner
      && if t.state == Assigned then
           s2.executions[e].phase == Working
           && s2.db == s.db.(tasks := s.db.tasks[i := t.(state := Running, owner := Some(DispatchOwner), leaseExpires := s.db.now + lease)])
         else s2.executions[e].phase == Exited && s2.db == s.db
  {
    assert Next(s, Start(e, lease), maxAttempts).executions[e] == NextExecution(s, Start(e, lease), e);
  }

  lemma {:induction false} DispatchFails(s: System, e: nat, i: TaskId, maxAttempts: nat)
    requires e in s.executions && s.executions[e].task == i && s.executions[e].owner == DispatchOwner && i in s.db.tasks
    ensures var s3 := Next(s, Fail(e), maxAttempts);
      && s3.pending == s.pending
      && (s.executions[e].phase == Exited ==> s3.db == s.db)
      && (s.executions[e].phase == Working && s.db.tasks[i].state == Running && s.db.tasks[i].owner == Some(DispatchOwner) ==>
            s3.db == s.db.(tasks := s.db.tasks[i := s.db.tasks[i].(state := Failed)]))
  {
  }

  lemma {:induction false} DispatchAll(s: System, ids: set<TaskId>, runnable: OpDef -> bool, lease: int, maxAttempts: nat) returns (acts: seq<Action>)
    ensures Dispatches(acts) && RunFrom(s, acts, maxAttempts).db == Provision(s.db, ids, runnable, lease)
    ensures RunFrom(s, acts, maxAttempts).pending == s.pending
    decreases ids
  {
    if ids == {} {
      ProvisionNothing(s.db, runnable, lease);
      acts := [];
    } else {
      var i :| i in ids;
      var first := DispatchAll(s, ids - {i}, runnable, lease, maxAttempts);
      var last := DispatchOne(RunFrom(s, first, maxAttempts), i, runnable, lease, maxAttempts);
      ProvisionOneMore(s.db, ids - {i}, i, runnable, lease);
      assert (ids - {i}) + {i} == ids;
      RunFromConcat(s, first, last, maxAttempts);
      acts := first + last;
    }
  }

  // ---- assignment ----

  lemma {:induction false} InsertsKeepPending(s: System, acts: seq<Action>, maxAttempts: nat)
    requires Inserts(acts)
    ensures RunFrom(s, acts, maxAttempts).pending == s.pending
    decreases |acts|
  {
    if acts != [] {
      assert acts[0] in acts;
      InsertsKeepPending(Next(s, acts[0], maxAttempts), acts[1..], maxAttempts);
    }
  }

  function CandidateOf(db: Db, w: WorkflowId): Candidate
    requires w in db.workflows && db.workflows[w].currentOp < |db.workflows[w].definition|
  {
    Candidate(w, db.workflows[w].currentOp, db.workflows[w].definition[db.workflows[w].currentOp])
  }

  lemma {:induction false} InsertAll(s: System, rows: map<TaskId, Task>, created: set<TaskId>, done: set<WorkflowId>, lease: int, maxAttempts: nat)
    returns (acts: seq<Action>)
    requires Inserted(s.db, rows, created, done, lease) && forall w :: w in done ==> CandidateOf(s.db, w) in s.pending
    ensures Inserts(acts) && RunFrom(s, acts, maxAttempts).db == s.db.(tasks := rows)
    decreases created
  {
    if created == {} {
      assert rows == s.db.tasks;
      acts := [];
    } else {
      var i :| i in created;
      var w := rows[i].workflow;
      InsertedButOne(s.db, rows, created, done, lease, i);
      var first := InsertAll(s, rows - {i}, created - {i}, done - {w}, lease, maxAttempts);
      InsertsKeepPending(s, first, maxAttempts);
      InsertsOne(s.db, rows, created, done, lease, i);
      var last := InsertCandidate(CandidateOf(s.db, w), i, lease);
      ThenOne(s, first, last, maxAttempts);
      InsertStep(RunFrom(s, first, maxAttempts), last, maxAttempts);
      acts := first + [last];
    }
  }

  lemma {:induction false} InsertStep(s: System, a: Action, maxAttempts: nat)
    requires a.InsertCandidate? && a.candidate in s.pending
    ensures Next(s, a, maxAttempts).db == AssignInsert(s.db, a.candidate, a.id, a.lease)
  {
  }

  lemma {:induction false} InsertsOne(db: Db, rows: map<TaskId, Task>, created: set<TaskId>, done: set<WorkflowId>, lease: int, i: TaskId)
    requires Inserted(db, rows, created, done, lease) && i in created
    ensures CanInsert(db, rows[i].workflow)
    ensures AssignInsert(db.(tasks := rows - {i}), CandidateOf(db, rows[i].workflow), i, lease) == db.(tasks := rows)
  {
    var w := rows[i].workflow;
    InsertedButOne(db, rows, created, done, lease, i);
    StillInNeed(db, rows - {i}, created - {i}, done - {w}, lease, w);
  }

  // ---- the pass ----

  /** The statements of a pass, in the order in which it issues them, each for all
      rows: the two reaps, the dispatch of what was requeued, the two moves, the
      read, the inserts and the dispatch of what was created. */
  ghost predicate IsPass(db: Db, acts: seq<Action>, lease: int) {
    exists requeued, inserts, created ::
      && Dispatches(requeued) && Inserts(inserts) && Dispatches(created)
      && acts == [DoReap(db.tasks.Keys, lease), DoExhaust(db.tasks.Keys)] + requeued
           + [DoAdvance(db.workflows.Keys), DoFailWorkflows(db.workflows.Keys), ReadCandidates] + inserts + created
  }

  lemma {:induction false} TwoSteps(s: System, a: Action, b: Action, maxAttempts: nat)
    ensures RunFrom(s, [a, b], maxAttempts) == Next(Next(s, a, maxAttempts), b, maxAttempts)
  {
    assert [a, b][1..] == [b] && [b][1..] == [];
    var s1 := Next(s, a, maxAttempts);
    assert RunFrom(s1, [b], maxAttempts) == RunFrom(Next(s1, b, maxAttempts), [], maxAttempts);
  }

  /** The database after the four updates of a pass. */
  ghost function Updated(db: Db, lease: int, runnable: OpDef -> bool, maxAttempts: nat): Db {
    var reaped := Provision(Exhaust(Reap(db, db.tasks.Keys, lease, maxAttempts), db.tasks.Keys, maxAttempts),
                            Reaped(db, maxAttempts), runnable, lease);
    FailWorkflows(Advance(reaped, db.workflows.Keys), db.workflows.Keys)
  }

  lemma {:induction false} UpdatesRun(s: System, runnable: OpDef -> bool, lease: int, maxAttempts: nat) returns (requeued: seq<Action>)
    ensures Dispatches(requeued)
    ensures RunFrom(s, [DoReap(s.db.tasks.Keys, lease), DoExhaust(s.db.tasks.Keys)] + requeued
              + [DoAdvance(s.db.workflows.Keys), DoFailWorkflows(s.db.workflows.Keys), ReadCandidates], maxAttempts)
         == Next(RunFrom(s, [DoReap(s.db.tasks.Keys, lease), DoExhaust(s.db.tasks.Keys)] + requeued
              + [DoAdvance(s.db.workflows.Keys), DoFailWorkflows(s.db.workflows.Keys)], maxAttempts), ReadCandidates, maxAttempts)
    ensures RunFrom(s, [DoReap(s.db.tasks.Keys, lease), DoExhaust(s.db.tasks.Keys)] + requeued
              + [DoAdvance(s.db.workflows.Keys), DoFailWorkflows(s.db.workflows.Keys)], maxAttempts).db
         == Updated(s.db, lease, runnable, maxAttempts)
  {
    var reaps := [DoReap(s.db.tasks.Keys, lease), DoExhaust(s.db.tasks.Keys)];
    var moves := [DoAdvance(s.db.workflows.Keys), DoFailWorkflows(s.db.workflows.Keys)];
    TwoSteps(s, reaps[0], reaps[1], maxAttempts);
    var t := RunFrom(s, reaps, maxAttempts);
    requeued := DispatchAll(t, Reaped(s.db, maxAttempts), runnable, lease, maxAttempts);
    RunFromConcat(s, reaps, requeued, maxAttempts);
    var u := RunFrom(t, requeued, maxAttempts);
    TwoSteps(u, moves[0], moves[1], maxAttempts);
    RunFromConcat(s, reaps + requeued, moves, maxAttempts);
    ThenOne(s, reaps + requeued + moves, ReadCandidates, maxAttempts);
    assert reaps + requeued + moves + [ReadCandidates]
      == reaps + requeued + [DoAdvance(s.db.workflows.Keys), DoFailWorkflows(s.db.workflows.Keys), ReadCandidates];
  }

  lemma {:induction false} ThenOne(s: System, acts: seq<Action>, a: Action, maxAttempts: nat)
    ensures RunFrom(s, acts + [a], maxAttempts) == Next(RunFrom(s, acts, maxAttempts), a, maxAttempts)
  {
    var t := RunFrom(s, acts, maxAttempts);
    RunFromConcat(s, acts, [a], maxAttempts);
    assert [a][1..] == [];
    assert RunFrom(t, [a], maxAttempts) == RunFrom(Next(t, a, maxAttempts), [], maxAttempts);
  }

  /** The pass, run from `s`, leaves `db`. */
  ghost predicate PassLeadsTo(s: System, db: Db, lease: int, maxAttempts: nat) {
    exists acts :: IsPass(s.db, acts, lease) && RunFrom(s, acts, maxAttempts).db == db
  }

  /** Whatever the state of the rest of the system, what a pass leaves in the
      database is what its statements, issued in their order with nobody in between,
      leave there. */
  lemma {:induction false} PassIsRun(s: System, rows: map<TaskId, Task>, created: set<TaskId>, runnable: OpDef -> bool, lease: int, maxAttempts: nat)
    returns (acts: seq<Action>)
    requires var u := Updated(s.db, lease, runnable, maxAttempts);
      !AssignReadFails(u) && Inserted(u, rows, created, (set w | w in u.workflows && NeedsTask(u, w)), lease)
    ensures IsPass(s.db, acts, lease)
    ensures RunFrom(s, acts, maxAttempts).db
      == Provision(Updated(s.db, lease, runnable, maxAttempts).(tasks := rows), created, runnable, lease)
  {
    var u := Updated(s.db, lease, runnable, maxAttempts);
    var requeued := UpdatesRun(s, runnable, lease, maxAttempts);
    var head := [DoReap(s.db.tasks.Keys, lease), DoExhaust(s.db.tasks.Keys)] + requeued
      + [DoAdvance(s.db.workflows.Keys), DoFailWorkflows(s.db.workflows.Keys), ReadCandidates];
    var t := RunFrom(s, head, maxAttempts);
    assert t.db == u;
    var needy := set w | w in u.workflows && NeedsTask(u, w);
    forall w | w in needy ensures CandidateOf(u, w) in t.pending {
      assert CandidateOf(u, w) in AssignRead(u);
    }
    var inserts := InsertAll(t, rows, created, needy, lease, maxAttempts);
    RunFromConcat(s, head, inserts, maxAttempts);
    var last := DispatchAll(RunFrom(s, head + inserts, maxAttempts), created, runnable, lease, maxAttempts);
    RunFromConcat(s, head + inserts, last, maxAttempts);
    acts := head + inserts + last;
  }
}
