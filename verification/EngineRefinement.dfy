/** Each workflow refines a sequential interpreter of its definition, whatever
    orchestrators, executions, reaps and crashes interleave. */
module EngineRefinement {
  import opened Common
  import opened EngineRows
  import opened EngineRun

  /** The interpreter: how many operations have run, and the verdict. */
  datatype Interpreter = Interpreter(done: nat, verdict: WorkflowState)

  /** It runs the next operation, or accepts after the last one, or gives up. */
  predicate Interprets(n: nat, a: Interpreter, b: Interpreter) {
    && a.verdict == InProgress
    && (|| (a.done < n && b == Interpreter(a.done + 1, InProgress))
        || (a.done == n && b == Interpreter(n, Succeeded))
        || (a.done < n && b == Interpreter(a.done, Defeated)))
  }

  ghost function Abs(db: Db, w: WorkflowId): Interpreter
    requires w in db.workflows
  {
    Interpreter(Done(db, w), db.workflows[w].state)
  }

  /** One database step stutters, or makes one interpreter step; the visible
      mutations of `w` grow by operation `done` exactly when it runs one. */
  ghost predicate Simulates(db: Db, db': Db, w: WorkflowId)
    requires w in db.workflows && w in db'.workflows
  {
    var a, b := Abs(db, w), Abs(db', w);
    && (a == b || Interprets(|db.workflows[w].definition|, a, b))
    && (b.done == a.done ==> CommitsOf(db'.store, w) == CommitsOf(db.store, w))
    && (b.done != a.done ==>
          && |CommitsOf(db'.store, w)| == a.done + 1 && a.done < |db.workflows[w].definition|
          && CommitsOf(db'.store, w)[..a.done] == CommitsOf(db.store, w)
          && CommitsOf(db'.store, w)[a.done].op == db.workflows[w].definition[a.done])
  }

  lemma {:induction false} RowsUpdatedSimulates(db: Db, db': Db, w: WorkflowId, maxAttempts: nat)
    requires RowsUpdated(db, db', maxAttempts) && w in db.workflows
    ensures Simulates(db, db', w)
  {
    RowsUpdatedKeepsCurrent(db, db', w, maxAttempts);
  }

  lemma {:induction false} AdvanceSimulates(db: Db, ids: set<WorkflowId>, w: WorkflowId, maxAttempts: nat)
    requires DbInv(db, maxAttempts) && w in db.workflows
    ensures Simulates(db, Advance(db, ids), w)
  {
    SameRowsSameKeys(db, Advance(db, ids));
    NothingBeyondCurrent(db, w, maxAttempts);
    assert WorkflowOk(db, w) && CommitsInOrder(db, w);
  }

  lemma {:induction false} FailWorkflowsSimulates(db: Db, ids: set<WorkflowId>, w: WorkflowId, maxAttempts: nat)
    requires DbInv(db, maxAttempts) && w in db.workflows
    ensures Simulates(db, FailWorkflows(db, ids), w)
  {
    var db' := FailWorkflows(db, ids);
    SameRowsSameKeys(db, db');
    assert forall st :: CurrentTaskIs(db', w, st) == CurrentTaskIs(db, w, st);
    if db'.workflows[w] != db.workflows[w] {
      DefeatedIsNotFinished(db, w, maxAttempts);
    }
  }

  lemma {:induction false} CompleteSimulates(db: Db, id: TaskId, owner: Owner, writes: seq<Write>, w: WorkflowId, maxAttempts: nat)
    requires DbInv(db, maxAttempts) && w in db.workflows
    ensures Simulates(db, CompleteTask(db, id, owner, writes), w)
  {
    var db' := CompleteTask(db, id, owner, writes);
    CompleteKeepsInv(db, id, owner, writes, maxAttempts);
    assert CommitsInOrder(db, w) && CommitsInOrder(db', w);
    if Holds(db, id, owner) {
      assert TaskOk(db, id, maxAttempts) && WorkflowOk(db, w);
      CommitsOfAppend(db.store, CommitOf(db, id, writes), w);
    }
  }

  lemma {:induction false} WorkflowStepSimulates(s: System, a: Action, w: WorkflowId, maxAttempts: nat)
    requires DbInv(s.db, maxAttempts) && w in s.db.workflows
    requires a.Create? || a.DoAdvance? || a.DoFailWorkflows? || a.InsertCandidate?
    ensures w in NextDb(s, a, maxAttempts).workflows && Simulates(s.db, NextDb(s, a, maxAttempts), w)
  {
    match a
    case Create(v, definition) => CreateSimulates(s.db, v, definition, w);
    case DoAdvance(ids) => AdvanceSimulates(s.db, ids, w, maxAttempts);
    case DoFailWorkflows(ids) => FailWorkflowsSimulates(s.db, ids, w, maxAttempts);
    case InsertCandidate(c, id, lease) => InsertSimulates(s.db, c, id, lease, w);
  }

  lemma {:induction false} CreateSimulates(db: Db, v: WorkflowId, definition: seq<OpDef>, w: WorkflowId)
    requires w in db.workflows
    ensures w in CreateWorkflow(db, v, definition).workflows && Simulates(db, CreateWorkflow(db, v, definition), w)
  {
    SameRowsSameKeys(db, CreateWorkflow(db, v, definition));
  }

  lemma {:induction false} InsertSimulates(db: Db, c: Candidate, id: TaskId, lease: int, w: WorkflowId)
    requires w in db.workflows
    ensures Simulates(db, AssignInsert(db, c, id, lease), w)
  {
    InsertKeepsCurrent(db, c, id, lease, w, Finished);
  }

  lemma {:induction false} NextSimulates(s: System, a: Action, w: WorkflowId, maxAttempts: nat)
    requires DbInv(s.db, maxAttempts) && w in s.db.workflows
    ensures w in NextDb(s, a, maxAttempts).workflows && Simulates(s.db, NextDb(s, a, maxAttempts), w)
  {
    if a.Create? || a.DoAdvance? || a.DoFailWorkflows? || a.InsertCandidate? {
      WorkflowStepSimulates(s, a, w, maxAttempts);
    } else if a.Complete? {
      if HasPhase(s, a.e, Working) {
        CompleteSimulates(s.db, s.executions[a.e].task, s.executions[a.e].owner, a.writes, w, maxAttempts);
      }
    } else {
      OthersUpdateRows(s, a, maxAttempts);
      RowsUpdatedSimulates(s.db, NextDb(s, a, maxAttempts), w, maxAttempts);
    }
  }

  lemma {:induction false} OthersUpdateRows(s: System, a: Action, maxAttempts: nat)
    requires !a.Create? && !a.DoAdvance? && !a.DoFailWorkflows? && !a.InsertCandidate? && !a.Complete?
    ensures RowsUpdated(s.db, NextDb(s, a, maxAttempts), maxAttempts)
  {
    if a.DoReap? { ReapUpdatesRows(s.db, a.tasks, a.lease, maxAttempts); }
    if a.DoExhaust? { ExhaustUpdatesRows(s.db, a.tasks, maxAttempts); }
    if (a.Start? || a.Renew? || a.Fail?) && a.e in s.executions {
      ExecutorUpdatesRows(s.db, s.executions[a.e].task, s.executions[a.e].owner,
                          if a.Fail? then 0 else a.lease, maxAttempts);
    }
  }

  // ---- counting finished tasks ----

  ghost function FinishedTasks(db: Db, w: WorkflowId): set<TaskId> {
    set i | i in db.tasks && db.tasks[i].workflow == w && db.tasks[i].state == Finished
  }

  lemma {:induction false} DistinctImageSize(cs: seq<Commit>)
    requires forall i, j :: 0 <= i < j < |cs| ==> cs[i].task != cs[j].task
    ensures |set c | c in cs :: c.task| == |cs|
  {
    if cs != [] {
      var n := |cs| - 1;
      DistinctImageSize(cs[..n]);
      assert cs == cs[..n] + [cs[n]];
      assert (set c | c in cs :: c.task) == (set c | c in cs[..n] :: c.task) + {cs[n].task};
    }
  }

  lemma {:induction false} DoneCountsFinished(db: Db, w: WorkflowId, maxAttempts: nat)
    requires DbInv(db, maxAttempts) && w in db.workflows
    ensures |FinishedTasks(db, w)| == Done(db, w)
  {
    var cs := CommitsOf(db.store, w);
    assert CommitsInOrder(db, w);
    forall i | i in FinishedTasks(db, w) ensures exists c :: c in cs && c.task == i {
      assert TaskOk(db, i, maxAttempts) && IsTaskOf(db, i, w, db.tasks[i].opIndex);
      var c := cs[db.tasks[i].opIndex];
      assert c in cs && IsTaskOf(db, c.task, w, c.opIndex);
    }
    assert FinishedTasks(db, w) == set c | c in cs :: c.task;
    DistinctImageSize(cs);
  }

  // ---- main results ----

  /** Over every run from the empty database: the visible mutations of a
      workflow are operations 0..c-1 of its definition in that order, each once,
      c is the number of finished tasks, and the verdict matches. */
  lemma {:induction false} RunsLikeInterpreter(now: int, acts: seq<Action>, w: WorkflowId, maxAttempts: nat)
    requires 1 <= maxAttempts
    ensures var db := RunFrom(Init(now), acts, maxAttempts).db;
      w in db.workflows ==>
        var wf, cs := db.workflows[w], CommitsOf(db.store, w);
        && |cs| == |FinishedTasks(db, w)| <= |wf.definition|
        && (forall k :: 0 <= k < |cs| ==> cs[k].opIndex == k && cs[k].op == wf.definition[k])
        && wf.currentOp <= |cs| <= wf.currentOp + 1
        && (wf.state == Succeeded <==> |cs| == wf.currentOp == |wf.definition|)
        && (wf.state == Defeated ==> CurrentTaskIs(db, w, Failed) && |cs| == wf.currentOp < |wf.definition|)
        && (forall i :: i in db.tasks && db.tasks[i].workflow == w ==> db.tasks[i].opIndex <= wf.currentOp)
  {
    var s := RunFrom(Init(now), acts, maxAttempts);
    RunKeepsInv(Init(now), acts, maxAttempts);
    if w in s.db.workflows {
      assert WorkflowOk(s.db, w) && CommitsInOrder(s.db, w);
      DoneCountsFinished(s.db, w, maxAttempts);
      forall i | i in s.db.tasks && s.db.tasks[i].workflow == w
        ensures s.db.tasks[i].opIndex <= s.db.workflows[w].currentOp
      {
        assert TaskOk(s.db, i, maxAttempts);
      }
      if s.db.workflows[w].state == Defeated {
        DefeatedIsNotFinished(s.db, w, maxAttempts);
      }
    }
  }

  lemma {:induction false} DefeatedIsNotFinished(db: Db, w: WorkflowId, maxAttempts: nat)
    requires DbInv(db, maxAttempts) && w in db.workflows && CurrentTaskIs(db, w, Failed)
    ensures !CurrentTaskIs(db, w, Finished) && db.workflows[w].currentOp < |db.workflows[w].definition|
  {
    var i :| IsTaskOf(db, i, w, db.workflows[w].currentOp) && db.tasks[i].state == Failed;
    assert TaskOk(db, i, maxAttempts);
  }

  /** The part of the database that belongs to one workflow. */
  ghost predicate SameFor(db: Db, db': Db, w: WorkflowId) {
    && w in db.workflows && w in db'.workflows && db'.workflows[w] == db.workflows[w]
    && CommitsOf(db'.store, w) == CommitsOf(db.store, w)
    && forall i :: (i in db.tasks && db.tasks[i].workflow == w) || (i in db'.tasks && db'.tasks[i].workflow == w)
         ==> i in db.tasks && i in db'.tasks && db'.tasks[i] == db.tasks[i]
  }

  lemma {:induction false} VerdictSettlesTasks(db: Db, w: WorkflowId, i: TaskId, maxAttempts: nat)
    requires DbInv(db, maxAttempts) && w in db.workflows && db.workflows[w].state != InProgress
    requires i in db.tasks && db.tasks[i].workflow == w
    ensures !Live(db.tasks[i])
  {
    assert WorkflowOk(db, w) && TaskOk(db, i, maxAttempts);
    if db.tasks[i].opIndex == db.workflows[w].currentOp {
      assert IsTaskOf(db, i, w, db.workflows[w].currentOp);
    }
  }

  /** The terminal-write trigger of schema.sql never fires: no statement of the
      engine reaches a finished or failed row. */
  lemma {:induction false} NextKeepsSettledRow(s: System, a: Action, i: TaskId, maxAttempts: nat)
    requires i in s.db.tasks && !Live(s.db.tasks[i])
    ensures i in NextDb(s, a, maxAttempts).tasks && NextDb(s, a, maxAttempts).tasks[i] == s.db.tasks[i]
  {
  }

  lemma {:induction false} VerdictAddsNoTask(s: System, a: Action, w: WorkflowId, i: TaskId, maxAttempts: nat)
    requires Inv(s, maxAttempts) && w in s.db.workflows && s.db.workflows[w].state != InProgress
    requires i in NextDb(s, a, maxAttempts).tasks && i !in s.db.tasks
    ensures NextDb(s, a, maxAttempts).tasks[i].workflow != w
  {
    OnlyInsertAddsRows(s, a, i, maxAttempts);
    assert ReadOk(s.db, a.candidate);
  }

  lemma {:induction false} OnlyInsertAddsRows(s: System, a: Action, i: TaskId, maxAttempts: nat)
    requires i in NextDb(s, a, maxAttempts).tasks && i !in s.db.tasks
    ensures a.InsertCandidate? && a.candidate in s.pending
    ensures NextDb(s, a, maxAttempts).tasks[i].workflow == a.candidate.workflow
    ensures !HasTask(s.db, a.candidate.workflow, a.candidate.opIndex)
  {
  }

  lemma {:induction false} VerdictStepIsFrozen(s: System, a: Action, w: WorkflowId, maxAttempts: nat)
    requires 1 <= maxAttempts && Inv(s, maxAttempts)
    requires w in s.db.workflows && s.db.workflows[w].state != InProgress
    ensures SameFor(s.db, NextDb(s, a, maxAttempts), w)
  {
    var db, db' := s.db, NextDb(s, a, maxAttempts);
    NextWorkflows(s, a, w, maxAttempts);
    NextSimulates(s, a, w, maxAttempts);
    NextRowsStay(s, a, maxAttempts);
    forall i | (i in db.tasks && db.tasks[i].workflow == w) || (i in db'.tasks && db'.tasks[i].workflow == w)
      ensures i in db.tasks && i in db'.tasks && db'.tasks[i] == db.tasks[i]
    {
      if i !in db.tasks {
        VerdictAddsNoTask(s, a, w, i, maxAttempts);
      } else {
        assert IsTaskOf(db, i, db.tasks[i].workflow, db.tasks[i].opIndex);
        assert IsTaskOf(db', i, db.tasks[i].workflow, db.tasks[i].opIndex);
        VerdictSettlesTasks(db, w, i, maxAttempts);
        NextKeepsSettledRow(s, a, i, maxAttempts);
      }
    }
  }

  /** A verdict is final: no later action of any kind changes the workflow's
      row, its tasks or its mutations, and no task is ever added to it. */
  lemma {:induction false} VerdictIsFinal(s: System, acts: seq<Action>, w: WorkflowId, maxAttempts: nat)
    requires 1 <= maxAttempts && Inv(s, maxAttempts)
    requires w in s.db.workflows && s.db.workflows[w].state != InProgress
    ensures SameFor(s.db, RunFrom(s, acts, maxAttempts).db, w)
    decreases |acts|
  {
    if acts != [] {
      VerdictStepIsFrozen(s, acts[0], w, maxAttempts);
      NextKeepsInv(s, acts[0], maxAttempts);
      VerdictIsFinal(Next(s, acts[0], maxAttempts), acts[1..], w, maxAttempts);
    }
  }
}
