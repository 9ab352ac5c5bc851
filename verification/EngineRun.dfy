/** Orchestrators, executions, crashes and the clock interleaved over one
    database, and the theorem that a workflow runs as if one interpreter
    executed its operations in order. */
module EngineRun {
  import opened Common
  import opened EngineRows

  /** The body of ExecuteTask as a program counter; a fan-out slot is held until
      its execution is Gone. */
  datatype Phase = Spawned | Working | Exited | Gone

  /** `attempt` is the row's attempt when this execution won StartTask. */
  datatype Execution = Execution(task: TaskId, owner: Owner, phase: Phase, attempt: nat)

  /** `pending` holds what assignment statements have read and not yet inserted;
      `serial` is each core's InlineRunner.seq, `inflight` each worker's map. */
  datatype System = System(
    db: Db,
    pending: set<Candidate>,
    executions: map<nat, Execution>,
    serial: map<nat, nat>,
    inflight: set<(nat, TaskId)>,
    dead: set<nat>)

  datatype Action =
    | Tick(d: nat)
    | Create(workflow: WorkflowId, definition: seq<OpDef>)
    | DoReap(tasks: set<TaskId>, lease: int)
    | DoExhaust(tasks: set<TaskId>)
    | DoAdvance(workflows: set<WorkflowId>)
    | DoFailWorkflows(workflows: set<WorkflowId>)
    | ReadCandidates
    | InsertCandidate(candidate: Candidate, id: TaskId, lease: int)
    | SpawnInline(e: nat, process: nat, id: TaskId)
    | SpawnWorker(e: nat, process: nat, id: TaskId)
    | SpawnDispatch(e: nat, id: TaskId)
    | Start(e: nat, lease: int)
    | Renew(e: nat, lease: int)
    | Complete(e: nat, writes: seq<Write>)
    | Fail(e: nat)
    | Abandon(e: nat)
    | LeaveSlot(e: nat)
    | Crash(process: nat)

  function Process(o: Owner): Option<nat> {
    match o
    case InlineOwner(p, _, _) => Some(p)
    case WorkerOwner(p, _) => Some(p)
    case DispatchOwner => None
  }

  function Serial(s: System, p: nat): nat {
    if p in s.serial then s.serial[p] else 0
  }

  function Init(now: int): System {
    System(Db(now, map[], map[], []), {}, map[], map[], {}, {})
  }

  /** The statement an action runs against the database. The dispatcher only
      ever starts and fails. */
  ghost function NextDb(s: System, a: Action, maxAttempts: nat): Db {
    match a
    case Tick(d) => s.db.(now := s.db.now + d)
    case Create(w, definition) => CreateWorkflow(s.db, w, definition)
    case DoReap(ids, lease) => Reap(s.db, ids, lease, maxAttempts)
    case DoExhaust(ids) => Exhaust(s.db, ids, maxAttempts)
    case DoAdvance(ids) => Advance(s.db, ids)
    case DoFailWorkflows(ids) => FailWorkflows(s.db, ids)
    case InsertCandidate(c, id, lease) => if c in s.pending then AssignInsert(s.db, c, id, lease) else s.db
    case Start(e, lease) =>
      if HasPhase(s, e, Spawned) then StartTask(s.db, s.executions[e].task, s.executions[e].owner, lease) else s.db
    case Renew(e, lease) =>
      if HasPhase(s, e, Working) && !s.executions[e].owner.DispatchOwner?
      then RenewLease(s.db, s.executions[e].task, s.executions[e].owner, lease) else s.db
    case Complete(e, writes) =>
      if HasPhase(s, e, Working) && !s.executions[e].owner.DispatchOwner?
      then CompleteTask(s.db, s.executions[e].task, s.executions[e].owner, writes) else s.db
    case Fail(e) =>
      if HasPhase(s, e, Working) then FailTask(s.db, s.executions[e].task, s.executions[e].owner) else s.db
    case _ => s.db
  }

  predicate HasPhase(s: System, e: nat, phase: Phase) {
    e in s.executions && s.executions[e].phase == phase
  }

  /** A new execution's owner; None when the spawn is refused. */
  function SpawnOwner(s: System, a: Action): Option<Owner> {
    match a
    case SpawnInline(e, p, id) =>
      if e in s.executions || p in s.dead then None else Some(InlineOwner(p, id, Serial(s, p) + 1))
    case SpawnWorker(e, p, id) =>
      if e in s.executions || p in s.dead || (p, id) in s.inflight then None else Some(WorkerOwner(p, id))
    case SpawnDispatch(e, id) => if e in s.executions then None else Some(DispatchOwner)
    case _ => None
  }

  /** The execution an action moves and where it goes. */
  function NextExecution(s: System, a: Action, e: nat): Execution
    requires e in s.executions
  {
    var x := s.executions[e];
    match a
    case Start(f, _) =>
      if f != e || x.phase != Spawned then x
      else if CanStart(s.db, x.task) then x.(phase := Working, attempt := s.db.tasks[x.task].attempt)
      else x.(phase := Exited)
    case Complete(f, _) => if f == e && x.phase == Working && !x.owner.DispatchOwner? then x.(phase := Exited) else x
    case Fail(f) => if f == e && x.phase == Working then x.(phase := Exited) else x
    case Abandon(f) => if f == e && x.phase != Gone then x.(phase := Exited) else x
    case LeaveSlot(f) => if f == e && x.phase == Exited && x.owner.WorkerOwner? then x.(phase := Gone) else x
    case Crash(p) => if Process(x.owner) == Some(p) && x.phase != Gone then x.(phase := Exited) else x
    case _ => x
  }

  function NextExecutions(s: System, a: Action): map<nat, Execution> {
    var moved := map e | e in s.executions :: NextExecution(s, a, e);
    if SpawnOwner(s, a).Some? then moved[a.e := Execution(a.id, SpawnOwner(s, a).value, Spawned, 0)] else moved
  }

  function NextInflight(s: System, a: Action): set<(nat, TaskId)> {
    match a
    case SpawnWorker(_, p, id) => if SpawnOwner(s, a).Some? then s.inflight + {(p, id)} else s.inflight
    case LeaveSlot(e) =>
      if HasPhase(s, e, Exited) && s.executions[e].owner.WorkerOwner?
      then s.inflight - {(s.executions[e].owner.process, s.executions[e].owner.task)} else s.inflight
    case _ => s.inflight
  }

  /** One step; an action that is not possible changes nothing. */
  ghost function Next(s: System, a: Action, maxAttempts: nat): System {
    System(
      NextDb(s, a, maxAttempts),
      if a.ReadCandidates? && !AssignReadFails(s.db) then s.pending + AssignRead(s.db) else s.pending,
      NextExecutions(s, a),
      if a.SpawnInline? && SpawnOwner(s, a).Some? then s.serial[a.process := Serial(s, a.process) + 1] else s.serial,
      NextInflight(s, a),
      if a.Crash? then s.dead + {a.process} else s.dead)
  }

  ghost function RunFrom(s: System, acts: seq<Action>, maxAttempts: nat): System
    decreases |acts|
  {
    if acts == [] then s
    else RunFrom(Next(s, acts[0], maxAttempts), acts[1..], maxAttempts)
  }

  lemma {:induction false} RunFromConcat(s: System, a: seq<Action>, b: seq<Action>, maxAttempts: nat)
    ensures RunFrom(s, a + b, maxAttempts) == RunFrom(RunFrom(s, a, maxAttempts), b, maxAttempts)
    decreases |a|
  {
    if a == [] {
      assert a + b == b;
    } else {
      assert (a + b)[0] == a[0] && (a + b)[1..] == a[1..] + b;
      RunFromConcat(Next(s, a[0], maxAttempts), a[1..], b, maxAttempts);
    }
  }

  // ---- the invariant ----

  ghost predicate TaskOk(db: Db, i: TaskId, maxAttempts: nat)
    requires i in db.tasks
  {
    var t := db.tasks[i];
    && t.workflow in db.workflows
    && var w := db.workflows[t.workflow];
    && t.opIndex < |w.definition| && t.opIndex <= w.currentOp
    && t.op == w.definition[t.opIndex]
    && 1 <= t.attempt <= maxAttempts
    && (t.opIndex < w.currentOp ==> t.state == Finished)
  }

  ghost predicate WorkflowOk(db: Db, w: WorkflowId)
    requires w in db.workflows
  {
    var wf := db.workflows[w];
    && 0 < |wf.definition| && wf.currentOp <= |wf.definition|
    && (wf.state == Succeeded <==> wf.currentOp == |wf.definition|)
    && (forall k :: 0 <= k < wf.currentOp ==> HasTask(db, w, k))
    && (wf.state == Defeated ==> CurrentTaskIs(db, w, Failed))
  }

  ghost predicate UniqueKeys(db: Db) {
    forall i, j, w, k :: IsTaskOf(db, i, w, k) && IsTaskOf(db, j, w, k) ==> i == j
  }

  /** The visible mutations of one workflow, in commit order. */
  function CommitsOf(store: seq<Commit>, w: WorkflowId): seq<Commit> {
    if store == [] then []
    else
      var c := store[|store| - 1];
      CommitsOf(store[..|store| - 1], w) + if c.workflow == w then [c] else []
  }

  /** How many operations of `w` have finished. */
  ghost function Done(db: Db, w: WorkflowId): nat
    requires w in db.workflows
  {
    db.workflows[w].currentOp + if CurrentTaskIs(db, w, Finished) then 1 else 0
  }

  /** `db`'s visible mutations of `w` are operations 0..Done-1, each made by the
      finished task of that operation. */
  ghost predicate CommitsInOrder(db: Db, w: WorkflowId)
    requires w in db.workflows
  {
    var cs := CommitsOf(db.store, w);
    && |cs| == Done(db, w) <= |db.workflows[w].definition|
    && forall k :: 0 <= k < |cs| ==>
         && cs[k].workflow == w && cs[k].opIndex == k && cs[k].op == db.workflows[w].definition[k]
         && IsTaskOf(db, cs[k].task, w, k) && db.tasks[cs[k].task].state == Finished
  }

  ghost predicate DbInv(db: Db, maxAttempts: nat) {
    && (forall i :: i in db.tasks ==> TaskOk(db, i, maxAttempts))
    && UniqueKeys(db)
    && (forall w :: w in db.workflows ==> WorkflowOk(db, w))
    && (forall w :: w in db.workflows ==> CommitsInOrder(db, w))
    && (forall c :: c in db.store ==> c.workflow in db.workflows)
  }

  /** A candidate may be stale, but then its task row exists. */
  ghost predicate ReadOk(db: Db, c: Candidate) {
    && c.workflow in db.workflows
    && var w := db.workflows[c.workflow];
    && c.opIndex < |w.definition| && c.opIndex <= w.currentOp
    && c.op == w.definition[c.opIndex]
    && (c.opIndex < w.currentOp || w.state != InProgress ==> HasTask(db, c.workflow, c.opIndex))
  }

  ghost predicate Inv(s: System, maxAttempts: nat) {
    && DbInv(s.db, maxAttempts)
    && forall c :: c in s.pending ==> ReadOk(s.db, c)
  }

  // ---- every statement keeps the invariant ----

  /** What an UPDATE of one task row may do. */
  ghost predicate RowUpdate(t: Task, t': Task, maxAttempts: nat) {
    && t'.workflow == t.workflow && t'.opIndex == t.opIndex && t'.op == t.op
    && (!Live(t) ==> t' == t)
    && (t'.state == Finished ==> t.state == Finished)
    && t.attempt <= t'.attempt
    && (t.attempt <= maxAttempts ==> t'.attempt <= maxAttempts)
  }

  /** Rows are updated in place and nothing finishes. */
  ghost predicate RowsUpdated(db: Db, db': Db, maxAttempts: nat) {
    && db'.workflows == db.workflows && db'.store == db.store
    && db'.tasks.Keys == db.tasks.Keys
    && forall i :: i in db.tasks ==> RowUpdate(db.tasks[i], db'.tasks[i], maxAttempts)
  }

  lemma RowsUpdatedKeepsKeys(db: Db, db': Db, maxAttempts: nat)
    requires RowsUpdated(db, db', maxAttempts)
    ensures forall i, w, k :: IsTaskOf(db', i, w, k) <==> IsTaskOf(db, i, w, k)
    ensures forall w, k :: HasTask(db', w, k) <==> HasTask(db, w, k)
  {
    assert forall i, w, k :: IsTaskOf(db', i, w, k) <==> IsTaskOf(db, i, w, k);
    forall w, k ensures HasTask(db', w, k) <==> HasTask(db, w, k) {
      if HasTask(db, w, k) { var i :| IsTaskOf(db, i, w, k); assert IsTaskOf(db', i, w, k); }
    }
  }

  lemma {:induction false} RowsUpdatedKeepsCurrent(db: Db, db': Db, w: WorkflowId, maxAttempts: nat)
    requires RowsUpdated(db, db', maxAttempts) && w in db.workflows
    ensures CurrentTaskIs(db', w, Finished) <==> CurrentTaskIs(db, w, Finished)
    ensures CurrentTaskIs(db, w, Failed) ==> CurrentTaskIs(db', w, Failed)
  {
    var k := db.workflows[w].currentOp;
    if CurrentTaskIs(db, w, Finished) {
      var i :| IsTaskOf(db, i, w, k) && db.tasks[i].state == Finished;
      assert IsTaskOf(db', i, w, k) && db'.tasks[i].state == Finished;
    }
    if CurrentTaskIs(db, w, Failed) {
      var i :| IsTaskOf(db, i, w, k) && db.tasks[i].state == Failed;
      assert IsTaskOf(db', i, w, k) && db'.tasks[i].state == Failed;
    }
  }

  lemma {:induction false} RowsUpdatedKeepsWorkflow(db: Db, db': Db, w: WorkflowId, maxAttempts: nat)
    requires RowsUpdated(db, db', maxAttempts) && w in db.workflows
    requires WorkflowOk(db, w) && CommitsInOrder(db, w)
    ensures WorkflowOk(db', w) && CommitsInOrder(db', w)
  {
    RowsUpdatedKeepsKeys(db, db', maxAttempts);
    RowsUpdatedKeepsCurrent(db, db', w, maxAttempts);
  }

  lemma {:induction false} RowsUpdatedKeepsInv(db: Db, db': Db, maxAttempts: nat)
    requires DbInv(db, maxAttempts) && RowsUpdated(db, db', maxAttempts)
    ensures DbInv(db', maxAttempts)
  {
    RowsUpdatedKeepsUnique(db, db', maxAttempts);
    forall w | w in db'.workflows ensures WorkflowOk(db', w) && CommitsInOrder(db', w) {
      RowsUpdatedKeepsWorkflow(db, db', w, maxAttempts);
    }
    forall i | i in db'.tasks ensures TaskOk(db', i, maxAttempts) {
      RowsUpdatedKeepsTask(db, db', i, maxAttempts);
    }
  }

  lemma {:induction false} RowsUpdatedKeepsUnique(db: Db, db': Db, maxAttempts: nat)
    requires UniqueKeys(db) && RowsUpdated(db, db', maxAttempts)
    ensures UniqueKeys(db')
  {
    RowsUpdatedKeepsKeys(db, db', maxAttempts);
  }

  lemma {:induction false} RowsUpdatedKeepsTask(db: Db, db': Db, i: TaskId, maxAttempts: nat)
    requires RowsUpdated(db, db', maxAttempts) && i in db.tasks && TaskOk(db, i, maxAttempts)
    ensures TaskOk(db', i, maxAttempts)
  {
    assert RowUpdate(db.tasks[i], db'.tasks[i], maxAttempts);
  }

  lemma {:induction false} ReapUpdatesRows(db: Db, ids: set<TaskId>, lease: int, maxAttempts: nat)
    ensures RowsUpdated(db, Reap(db, ids, lease, maxAttempts), maxAttempts)
  {
  }

  lemma {:induction false} ExhaustUpdatesRows(db: Db, ids: set<TaskId>, maxAttempts: nat)
    ensures RowsUpdated(db, Exhaust(db, ids, maxAttempts), maxAttempts)
  {
  }

  lemma {:induction false} ExecutorUpdatesRows(db: Db, id: TaskId, owner: Owner, lease: int, maxAttempts: nat)
    ensures RowsUpdated(db, StartTask(db, id, owner, lease), maxAttempts)
    ensures RowsUpdated(db, RenewLease(db, id, owner, lease), maxAttempts)
    ensures RowsUpdated(db, FailTask(db, id, owner), maxAttempts)
  {
  }

  lemma {:induction false} CreateKeepsInv(db: Db, w: WorkflowId, definition: seq<OpDef>, maxAttempts: nat)
    requires DbInv(db, maxAttempts)
    ensures DbInv(CreateWorkflow(db, w, definition), maxAttempts)
  {
    var db' := CreateWorkflow(db, w, definition);
    if db' != db {
      assert forall i, v, k :: IsTaskOf(db', i, v, k) == IsTaskOf(db, i, v, k);
      NoCommitsOf(db.store, w);
      forall v | v in db'.workflows ensures WorkflowOk(db', v) && CommitsInOrder(db', v) {
        if v in db.workflows { SameTasksKeepWorkflow(db, db', v); } else { assert !HasTask(db, w, 0); }
      }
      forall i | i in db'.tasks ensures TaskOk(db', i, maxAttempts) {
        assert TaskOk(db, i, maxAttempts);
      }
    }
  }

  lemma {:induction false} NoCommitsOf(store: seq<Commit>, w: WorkflowId)
    requires forall c :: c in store ==> c.workflow != w
    ensures CommitsOf(store, w) == []
  {
    if store != [] { NoCommitsOf(store[..|store| - 1], w); }
  }

  /** A workflow row that a statement leaves alone, with its tasks and commits. */
  lemma {:induction false} SameTasksKeepWorkflow(db: Db, db': Db, w: WorkflowId)
    requires w in db.workflows && w in db'.workflows && db'.workflows[w] == db.workflows[w]
    requires db'.tasks == db.tasks && db'.store == db.store
    requires WorkflowOk(db, w) && CommitsInOrder(db, w)
    ensures WorkflowOk(db', w) && CommitsInOrder(db', w)
  {
    assert forall i, v, k :: IsTaskOf(db', i, v, k) == IsTaskOf(db, i, v, k);
    assert forall k :: HasTask(db', w, k) == HasTask(db, w, k);
  }

  lemma {:induction false} AdvanceKeepsWorkflow(db: Db, ids: set<WorkflowId>, w: WorkflowId, maxAttempts: nat)
    requires DbInv(db, maxAttempts) && w in db.workflows
    ensures var db' := Advance(db, ids); WorkflowOk(db', w) && CommitsInOrder(db', w)
  {
    var db' := Advance(db, ids);
    assert WorkflowOk(db, w) && CommitsInOrder(db, w);
    if db'.workflows[w] == db.workflows[w] {
      SameTasksKeepWorkflow(db, db', w);
    } else {
      NothingBeyondCurrent(db, w, maxAttempts);
      AdvancedKeepsWorkflow(db, db', w);
    }
  }

  lemma {:induction false} AdvancedKeepsWorkflow(db: Db, db': Db, w: WorkflowId)
    requires w in db.workflows && w in db'.workflows && db'.tasks == db.tasks && db'.store == db.store
    requires db.workflows[w].state == InProgress && CurrentTaskIs(db, w, Finished) && db'.workflows[w] == AdvanceRow(db.workflows[w])
    requires WorkflowOk(db, w) && CommitsInOrder(db, w) && !HasTask(db, w, db.workflows[w].currentOp + 1)
    ensures WorkflowOk(db', w) && CommitsInOrder(db', w)
  {
    SameRowsSameKeys(db, db');
    assert !CurrentTaskIs(db', w, Finished);
  }

  lemma NothingBeyondCurrent(db: Db, w: WorkflowId, maxAttempts: nat)
    requires DbInv(db, maxAttempts) && w in db.workflows
    ensures !HasTask(db, w, db.workflows[w].currentOp + 1)
  {
  }

  lemma SameRowsSameKeys(db: Db, db': Db)
    requires db'.tasks == db.tasks
    ensures forall i, w, k :: IsTaskOf(db', i, w, k) == IsTaskOf(db, i, w, k)
    ensures forall w, k :: HasTask(db', w, k) == HasTask(db, w, k)
  {
    assert forall i, w, k :: IsTaskOf(db', i, w, k) == IsTaskOf(db, i, w, k);
  }

  lemma {:induction false} AdvanceKeepsInv(db: Db, ids: set<WorkflowId>, maxAttempts: nat)
    requires DbInv(db, maxAttempts)
    ensures DbInv(Advance(db, ids), maxAttempts)
  {
    var db' := Advance(db, ids);
    forall w | w in db'.workflows ensures WorkflowOk(db', w) && CommitsInOrder(db', w) {
      AdvanceKeepsWorkflow(db, ids, w, maxAttempts);
    }
    assert forall i, v, k :: IsTaskOf(db', i, v, k) == IsTaskOf(db, i, v, k);
    forall i | i in db'.tasks ensures TaskOk(db', i, maxAttempts) {
      assert TaskOk(db, i, maxAttempts);
      var w := db.tasks[i].workflow;
      if db'.workflows[w] != db.workflows[w] && db.tasks[i].opIndex == db.workflows[w].currentOp {
        var j :| IsTaskOf(db, j, w, db.workflows[w].currentOp) && db.tasks[j].state == Finished;
        assert IsTaskOf(db, i, w, db.workflows[w].currentOp);
      }
    }
  }

  lemma {:induction false} FailWorkflowsKeepsInv(db: Db, ids: set<WorkflowId>, maxAttempts: nat)
    requires DbInv(db, maxAttempts)
    ensures DbInv(FailWorkflows(db, ids), maxAttempts)
  {
    var db' := FailWorkflows(db, ids);
    SameRowsSameKeys(db, db');
    forall w | w in db'.workflows ensures WorkflowOk(db', w) && CommitsInOrder(db', w) {
      FailKeepsWorkflow(db, ids, w, maxAttempts);
    }
    forall i | i in db'.tasks ensures TaskOk(db', i, maxAttempts) {
      assert TaskOk(db, i, maxAttempts);
    }
  }

  lemma {:induction false} FailKeepsWorkflow(db: Db, ids: set<WorkflowId>, w: WorkflowId, maxAttempts: nat)
    requires DbInv(db, maxAttempts) && w in db.workflows
    ensures var db' := FailWorkflows(db, ids); WorkflowOk(db', w) && CommitsInOrder(db', w)
  {
    var db' := FailWorkflows(db, ids);
    assert WorkflowOk(db, w) && CommitsInOrder(db, w);
    SameRowsSameKeys(db, db');
    if db'.workflows[w] != db.workflows[w] {
      var i :| IsTaskOf(db, i, w, db.workflows[w].currentOp);
      assert TaskOk(db, i, maxAttempts);
    }
  }

  /** A new row is never a finished or failed one. */
  lemma {:induction false} InsertKeepsCurrent(db: Db, c: Candidate, id: TaskId, lease: int, w: WorkflowId, st: TaskState)
    requires w in db.workflows && st != Assigned
    ensures CurrentTaskIs(AssignInsert(db, c, id, lease), w, st) <==> CurrentTaskIs(db, w, st)
  {
    var db' := AssignInsert(db, c, id, lease);
    var k := db.workflows[w].currentOp;
    if CurrentTaskIs(db, w, st) {
      var i :| IsTaskOf(db, i, w, k) && db.tasks[i].state == st;
      assert IsTaskOf(db', i, w, k) && db'.tasks[i].state == st;
    }
    if CurrentTaskIs(db', w, st) {
      var i :| IsTaskOf(db', i, w, k) && db'.tasks[i].state == st;
      assert IsTaskOf(db, i, w, k) && db.tasks[i].state == st;
    }
  }

  lemma {:induction false} InsertKeepsWorkflow(db: Db, c: Candidate, id: TaskId, lease: int, w: WorkflowId)
    requires w in db.workflows && WorkflowOk(db, w) && CommitsInOrder(db, w)
    ensures var db' := AssignInsert(db, c, id, lease); WorkflowOk(db', w) && CommitsInOrder(db', w)
  {
    var db' := AssignInsert(db, c, id, lease);
    InsertKeepsCurrent(db, c, id, lease, w, Finished);
    InsertKeepsCurrent(db, c, id, lease, w, Failed);
    assert forall i, v, k :: IsTaskOf(db, i, v, k) ==> IsTaskOf(db', i, v, k);
    forall k | HasTask(db, w, k) ensures HasTask(db', w, k) {
      var i :| IsTaskOf(db, i, w, k);
      assert IsTaskOf(db', i, w, k);
    }
  }

  lemma {:induction false} InsertKeepsInv(db: Db, c: Candidate, id: TaskId, lease: int, maxAttempts: nat)
    requires 1 <= maxAttempts && DbInv(db, maxAttempts) && ReadOk(db, c)
    ensures DbInv(AssignInsert(db, c, id, lease), maxAttempts)
  {
    var db' := AssignInsert(db, c, id, lease);
    if db' != db {
      forall w | w in db'.workflows ensures WorkflowOk(db', w) && CommitsInOrder(db', w) {
        InsertKeepsWorkflow(db, c, id, lease, w);
      }
      forall i | i in db'.tasks ensures TaskOk(db', i, maxAttempts) {
        if i != id { assert TaskOk(db, i, maxAttempts); }
      }
      InsertKeepsUnique(db, c, id, lease);
    }
  }

  lemma {:induction false} InsertKeepsUnique(db: Db, c: Candidate, id: TaskId, lease: int)
    requires UniqueKeys(db)
    ensures UniqueKeys(AssignInsert(db, c, id, lease))
  {
    var db' := AssignInsert(db, c, id, lease);
    if db' != db {
      assert forall i, v, k :: IsTaskOf(db', i, v, k) && i != id ==> IsTaskOf(db, i, v, k);
      assert forall i :: !IsTaskOf(db, i, c.workflow, c.opIndex);
    }
  }

  lemma {:induction false} CommitsOfAppend(store: seq<Commit>, c: Commit, w: WorkflowId)
    ensures CommitsOf(store + [c], w) == CommitsOf(store, w) + if c.workflow == w then [c] else []
  {
    assert (store + [c])[..|store|] == store;
  }

  lemma {:induction false} CompleteKeepsWorkflow(db: Db, id: TaskId, owner: Owner, writes: seq<Write>, w: WorkflowId, maxAttempts: nat)
    requires DbInv(db, maxAttempts) && Holds(db, id, owner) && w in db.workflows
    ensures var db' := CompleteTask(db, id, owner, writes); WorkflowOk(db', w) && CommitsInOrder(db', w)
  {
    assert WorkflowOk(db, w) && CommitsInOrder(db, w) && TaskOk(db, id, maxAttempts);
    if db.tasks[id].workflow == w {
      CompletesOwn(db, id, owner, writes, maxAttempts);
    } else {
      CompletesOther(db, id, owner, writes, w);
    }
  }

  /** Completion touches no key, and no failed task. */
  lemma {:induction false} CompleteKeepsKeys(db: Db, id: TaskId, owner: Owner, writes: seq<Write>)
    requires Holds(db, id, owner)
    ensures var db' := CompleteTask(db, id, owner, writes);
      && (forall i, v, j :: IsTaskOf(db', i, v, j) == IsTaskOf(db, i, v, j))
      && (forall v, j :: HasTask(db', v, j) == HasTask(db, v, j))
      && (forall v :: v in db.workflows && CurrentTaskIs(db, v, Failed) ==> CurrentTaskIs(db', v, Failed))
  {
    var db' := CompleteTask(db, id, owner, writes);
    assert forall i, v, j :: IsTaskOf(db', i, v, j) == IsTaskOf(db, i, v, j);
    forall v | v in db.workflows && CurrentTaskIs(db, v, Failed) ensures CurrentTaskIs(db', v, Failed) {
      var i :| IsTaskOf(db, i, v, db.workflows[v].currentOp) && db.tasks[i].state == Failed;
      assert IsTaskOf(db', i, v, db.workflows[v].currentOp) && db'.tasks[i].state == Failed;
    }
  }

  lemma {:induction false} CompletesOwn(db: Db, id: TaskId, owner: Owner, writes: seq<Write>, maxAttempts: nat)
    requires UniqueKeys(db) && Holds(db, id, owner) && TaskOk(db, id, maxAttempts)
    requires WorkflowOk(db, db.tasks[id].workflow) && CommitsInOrder(db, db.tasks[id].workflow)
    ensures var db', w := CompleteTask(db, id, owner, writes), db.tasks[id].workflow; WorkflowOk(db', w) && CommitsInOrder(db', w)
  {
    var db', w := CompleteTask(db, id, owner, writes), db.tasks[id].workflow;
    var k := db.workflows[w].currentOp;
    CompleteKeepsKeys(db, id, owner, writes);
    CommitsOfAppend(db.store, CommitOf(db, id, writes), w);
    assert IsTaskOf(db, id, w, k);
    assert IsTaskOf(db', id, w, k) && db'.tasks[id].state == Finished;
    forall i | IsTaskOf(db, i, w, k) ensures i == id { }
    assert Done(db, w) == k && Done(db', w) == k + 1;
  }

  lemma {:induction false} CompletesOther(db: Db, id: TaskId, owner: Owner, writes: seq<Write>, w: WorkflowId)
    requires Holds(db, id, owner) && w in db.workflows && db.tasks[id].workflow != w
    requires WorkflowOk(db, w) && CommitsInOrder(db, w)
    ensures var db' := CompleteTask(db, id, owner, writes); WorkflowOk(db', w) && CommitsInOrder(db', w)
  {
    var db', k := CompleteTask(db, id, owner, writes), db.workflows[w].currentOp;
    CompleteKeepsKeys(db, id, owner, writes);
    CommitsOfAppend(db.store, CommitOf(db, id, writes), w);
    assert forall i :: IsTaskOf(db, i, w, k) ==> db'.tasks[i] == db.tasks[i];
    assert CurrentTaskIs(db', w, Finished) <==> CurrentTaskIs(db, w, Finished);
  }

  lemma {:induction false} CompleteKeepsInv(db: Db, id: TaskId, owner: Owner, writes: seq<Write>, maxAttempts: nat)
    requires DbInv(db, maxAttempts)
    ensures DbInv(CompleteTask(db, id, owner, writes), maxAttempts)
    ensures Holds(db, id, owner) ==>
      var store := CompleteTask(db, id, owner, writes).store;
      |store| == |db.store| + 1 && store[|db.store|].task == id && store[|db.store|].writes == writes
  {
    var db' := CompleteTask(db, id, owner, writes);
    if Holds(db, id, owner) {
      forall w | w in db'.workflows ensures WorkflowOk(db', w) && CommitsInOrder(db', w) {
        CompleteKeepsWorkflow(db, id, owner, writes, w, maxAttempts);
      }
      assert forall i, v, j :: IsTaskOf(db', i, v, j) == IsTaskOf(db, i, v, j);
      forall i | i in db'.tasks ensures TaskOk(db', i, maxAttempts) {
        assert TaskOk(db, i, maxAttempts);
      }
      assert TaskOk(db, id, maxAttempts);
    }
  }

  /** No statement deletes a task row or changes its key. */
  ghost predicate RowsStay(db: Db, db': Db) {
    forall i, w, k :: IsTaskOf(db, i, w, k) ==> IsTaskOf(db', i, w, k)
  }

  lemma {:induction false} NextRowsStay(s: System, a: Action, maxAttempts: nat)
    ensures RowsStay(s.db, NextDb(s, a, maxAttempts))
  {
  }

  lemma {:induction false} NextWorkflows(s: System, a: Action, w: WorkflowId, maxAttempts: nat)
    requires w in s.db.workflows
    ensures var db' := NextDb(s, a, maxAttempts);
      && w in db'.workflows && db'.workflows[w].definition == s.db.workflows[w].definition
      && (db'.workflows[w] != s.db.workflows[w] ==>
            && s.db.workflows[w].state == InProgress
            && HasTask(s.db, w, s.db.workflows[w].currentOp)
            && s.db.workflows[w].currentOp <= db'.workflows[w].currentOp <= s.db.workflows[w].currentOp + 1)
  {
  }

  lemma {:induction false} PendingStaysOk(s: System, a: Action, c: Candidate, maxAttempts: nat)
    requires ReadOk(s.db, c)
    ensures ReadOk(NextDb(s, a, maxAttempts), c)
  {
    NextRowsStay(s, a, maxAttempts);
    NextWorkflows(s, a, c.workflow, maxAttempts);
    if HasTask(s.db, c.workflow, c.opIndex) {
      var i :| IsTaskOf(s.db, i, c.workflow, c.opIndex);
      assert IsTaskOf(NextDb(s, a, maxAttempts), i, c.workflow, c.opIndex);
    }
  }

  lemma {:induction false} RowStepKeepsDb(s: System, a: Action, maxAttempts: nat)
    requires DbInv(s.db, maxAttempts) && (a.Tick? || a.DoReap? || a.DoExhaust?)
    ensures DbInv(NextDb(s, a, maxAttempts), maxAttempts)
  {
    var db' := NextDb(s, a, maxAttempts);
    assert RowsUpdated(s.db, db', maxAttempts) by {
      if a.DoReap? { ReapUpdatesRows(s.db, a.tasks, a.lease, maxAttempts); }
      if a.DoExhaust? { ExhaustUpdatesRows(s.db, a.tasks, maxAttempts); }
    }
    RowsUpdatedKeepsInv(s.db, db', maxAttempts);
  }

  lemma {:induction false} WorkflowStepKeepsDb(s: System, a: Action, maxAttempts: nat)
    requires DbInv(s.db, maxAttempts) && (a.Create? || a.DoAdvance? || a.DoFailWorkflows?)
    ensures DbInv(NextDb(s, a, maxAttempts), maxAttempts)
  {
    match a
    case Create(w, definition) => CreateKeepsInv(s.db, w, definition, maxAttempts);
    case DoAdvance(ids) => AdvanceKeepsInv(s.db, ids, maxAttempts);
    case DoFailWorkflows(ids) => FailWorkflowsKeepsInv(s.db, ids, maxAttempts);
  }

  lemma {:induction false} NextKeepsDb(s: System, a: Action, maxAttempts: nat)
    requires 1 <= maxAttempts && Inv(s, maxAttempts)
    ensures DbInv(NextDb(s, a, maxAttempts), maxAttempts)
  {
    if a.Tick? || a.DoReap? || a.DoExhaust? {
      RowStepKeepsDb(s, a, maxAttempts);
    } else if a.Create? || a.DoAdvance? || a.DoFailWorkflows? {
      WorkflowStepKeepsDb(s, a, maxAttempts);
    } else if a.InsertCandidate? {
      if a.candidate in s.pending { InsertKeepsInv(s.db, a.candidate, a.id, a.lease, maxAttempts); }
    } else { ExecutionKeepsDb(s, a, maxAttempts); }
  }

  lemma {:induction false} ExecutionKeepsDb(s: System, a: Action, maxAttempts: nat)
    requires 1 <= maxAttempts && Inv(s, maxAttempts)
    requires !a.Tick? && !a.DoReap? && !a.DoExhaust? && !a.Create? && !a.DoAdvance? && !a.DoFailWorkflows? && !a.InsertCandidate?
    ensures DbInv(NextDb(s, a, maxAttempts), maxAttempts)
  {
    if a.Start? || a.Renew? || a.Fail? {
      ExecutorActionKeepsDb(s, a, maxAttempts);
    } else if a.Complete? {
      CompleteActionKeepsDb(s, a, maxAttempts);
    } else {
      assert NextDb(s, a, maxAttempts) == s.db;
    }
  }

  lemma {:induction false} ExecutorActionKeepsDb(s: System, a: Action, maxAttempts: nat)
    requires DbInv(s.db, maxAttempts) && (a.Start? || a.Renew? || a.Fail?)
    ensures DbInv(NextDb(s, a, maxAttempts), maxAttempts)
  {
    var db' := NextDb(s, a, maxAttempts);
    if db' != s.db {
      var x, lease := s.executions[a.e], if a.Fail? then 0 else a.lease;
      assert db' == StartTask(s.db, x.task, x.owner, lease) || db' == RenewLease(s.db, x.task, x.owner, lease)
          || db' == FailTask(s.db, x.task, x.owner);
      ExecutorStepKeepsInv(s.db, x, lease, maxAttempts);
    }
  }

  lemma {:induction false} CompleteActionKeepsDb(s: System, a: Action, maxAttempts: nat)
    requires DbInv(s.db, maxAttempts) && a.Complete?
    ensures DbInv(NextDb(s, a, maxAttempts), maxAttempts)
  {
    CompleteActionIs(s, a, maxAttempts);
    if a.e in s.executions {
      CompleteKeepsInv(s.db, s.executions[a.e].task, s.executions[a.e].owner, a.writes, maxAttempts);
    }
  }

  lemma {:induction false} CompleteActionIs(s: System, a: Action, maxAttempts: nat)
    requires a.Complete?
    ensures a.e !in s.executions ==> NextDb(s, a, maxAttempts) == s.db
    ensures a.e in s.executions ==>
      || NextDb(s, a, maxAttempts) == s.db
      || NextDb(s, a, maxAttempts) == CompleteTask(s.db, s.executions[a.e].task, s.executions[a.e].owner, a.writes)
  {
  }

  lemma {:induction false} ExecutorStepKeepsInv(db: Db, x: Execution, lease: int, maxAttempts: nat)
    requires DbInv(db, maxAttempts)
    ensures DbInv(StartTask(db, x.task, x.owner, lease), maxAttempts)
    ensures DbInv(RenewLease(db, x.task, x.owner, lease), maxAttempts)
    ensures DbInv(FailTask(db, x.task, x.owner), maxAttempts)
  {
    ExecutorUpdatesRows(db, x.task, x.owner, lease, maxAttempts);
    RowsUpdatedKeepsInv(db, StartTask(db, x.task, x.owner, lease), maxAttempts);
    RowsUpdatedKeepsInv(db, RenewLease(db, x.task, x.owner, lease), maxAttempts);
    RowsUpdatedKeepsInv(db, FailTask(db, x.task, x.owner), maxAttempts);
  }

  lemma {:induction false} FreshReadsAreOk(db: Db, maxAttempts: nat)
    requires DbInv(db, maxAttempts)
    ensures !AssignReadFails(db)
    ensures forall c :: c in AssignRead(db) ==> ReadOk(db, c)
  {
    forall w | NeedsTask(db, w) ensures db.workflows[w].currentOp < |db.workflows[w].definition| {
      assert WorkflowOk(db, w);
    }
  }

  lemma {:induction false} NextKeepsInv(s: System, a: Action, maxAttempts: nat)
    requires 1 <= maxAttempts && Inv(s, maxAttempts)
    ensures Inv(Next(s, a, maxAttempts), maxAttempts)
  {
    NextKeepsDb(s, a, maxAttempts);
    FreshReadsAreOk(s.db, maxAttempts);
    forall c | c in Next(s, a, maxAttempts).pending ensures ReadOk(NextDb(s, a, maxAttempts), c) {
      PendingStaysOk(s, a, c, maxAttempts);
    }
  }

  lemma {:induction false} RunKeepsInv(s: System, acts: seq<Action>, maxAttempts: nat)
    requires 1 <= maxAttempts && Inv(s, maxAttempts)
    ensures Inv(RunFrom(s, acts, maxAttempts), maxAttempts)
    decreases |acts|
  {
    if acts != [] {
      NextKeepsInv(s, acts[0], maxAttempts);
      RunKeepsInv(Next(s, acts[0], maxAttempts), acts[1..], maxAttempts);
    }
  }
}
