/** The engine's tables (internal/engine/schema.sql) and its guarded SQL
    statements (internal/engine/engine.go), each one as a function from the
    database before the statement to the database after it. A table-wide UPDATE
    takes the rows it reaches as a set: a singleton is one row step, all keys
    are the whole statement. */
module EngineRows {
  import opened Common

  type WorkflowId = nat
  type TaskId = nat
  type Write = string

  /** The owner strings: a core process appends the task and a serial number
      (inline.go), a worker process only the task (fanout.go), and the engine's
      own dispatcher always writes the same one. */
  datatype Owner =
    | InlineOwner(process: nat, task: TaskId, serial: nat)
    | WorkerOwner(process: nat, task: TaskId)
    | DispatchOwner

  datatype OpDef = OpDef(operation: string, config: map<string, string>, cpuMillis: int, memoryMb: int, gpu: int)

  datatype TaskState = Assigned | Running | Finished | Failed

  datatype Task = Task(
    workflow: WorkflowId,
    opIndex: nat,
    op: OpDef,
    state: TaskState,
    owner: Option<Owner>,
    leaseExpires: int,
    attempt: nat)

  datatype WorkflowState = InProgress | Succeeded | Defeated

  datatype Workflow = Workflow(definition: seq<OpDef>, state: WorkflowState, currentOp: nat)

  /** One completed task's mutation, as it became visible in the data tables. */
  datatype Commit = Commit(task: TaskId, workflow: WorkflowId, opIndex: nat, op: OpDef, writes: seq<Write>)

  /** `now` is the database clock, the only clock that lease arithmetic reads. */
  datatype Db = Db(now: int, workflows: map<WorkflowId, Workflow>, tasks: map<TaskId, Task>, store: seq<Commit>)

  predicate Live(t: Task) {
    t.state == Assigned || t.state == Running
  }

  predicate Expired(t: Task, now: int) {
    Live(t) && t.leaseExpires < now
  }

  /** The key of the unique index task_wf_op_uidx. */
  predicate IsTaskOf(db: Db, id: TaskId, w: WorkflowId, k: nat) {
    id in db.tasks && db.tasks[id].workflow == w && db.tasks[id].opIndex == k
  }

  ghost predicate HasTask(db: Db, w: WorkflowId, k: nat) {
    exists id :: IsTaskOf(db, id, w, k)
  }

  // ---- orchestrator statements ----

  function CreateWorkflow(db: Db, id: WorkflowId, definition: seq<OpDef>): Db {
    if definition == [] || id in db.workflows then db
    else db.(workflows := db.workflows[id := Workflow(definition, InProgress, 0)])
  }

  function ReapRow(t: Task, now: int, lease: int, maxAttempts: nat): Task {
    if Expired(t, now) && t.attempt < maxAttempts then
      t.(state := Assigned, owner := None, attempt := t.attempt + 1, leaseExpires := now + lease)
    else t
  }

  function Reap(db: Db, ids: set<TaskId>, lease: int, maxAttempts: nat): Db {
    db.(tasks := map i | i in db.tasks ::
      if i in ids then ReapRow(db.tasks[i], db.now, lease, maxAttempts) else db.tasks[i])
  }

  function ExhaustRow(t: Task, now: int, maxAttempts: nat): Task {
    if Expired(t, now) && t.attempt >= maxAttempts then t.(state := Failed) else t
  }

  function Exhaust(db: Db, ids: set<TaskId>, maxAttempts: nat): Db {
    db.(tasks := map i | i in db.tasks ::
      if i in ids then ExhaustRow(db.tasks[i], db.now, maxAttempts) else db.tasks[i])
  }

  /** The join condition of both UPDATEs in advance(). */
  ghost predicate CurrentTaskIs(db: Db, w: WorkflowId, state: TaskState)
    requires w in db.workflows
  {
    exists id :: IsTaskOf(db, id, w, db.workflows[w].currentOp) && db.tasks[id].state == state
  }

  function AdvanceRow(w: Workflow): Workflow {
    w.(currentOp := w.currentOp + 1,
       state := if w.currentOp + 1 >= |w.definition| then Succeeded else InProgress)
  }

  ghost function Advance(db: Db, ids: set<WorkflowId>): Db {
    db.(workflows := map w | w in db.workflows ::
      if w in ids && db.workflows[w].state == InProgress && CurrentTaskIs(db, w, Finished)
      then AdvanceRow(db.workflows[w]) else db.workflows[w])
  }

  ghost function FailWorkflows(db: Db, ids: set<WorkflowId>): Db {
    db.(workflows := map w | w in db.workflows ::
      if w in ids && db.workflows[w].state == InProgress && CurrentTaskIs(db, w, Failed)
      then db.workflows[w].(state := Defeated) else db.workflows[w])
  }

  /** What the not-exists read of assignSQL found for one workflow. */
  datatype Candidate = Candidate(workflow: WorkflowId, opIndex: nat, op: OpDef)

  ghost predicate NeedsTask(db: Db, w: WorkflowId) {
    && w in db.workflows
    && db.workflows[w].state == InProgress
    && !HasTask(db, w, db.workflows[w].currentOp)
  }

  /** Indexing past the definition yields a null operation, which the NOT NULL
      column refuses: the whole statement fails and no workflow is assigned. */
  ghost predicate AssignReadFails(db: Db) {
    exists w :: NeedsTask(db, w) && db.workflows[w].currentOp >= |db.workflows[w].definition|
  }

  ghost function AssignRead(db: Db): set<Candidate>
    requires !AssignReadFails(db)
  {
    set w | w in db.workflows && NeedsTask(db, w) ::
      Candidate(w, db.workflows[w].currentOp, db.workflows[w].definition[db.workflows[w].currentOp])
  }

  /** The insert half: `on conflict (workflow_id, op_index) do nothing`. */
  ghost function AssignInsert(db: Db, c: Candidate, id: TaskId, lease: int): Db {
    if HasTask(db, c.workflow, c.opIndex) || id in db.tasks then db
    else db.(tasks := db.tasks[id :=
      Task(c.workflow, c.opIndex, c.op, Assigned, None, db.now + lease, 1)])
  }

  // ---- executor statements ----

  predicate CanStart(db: Db, id: TaskId) {
    id in db.tasks && db.tasks[id].state == Assigned
  }

  function StartTask(db: Db, id: TaskId, owner: Owner, lease: int): Db {
    if CanStart(db, id) then
      db.(tasks := db.tasks[id :=
        db.tasks[id].(state := Running, owner := Some(owner), leaseExpires := db.now + lease)])
    else db
  }

  /** The guard shared by renew, complete and fail. */
  predicate Holds(db: Db, id: TaskId, owner: Owner) {
    id in db.tasks && db.tasks[id].owner == Some(owner) && db.tasks[id].state == Running
  }

  function RenewLease(db: Db, id: TaskId, owner: Owner, lease: int): Db {
    if Holds(db, id, owner) then
      db.(tasks := db.tasks[id := db.tasks[id].(leaseExpires := db.now + lease)])
    else db
  }

  function CommitOf(db: Db, id: TaskId, writes: seq<Write>): Commit
    requires id in db.tasks
  {
    Commit(id, db.tasks[id].workflow, db.tasks[id].opIndex, db.tasks[id].op, writes)
  }

  function CompleteTask(db: Db, id: TaskId, owner: Owner, writes: seq<Write>): Db {
    if Holds(db, id, owner) then
      db.(tasks := db.tasks[id := db.tasks[id].(state := Finished)],
          store := db.store + [CommitOf(db, id, writes)])
    else db
  }

  function FailTask(db: Db, id: TaskId, owner: Owner): Db {
    if Holds(db, id, owner) then
      db.(tasks := db.tasks[id := db.tasks[id].(state := Failed)])
    else db
  }

  // ---- dispatch of tasks nobody can run ----

  /** failUnrunnable: the dispatcher starts the task and fails it, and leaves it
      alone when somebody else won the start. */
  function UnrunnableRow(t: Task, now: int, lease: int): Task {
    if t.state == Assigned then t.(state := Failed, owner := Some(DispatchOwner), leaseExpires := now + lease) else t
  }

  /** The database after `ids` were handed to provision(). */
  function Provision(db: Db, ids: set<TaskId>, runnable: OpDef -> bool, lease: int): Db {
    db.(tasks := map i | i in db.tasks ::
      if i in ids && !runnable(db.tasks[i].op) then UnrunnableRow(db.tasks[i], db.now, lease) else db.tasks[i])
  }

  function Reaped(db: Db, maxAttempts: nat): set<TaskId> {
    set i | i in db.tasks && Expired(db.tasks[i], db.now) && db.tasks[i].attempt < maxAttempts
  }
}
