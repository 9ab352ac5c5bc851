/** The engine as it runs: the tables as fields, one method per operation of
    internal/engine/engine.go. */
module EngineDatabase {
  import opened Common
  import R = EngineRows
  import I = EngineRun
  import opened EngineSteps

  /** The static class table of ADR-011, by operation name. */
  datatype ExecutionClass = ClassWorker | ClassInline | ClassUnclear | ClassUnknown

  datatype Outcome = Done | TaskLost | MutateError(error: string)

  /** What the completion callback did inside the transaction: it sees the
      visible mutations and adds its own, or refuses. */
  type Mutation = seq<R.Commit> -> Result<seq<R.Write>, string>

  lemma {:induction false} ProvisionUpdatesRows(db: R.Db, ids: set<R.TaskId>, runnable: R.OpDef -> bool, lease: int, maxAttempts: nat)
    ensures I.RowsUpdated(db, R.Provision(db, ids, runnable, lease), maxAttempts)
  {
  }

  lemma {:induction false} ProvisionKeepsInv(db: R.Db, ids: set<R.TaskId>, runnable: R.OpDef -> bool, lease: int, maxAttempts: nat)
    requires I.DbInv(db, maxAttempts)
    ensures I.DbInv(R.Provision(db, ids, runnable, lease), maxAttempts)
  {
    ProvisionUpdatesRows(db, ids, runnable, lease, maxAttempts);
    I.RowsUpdatedKeepsInv(db, R.Provision(db, ids, runnable, lease), maxAttempts);
  }

  lemma {:induction false} ReapKeepsInv(db: R.Db, ids: set<R.TaskId>, lease: int, maxAttempts: nat)
    requires I.DbInv(db, maxAttempts)
    ensures I.DbInv(R.Exhaust(R.Reap(db, ids, lease, maxAttempts), ids, maxAttempts), maxAttempts)
  {
    var reaped := R.Reap(db, ids, lease, maxAttempts);
    I.ReapUpdatesRows(db, ids, lease, maxAttempts);
    I.RowsUpdatedKeepsInv(db, reaped, maxAttempts);
    I.ExhaustUpdatesRows(reaped, ids, maxAttempts);
    I.RowsUpdatedKeepsInv(reaped, R.Exhaust(reaped, ids, maxAttempts), maxAttempts);
  }

  lemma {:induction false} InsertOneMore(db: R.Db, tasks: map<R.TaskId, R.Task>, created: set<R.TaskId>, done: set<R.WorkflowId>,
                                         lease: int, w: R.WorkflowId, id: R.TaskId)
    requires Inserted(db, tasks, created, done, lease) && w !in done && id !in tasks
    requires CanInsert(db, w)
    ensures Inserted(db, tasks[id := FreshRow(db, w, lease)], created + {id}, done + {w}, lease)
  {
    var rows := tasks[id := FreshRow(db, w, lease)];
    forall v | v in done + {w} ensures exists i :: i in created + {id} && rows[i] == FreshRow(db, v, lease) {
      if v == w {
        assert id in created + {id} && rows[id] == FreshRow(db, v, lease);
      } else {
        var i :| i in created && tasks[i] == FreshRow(db, v, lease);
        assert i in created + {id} && rows[i] == FreshRow(db, v, lease);
      }
    }
  }

  lemma {:induction false} InsertOneKeepsInv(db: R.Db, tasks: map<R.TaskId, R.Task>, created: set<R.TaskId>, done: set<R.WorkflowId>,
                                             lease: int, w: R.WorkflowId, id: R.TaskId, maxAttempts: nat)
    requires Inserted(db, tasks, created, done, lease) && w !in done && id !in tasks && CanInsert(db, w)
    requires 1 <= maxAttempts && I.DbInv(db.(tasks := tasks), maxAttempts)
    ensures I.DbInv(db.(tasks := tasks[id := FreshRow(db, w, lease)]), maxAttempts)
  {
    var now := db.(tasks := tasks);
    StillInNeed(db, tasks, created, done, lease, w);
    FreshKeepsInv(now, w, id, lease, maxAttempts);
    assert now.(tasks := now.tasks[id := FreshRow(now, w, lease)]) == db.(tasks := tasks[id := FreshRow(db, w, lease)]);
  }

  lemma {:induction false} FreshKeepsInv(db: R.Db, w: R.WorkflowId, id: R.TaskId, lease: int, maxAttempts: nat)
    requires 1 <= maxAttempts && I.DbInv(db, maxAttempts) && CanInsert(db, w) && id !in db.tasks
    ensures I.DbInv(db.(tasks := db.tasks[id := FreshRow(db, w, lease)]), maxAttempts)
  {
    var wf := db.workflows[w];
    I.InsertKeepsInv(db, R.Candidate(w, wf.currentOp, wf.definition[wf.currentOp]), id, lease, maxAttempts);
  }

  /** Once every workflow in need has its row, none is in need, whatever became of
      the rows. */
  lemma {:induction false} NoneInNeed(db: R.Db, rows: map<R.TaskId, R.Task>, created: set<R.TaskId>, runnable: R.OpDef -> bool,
                                      lease: int, w: R.WorkflowId)
    requires Inserted(db, rows, created, (set v | v in db.workflows && R.NeedsTask(db, v)), lease)
    ensures !R.NeedsTask(R.Provision(db.(tasks := rows), created, runnable, lease), w)
  {
    var after := R.Provision(db.(tasks := rows), created, runnable, lease);
    if w in db.workflows && db.workflows[w].state == R.InProgress {
      var k := db.workflows[w].currentOp;
      if R.HasTask(db, w, k) {
        var i :| R.IsTaskOf(db, i, w, k);
        assert R.IsTaskOf(after, i, w, k);
      } else {
        assert R.NeedsTask(db, w) && CanInsert(db, w);
        var i :| i in created && rows[i] == FreshRow(db, w, lease);
        assert R.IsTaskOf(after, i, w, k);
      }
    }
  }

  lemma {:induction false} InsertedKeepsInv(db: R.Db, rows: map<R.TaskId, R.Task>, created: set<R.TaskId>, done: set<R.WorkflowId>,
                                            lease: int, maxAttempts: nat)
    requires Inserted(db, rows, created, done, lease) && 1 <= maxAttempts && I.DbInv(db, maxAttempts)
    ensures I.DbInv(db.(tasks := rows), maxAttempts)
    decreases created
  {
    if created == {} {
      assert rows == db.tasks;
    } else {
      var i :| i in created;
      var w := rows[i].workflow;
      InsertedButOne(db, rows, created, done, lease, i);
      InsertedKeepsInv(db, rows - {i}, created - {i}, done - {w}, lease, maxAttempts);
      InsertOneKeepsInv(db, rows - {i}, created - {i}, done - {w}, lease, w, i, maxAttempts);
    }
  }

  /** The four updates a pass begins with keep the invariant, and leave nothing
      for the assignment to stumble over. */
  lemma {:induction false} UpdatesKeepInv(db: R.Db, lease: int, runnable: R.OpDef -> bool, maxAttempts: nat)
    requires I.DbInv(db, maxAttempts)
    ensures I.DbInv(Updated(db, lease, runnable, maxAttempts), maxAttempts)
    ensures !R.AssignReadFails(Updated(db, lease, runnable, maxAttempts))
  {
    ReapKeepsInv(db, db.tasks.Keys, lease, maxAttempts);
    var reaped := R.Exhaust(R.Reap(db, db.tasks.Keys, lease, maxAttempts), db.tasks.Keys, maxAttempts);
    ProvisionKeepsInv(reaped, R.Reaped(db, maxAttempts), runnable, lease, maxAttempts);
    var provisioned := R.Provision(reaped, R.Reaped(db, maxAttempts), runnable, lease);
    I.AdvanceKeepsInv(provisioned, db.workflows.Keys, maxAttempts);
    I.FailWorkflowsKeepsInv(R.Advance(provisioned, db.workflows.Keys), db.workflows.Keys, maxAttempts);
    I.FreshReadsAreOk(Updated(db, lease, runnable, maxAttempts), maxAttempts);
  }

  lemma {:induction false} AssignKeepsInv(db: R.Db, rows: map<R.TaskId, R.Task>, created: set<R.TaskId>, done: set<R.WorkflowId>,
                                          lease: int, runnable: R.OpDef -> bool, maxAttempts: nat)
    requires Inserted(db, rows, created, done, lease) && 1 <= maxAttempts && I.DbInv(db, maxAttempts)
    ensures I.DbInv(R.Provision(db.(tasks := rows), created, runnable, lease), maxAttempts)
  {
    InsertedKeepsInv(db, rows, created, done, lease, maxAttempts);
    ProvisionKeepsInv(db.(tasks := rows), created, runnable, lease, maxAttempts);
  }

  /** The guard of renewal, completion and failure: the row is RUNNING under this
      owner. */
  predicate HeldBy(tasks: map<R.TaskId, R.Task>, id: R.TaskId, owner: R.Owner) {
    id in tasks && tasks[id].state == R.Running && tasks[id].owner == Some(owner)
  }

  /** What a reap made of row `id`: an overdue one is requeued with a new lease
      while it has attempts left, and fails when it has none, or at once when
      nobody can run it; any other row is left alone. */
  ghost predicate Recovered(db: R.Db, tasks: map<R.TaskId, R.Task>, id: R.TaskId, runnable: R.OpDef -> bool, lease: int, maxAttempts: nat)
    requires id in db.tasks
  {
    var t := db.tasks[id];
    var overdue := (t.state == R.Assigned || t.state == R.Running) && t.leaseExpires < db.now;
    && id in tasks
    && (!overdue ==> tasks[id] == t)
    && (overdue && t.attempt >= maxAttempts ==> tasks[id] == t.(state := R.Failed))
    && (overdue && t.attempt < maxAttempts ==> tasks[id].attempt == t.attempt + 1 && tasks[id].leaseExpires == db.now + lease)
    && (overdue && t.attempt < maxAttempts && runnable(t.op) ==> tasks[id].state == R.Assigned && tasks[id].owner == None)
    && (overdue && t.attempt < maxAttempts && !runnable(t.op) ==> tasks[id].state == R.Failed)
  }

  lemma {:induction false} RowRecovers(db: R.Db, id: R.TaskId, runnable: R.OpDef -> bool, lease: int, maxAttempts: nat)
    requires id in db.tasks && lease >= 0
    ensures var reaped := R.Exhaust(R.Reap(db, db.tasks.Keys, lease, maxAttempts), db.tasks.Keys, maxAttempts);
      Recovered(db, R.Provision(reaped, R.Reaped(db, maxAttempts), runnable, lease).tasks, id, runnable, lease, maxAttempts)
  {
  }

  lemma {:induction false} ReapRecovers(db: R.Db, after: R.Db, runnable: R.OpDef -> bool, lease: int, maxAttempts: nat)
    requires lease >= 0
    requires after == R.Provision(R.Exhaust(R.Reap(db, db.tasks.Keys, lease, maxAttempts), db.tasks.Keys, maxAttempts),
                                  R.Reaped(db, maxAttempts), runnable, lease)
    ensures forall i :: i in db.tasks ==> Recovered(db, after.tasks, i, runnable, lease, maxAttempts)
  {
    forall i | i in db.tasks ensures Recovered(db, after.tasks, i, runnable, lease, maxAttempts) {
      RowRecovers(db, i, runnable, lease, maxAttempts);
    }
  }

  class Engine {
    const lease: int
    const maxAttempts: nat
    const hasInline: bool
    const classOf: string -> ExecutionClass

    var now: int
    var workflows: map<R.WorkflowId, R.Workflow>
    var tasks: map<R.TaskId, R.Task>
    var store: seq<R.Commit>
    var nextWorkflow: nat
    var nextTask: nat
    var provisioned: seq<R.TaskId>

    ghost function View(): R.Db
      reads this
    {
      R.Db(now, workflows, tasks, store)
    }

    ghost predicate Valid()
      reads this
    {
      && lease > 0 && maxAttempts > 0
      && (forall w :: w in workflows ==> w < nextWorkflow)
      && (forall i :: i in tasks ==> i < nextTask)
    }

    /** The ids are fresh and the database satisfies the engine's invariant. */
    ghost predicate Sound()
      reads this
    {
      Valid() && I.DbInv(View(), maxAttempts)
    }

    predicate Runnable(op: R.OpDef) {
      match classOf(op.operation)
      case ClassWorker => true
      case ClassInline => hasInline
      case _ => false
    }

    /** Where one row of `before` that was handed out has gone: to an executor when
        its class has one; FAILED at once, if it was still ASSIGNED, when its class
        is undecided or unknown, or inline without an inline runner. */
    ghost predicate Routed(before: map<R.TaskId, R.Task>, handedTo: seq<R.TaskId>, id: R.TaskId)
      reads this`tasks
      requires id in before
    {
      && id in tasks
      && var class_ := classOf(before[id].op.operation);
      && (class_ == ClassWorker || (class_ == ClassInline && hasInline) ==> id in handedTo && tasks[id] == before[id])
      && (class_ == ClassUnclear || class_ == ClassUnknown || (class_ == ClassInline && !hasInline) ==>
            if before[id].state == R.Assigned then tasks[id].state == R.Failed && tasks[id].owner == Some(R.DispatchOwner)
            else tasks[id] == before[id])
    }

    /** Non-positive options fall back to the defaults of New. */
    constructor (lease: int, maxAttempts: int, hasInline: bool, classOf: string -> ExecutionClass, now: int)
      ensures Sound() && View() == R.Db(now, map[], map[], []) && provisioned == []
      ensures this.lease == if lease <= 0 then 60 else lease
      ensures this.maxAttempts == (if maxAttempts <= 0 then 3 else maxAttempts) && this.maxAttempts >= 1
      ensures this.hasInline == hasInline && this.classOf == classOf
    {
      this.lease := if lease <= 0 then 60 else lease;
      this.maxAttempts := if maxAttempts <= 0 then 3 else maxAttempts;
      this.hasInline := hasInline;
      this.classOf := classOf;
      this.now := now;
      workflows, tasks, store := map[], map[], [];
      nextWorkflow, nextTask, provisioned := 1, 1, [];
    }

    method CreateWorkflow(definition: seq<R.OpDef>) returns (r: Result<R.WorkflowId, string>)
      requires Valid()
      modifies this`workflows, this`nextWorkflow
      ensures Valid()
      ensures r.Err? <==> definition == []
      ensures r.Err? ==> View() == old(View())
      ensures r.Ok? ==> r.value !in old(workflows) && View() == R.CreateWorkflow(old(View()), r.value, definition)
      ensures r.Ok? ==> workflows == old(workflows)[r.value := R.Workflow(definition, R.InProgress, 0)]
    {
      if definition == [] {
        return Err("workflow definition has no operations");
      }
      workflows := workflows[nextWorkflow := R.Workflow(definition, R.InProgress, 0)];
      r := Ok(nextWorkflow);
      nextWorkflow := nextWorkflow + 1;
    }

    method StartTask(id: R.TaskId, owner: R.Owner, lease: int) returns (r: Outcome)
      requires Valid()
      modifies this`tasks
      ensures Valid()
      ensures View() == R.StartTask(old(View()), id, owner, lease)
      ensures r == if id in old(tasks) && old(tasks)[id].state == R.Assigned then Done else TaskLost
      ensures r == Done ==> HeldBy(tasks, id, owner) && tasks[id].leaseExpires == now + lease
      ensures r == Done ==> tasks[id].attempt == old(tasks)[id].attempt
      ensures r == TaskLost ==> tasks == old(tasks)
    {
      if id in tasks && tasks[id].state == R.Assigned {
        tasks := tasks[id := tasks[id].(state := R.Running, owner := Some(owner), leaseExpires := now + lease)];
        return Done;
      }
      return TaskLost;
    }

    method RenewLease(id: R.TaskId, owner: R.Owner, lease: int) returns (r: Outcome)
      requires Valid()
      modifies this`tasks
      ensures Valid()
      ensures View() == R.RenewLease(old(View()), id, owner, lease)
      ensures r == if HeldBy(old(tasks), id, owner) then Done else TaskLost
      ensures r == Done ==> id in tasks && tasks[id].leaseExpires == now + lease && HeldBy(tasks, id, owner)
      ensures r == TaskLost ==> tasks == old(tasks)
    {
      if id in tasks && tasks[id].owner == Some(owner) && tasks[id].state == R.Running {
        tasks := tasks[id := tasks[id].(leaseExpires := now + lease)];
        return Done;
      }
      return TaskLost;
    }

    /** The mutation runs first, in an overlay; the guarded update decides
        whether the overlay is published with it or dropped. */
    method CompleteTask(id: R.TaskId, owner: R.Owner, mutate: Option<Mutation>) returns (r: Outcome)
      requires Valid()
      modifies this`tasks, this`store
      ensures Valid()
      ensures r.MutateError? <==> mutate.Some? && mutate.value(old(store)).Err?
      ensures r.MutateError? ==> View() == old(View())
      ensures !r.MutateError? ==> r == if HeldBy(old(tasks), id, owner) then Done else TaskLost
      ensures !r.MutateError? ==>
        var writes := if mutate.None? then [] else mutate.value(old(store)).value;
        View() == R.CompleteTask(old(View()), id, owner, writes)
      ensures r == Done ==> id in tasks && tasks[id].state == R.Finished
      ensures r == Done ==> |store| == |old(store)| + 1 && store[..|old(store)|] == old(store)
      ensures r == Done ==> store[|old(store)|].task == id && store[|old(store)|].op == old(tasks)[id].op
      ensures r == Done && mutate.None? ==> store[|old(store)|].writes == []
      ensures r == Done && mutate.Some? ==> mutate.value(old(store)) == Ok(store[|old(store)|].writes)
      ensures r != Done ==> tasks == old(tasks) && store == old(store)
    {
      var overlay: seq<R.Write> := [];
      if mutate.Some? {
        match mutate.value(store)
        case Err(e) => return MutateError(e);
        case Ok(writes) => overlay := writes;
      }
      if id !in tasks || tasks[id].owner != Some(owner) || tasks[id].state != R.Running {
        return TaskLost;
      }
      store := store + [R.Commit(id, tasks[id].workflow, tasks[id].opIndex, tasks[id].op, overlay)];
      tasks := tasks[id := tasks[id].(state := R.Finished)];
      return Done;
    }

    method FailTask(id: R.TaskId, owner: R.Owner) returns (r: Outcome)
      requires Valid()
      modifies this`tasks
      ensures Valid()
      ensures View() == R.FailTask(old(View()), id, owner)
      ensures r == if HeldBy(old(tasks), id, owner) then Done else TaskLost
      ensures r == Done ==> id in tasks && tasks[id].state == R.Failed
      ensures r == TaskLost ==> tasks == old(tasks)
    {
      if id in tasks && tasks[id].owner == Some(owner) && tasks[id].state == R.Running {
        tasks := tasks[id := tasks[id].(state := R.Failed)];
        return Done;
      }
      return TaskLost;
    }

    /** Routes one committed task: an operation nobody can run fails at once,
        any other is handed to its executor. */
    method ProvisionOne(id: R.TaskId)
      requires Valid() && id in tasks
      modifies this`tasks, this`provisioned
      ensures Valid()
      ensures View() == R.Provision(old(View()), {id}, Runnable, lease)
      ensures provisioned == if Runnable(old(tasks)[id].op) then old(provisioned) + [id] else old(provisioned)
      ensures Routed(old(tasks), provisioned, id)
    {
      if Runnable(tasks[id].op) {
        provisioned := provisioned + [id];
      } else {
        var started := StartTask(id, R.DispatchOwner, lease);
        if started == Done {
          var failed := FailTask(id, R.DispatchOwner);
        }
      }
    }

    method ProvisionAll(ids: set<R.TaskId>)
      requires Valid() && ids <= tasks.Keys
      modifies this`tasks, this`provisioned
      ensures Valid()
      ensures View() == R.Provision(old(View()), ids, Runnable, lease)
      ensures forall i :: i in provisioned <==> i in old(provisioned) || (i in ids && Runnable(old(tasks)[i].op))
      ensures forall i :: i in ids ==> Routed(old(tasks), provisioned, i)
    {
      var todo := ids;
      ghost var db, done := View(), {};
      ProvisionNothing(db, Runnable, lease);
      while todo != {}
        invariant Valid() && done !! todo && done + todo == ids
        invariant View() == R.Provision(db, done, Runnable, lease)
        invariant forall i :: i in provisioned <==> i in old(provisioned) || (i in done && Runnable(db.tasks[i].op))
        decreases todo
      {
        var i :| i in todo;
        ProvisionOneMore(db, done, i, Runnable, lease);
        ProvisionOne(i);
        done, todo := done + {i}, todo - {i};
      }
      assert done == ids;
    }

    /** The first update, with the rows it returns. */
    method RequeueOverdue() returns (returned: set<R.TaskId>)
      requires Valid()
      modifies this`tasks
      ensures Valid() && returned == R.Reaped(old(View()), maxAttempts)
      ensures View() == R.Reap(old(View()), old(tasks).Keys, lease, maxAttempts)
    {
      var before := tasks;
      tasks := map i | i in before ::
        if R.Expired(before[i], now) && before[i].attempt < maxAttempts
        then before[i].(state := R.Assigned, owner := None, attempt := before[i].attempt + 1, leaseExpires := now + lease)
        else before[i];
      returned := set i | i in before && R.Expired(before[i], now) && before[i].attempt < maxAttempts;
      assert tasks == R.Reap(old(View()), before.Keys, lease, maxAttempts).tasks;
    }

    method FailExhausted()
      requires Valid()
      modifies this`tasks
      ensures Valid() && View() == R.Exhaust(old(View()), old(tasks).Keys, maxAttempts)
    {
      var before := tasks;
      tasks := map i | i in before ::
        if R.Expired(before[i], now) && before[i].attempt >= maxAttempts then before[i].(state := R.Failed) else before[i];
      assert tasks == R.Exhaust(old(View()), before.Keys, maxAttempts).tasks;
    }

    method Reap()
      requires Valid()
      modifies this`tasks, this`provisioned
      ensures Valid()
      ensures var db := R.Reap(old(View()), old(tasks).Keys, lease, maxAttempts);
        View() == R.Provision(R.Exhaust(db, old(tasks).Keys, maxAttempts), R.Reaped(old(View()), maxAttempts), Runnable, lease)
      ensures forall i :: i in old(tasks) ==> Recovered(old(View()), tasks, i, Runnable, lease, maxAttempts)
    {
      ghost var db := View();
      var returned := RequeueOverdue();
      FailExhausted();
      ProvisionAll(returned);
      ReapRecovers(db, View(), Runnable, lease, maxAttempts);
    }

    /** The join condition of both updates. */
    predicate CurrentIs(w: R.WorkflowId, k: nat, state: R.TaskState)
      reads this`tasks
    {
      exists i :: i in tasks && tasks[i].workflow == w && tasks[i].opIndex == k && tasks[i].state == state
    }

    lemma CurrentIsJoin(w: R.WorkflowId, state: R.TaskState)
      requires w in workflows
      ensures CurrentIs(w, workflows[w].currentOp, state) <==> R.CurrentTaskIs(View(), w, state)
    {
      var k := workflows[w].currentOp;
      if CurrentIs(w, k, state) {
        var i :| i in tasks && tasks[i].workflow == w && tasks[i].opIndex == k && tasks[i].state == state;
        assert R.IsTaskOf(View(), i, w, k);
      }
      if R.CurrentTaskIs(View(), w, state) {
        var i :| R.IsTaskOf(View(), i, w, k) && tasks[i].state == state;
        assert i in tasks;
      }
    }

    method AdvanceFinished()
      requires Valid()
      modifies this`workflows
      ensures Valid()
      ensures View() == R.Advance(old(View()), old(workflows).Keys)
    {
      var before := workflows;
      forall w | w in before
        ensures CurrentIs(w, before[w].currentOp, R.Finished) <==> R.CurrentTaskIs(View(), w, R.Finished)
      {
        CurrentIsJoin(w, R.Finished);
      }
      workflows := map w | w in before ::
        if before[w].state == R.InProgress && CurrentIs(w, before[w].currentOp, R.Finished)
        then before[w].(currentOp := before[w].currentOp + 1,
                        state := if before[w].currentOp + 1 >= |before[w].definition| then R.Succeeded else R.InProgress)
        else before[w];
      assert workflows == R.Advance(old(View()), before.Keys).workflows;
    }

    method DefeatFailed()
      requires Valid()
      modifies this`workflows
      ensures Valid()
      ensures View() == R.FailWorkflows(old(View()), old(workflows).Keys)
    {
      var before := workflows;
      forall w | w in before
        ensures CurrentIs(w, before[w].currentOp, R.Failed) <==> R.CurrentTaskIs(View(), w, R.Failed)
      {
        CurrentIsJoin(w, R.Failed);
      }
      workflows := map w | w in before ::
        if before[w].state == R.InProgress && CurrentIs(w, before[w].currentOp, R.Failed)
        then before[w].(state := R.Defeated)
        else before[w];
      assert workflows == R.FailWorkflows(old(View()), before.Keys).workflows;
    }

    method Advance()
      requires Valid()
      modifies this`workflows
      ensures Valid()
      ensures View() == R.FailWorkflows(R.Advance(old(View()), old(workflows).Keys), old(workflows).Keys)
    {
      AdvanceFinished();
      DefeatFailed();
    }

    /** The not-exists read of assignSQL for one workflow. */
    predicate LacksTask(w: R.WorkflowId)
      reads this
      requires w in workflows
    {
      && workflows[w].state == R.InProgress
      && forall i :: i in tasks ==> !(tasks[i].workflow == w && tasks[i].opIndex == workflows[w].currentOp)
    }

    lemma LacksTaskIsNeed(w: R.WorkflowId)
      requires w in workflows
      ensures LacksTask(w) <==> R.NeedsTask(View(), w)
    {
      var k := workflows[w].currentOp;
      if LacksTask(w) {
        assert forall i :: !R.IsTaskOf(View(), i, w, k);
      } else if workflows[w].state == R.InProgress {
        var i :| i in tasks && tasks[i].workflow == w && tasks[i].opIndex == k;
        assert R.IsTaskOf(View(), i, w, k);
      }
    }

    method ReadCandidates() returns (r: Result<set<R.WorkflowId>, string>)
      requires Valid()
      ensures r == Err("null operation") || r.Ok?
      ensures r.Err? <==> R.AssignReadFails(View())
      ensures r.Ok? ==> r.value == (set w | w in workflows && R.NeedsTask(View(), w))
    {
      var needy := set w | w in workflows && LacksTask(w);
      forall w | w in workflows ensures LacksTask(w) <==> R.NeedsTask(View(), w) {
        LacksTaskIsNeed(w);
      }
      assert needy == set w | w in workflows && R.NeedsTask(View(), w);
      if exists w :: w in needy && workflows[w].currentOp >= |workflows[w].definition| {
        return Err("null operation");
      }
      return Ok(needy);
    }

    method InsertCandidate(w: R.WorkflowId) returns (id: R.TaskId)
      requires Valid() && w in workflows && workflows[w].currentOp < |workflows[w].definition|
      modifies this`tasks, this`nextTask
      ensures Valid() && id !in old(tasks)
      ensures tasks == old(tasks)[id := FreshRow(old(View()), w, lease)]
    {
      var wf := workflows[w];
      id := nextTask;
      tasks := tasks[id := R.Task(w, wf.currentOp, wf.definition[wf.currentOp], R.Assigned, None, now + lease, 1)];
      nextTask := nextTask + 1;
    }

    method InsertNeedy(w: R.WorkflowId, ghost db: R.Db, ghost created: set<R.TaskId>, ghost done: set<R.WorkflowId>) returns (id: R.TaskId)
      requires Valid() && db.workflows == workflows && db.now == now && w !in done && CanInsert(db, w)
      requires Inserted(db, tasks, created, done, lease)
      modifies this`tasks, this`nextTask
      ensures Valid() && Inserted(db, tasks, created + {id}, done + {w}, lease)
    {
      ghost var rows := tasks;
      id := InsertCandidate(w);
      assert tasks == rows[id := FreshRow(db, w, lease)];
      InsertOneMore(db, rows, created, done, lease, w, id);
    }

    method InsertCandidates(needy: set<R.WorkflowId>, ghost db: R.Db) returns (created: set<R.TaskId>)
      requires Valid() && db == View()
      requires forall w :: w in needy ==> CanInsert(db, w)
      modifies this`tasks, this`nextTask
      ensures Valid()
      ensures Inserted(db, tasks, created, needy, lease)
    {
      var todo := needy;
      created := {};
      ghost var done := {};
      while todo != {}
        invariant Valid() && done !! todo && done + todo == needy
        invariant Inserted(db, tasks, created, done, lease)
        decreases todo
      {
        var w :| w in todo;
        var id := InsertNeedy(w, db, created, done);
        created, done, todo := created + {id}, done + {w}, todo - {w};
      }
      assert done == needy;
    }

    /** One task row per workflow in need, committed before it is provisioned.
        A racing statement cannot interleave here, so the conflict clause has
        nothing to do. */
    method Assign() returns (r: Result<set<R.TaskId>, string>)
      requires Valid()
      modifies this`tasks, this`nextTask, this`provisioned
      ensures Valid()
      ensures r == Err("null operation") || r.Ok?
      ensures r.Err? <==> R.AssignReadFails(old(View()))
      ensures r.Err? ==> View() == old(View()) && provisioned == old(provisioned)
      ensures r.Ok? ==> exists rows ::
        && Inserted(old(View()), rows, r.value, (set w | w in workflows && R.NeedsTask(old(View()), w)), lease)
        && View() == R.Provision(old(View()).(tasks := rows), r.value, Runnable, lease)
      ensures r.Ok? ==> forall w :: !R.NeedsTask(View(), w)
    {
      var needy := ReadCandidates();
      if needy.Err? {
        return Err(needy.error);
      }
      forall w | w in needy.value ensures CanInsert(View(), w) {
        assert R.NeedsTask(View(), w);
      }
      ghost var db := View();
      var created := InsertCandidates(needy.value, View());
      forall w ensures !R.NeedsTask(R.Provision(db.(tasks := tasks), created, Runnable, lease), w) {
        NoneInNeed(db, tasks, created, Runnable, lease, w);
      }
      ProvisionAll(created);
      r := Ok(created);
    }

    /** One orchestrator pass, on a database that satisfies the engine's invariant:
        it keeps the invariant, never meets a null operation, and leaves no
        running workflow without a task row for its current operation. */
    method Step() returns (r: Result<set<R.TaskId>, string>)
      requires Sound()
      modifies this`workflows, this`tasks, this`nextTask, this`provisioned
      ensures Sound() && r.Ok?
      ensures var updated := Updated(old(View()), lease, Runnable, maxAttempts);
        exists rows ::
          && Inserted(updated, rows, r.value, (set w | w in updated.workflows && R.NeedsTask(updated, w)), lease)
          && View() == R.Provision(updated.(tasks := rows), r.value, Runnable, lease)
      ensures forall w :: !R.NeedsTask(View(), w)
      ensures forall s: I.System :: s.db == old(View()) ==> PassLeadsTo(s, View(), lease, maxAttempts)
    {
      ghost var before := View();
      UpdatesKeepInv(View(), lease, Runnable, maxAttempts);
      Reap();
      Advance();
      ghost var updated := View();
      assert updated == Updated(old(View()), lease, Runnable, maxAttempts);
      r := Assign();
      ghost var rows :| Inserted(updated, rows, r.value, (set w | w in updated.workflows && R.NeedsTask(updated, w)), lease)
        && View() == R.Provision(updated.(tasks := rows), r.value, Runnable, lease);
      AssignKeepsInv(updated, rows, r.value, (set w | w in updated.workflows && R.NeedsTask(updated, w)), lease, Runnable, maxAttempts);
      forall s: I.System | s.db == before ensures PassLeadsTo(s, View(), lease, maxAttempts) {
        var acts := PassIsRun(s, rows, r.value, Runnable, lease, maxAttempts);
      }
    }
  }
}
