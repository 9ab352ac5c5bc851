/** Bounded work and progress: a potential per workflow that every change except
    a lease renewal lowers, and that a Step past the lease always lowers. */
module EngineProgress {
  import opened Common
  import opened EngineRows
  import opened EngineRun
  import opened EngineRefinement

  ghost function CurrentTask(db: Db, w: WorkflowId): Option<Task>
    requires w in db.workflows
  {
    if HasTask(db, w, db.workflows[w].currentOp) then
      var i :| IsTaskOf(db, i, w, db.workflows[w].currentOp);
      Some(db.tasks[i])
    else None
  }

  lemma CurrentTaskIsThe(db: Db, w: WorkflowId, i: TaskId)
    requires UniqueKeys(db) && w in db.workflows && IsTaskOf(db, i, w, db.workflows[w].currentOp)
    ensures CurrentTask(db, w) == Some(db.tasks[i])
  {
  }

  /** Changes one operation can take: one insert, a start per attempt, a reap
      between attempts, one terminal write and the workflow's move. */
  function PerOperation(maxAttempts: nat): nat {
    2 * maxAttempts + 2
  }

  /** Changes still possible for the current operation. */
  function TaskPotential(t: Option<Task>, maxAttempts: nat): int {
    match t
    case None => PerOperation(maxAttempts)
    case Some(t) =>
      match t.state
      case Assigned => 2 * (maxAttempts - t.attempt) + 3
      case Running => 2 * (maxAttempts - t.attempt) + 2
      case _ => 1
  }

  ghost function Potential(db: Db, w: WorkflowId, maxAttempts: nat): int
    requires w in db.workflows
  {
    var wf := db.workflows[w];
    if wf.state != InProgress then 0
    else (|wf.definition| - 1 - wf.currentOp) * PerOperation(maxAttempts) + TaskPotential(CurrentTask(db, w), maxAttempts)
  }

  lemma TimesIsNatural(a: nat, b: nat)
    ensures a * b >= 0
  {
  }

  lemma {:induction false} PotentialIsPositive(db: Db, w: WorkflowId, maxAttempts: nat)
    requires DbInv(db, maxAttempts) && w in db.workflows
    ensures Potential(db, w, maxAttempts) >= 0
    ensures Potential(db, w, maxAttempts) == 0 <==> db.workflows[w].state != InProgress
  {
    assert WorkflowOk(db, w);
    var wf := db.workflows[w];
    if wf.state == InProgress {
      TimesIsNatural(|wf.definition| - 1 - wf.currentOp, PerOperation(maxAttempts));
      CurrentPotentialIsPositive(db, w, maxAttempts);
    }
  }

  lemma {:induction false} CurrentPotentialIsPositive(db: Db, w: WorkflowId, maxAttempts: nat)
    requires DbInv(db, maxAttempts) && w in db.workflows
    ensures TaskPotential(CurrentTask(db, w), maxAttempts) > 0
  {
    if HasTask(db, w, db.workflows[w].currentOp) {
      var i :| IsTaskOf(db, i, w, db.workflows[w].currentOp);
      CurrentTaskIsThe(db, w, i);
      assert TaskOk(db, i, maxAttempts);
    }
  }

  /** Everything about `w` except lease times is the same. */
  ghost predicate Unchanged(db: Db, db': Db, w: WorkflowId) {
    && w in db.workflows && w in db'.workflows && db'.workflows[w] == db.workflows[w]
    && forall i :: (i in db.tasks && db.tasks[i].workflow == w) || (i in db'.tasks && db'.tasks[i].workflow == w)
         ==> i in db.tasks && i in db'.tasks && db'.tasks[i].(leaseExpires := 0) == db.tasks[i].(leaseExpires := 0)
  }

  lemma {:induction false} UnchangedKeepsPotential(db: Db, db': Db, w: WorkflowId, maxAttempts: nat)
    requires Unchanged(db, db', w) && UniqueKeys(db) && UniqueKeys(db')
    ensures Potential(db', w, maxAttempts) == Potential(db, w, maxAttempts)
  {
    var k := db.workflows[w].currentOp;
    forall i ensures IsTaskOf(db, i, w, k) <==> IsTaskOf(db', i, w, k) {
    }
    if HasTask(db, w, k) {
      var i :| IsTaskOf(db, i, w, k);
      CurrentTaskIsThe(db, w, i);
      CurrentTaskIsThe(db', w, i);
    } else {
      assert !HasTask(db', w, k);
    }
  }

  /** A row that a statement really changes comes closer to its end. */
  lemma {:induction false} RowChangeLowers(s: System, a: Action, i: TaskId, maxAttempts: nat)
    requires i in s.db.tasks && 1 <= s.db.tasks[i].attempt <= maxAttempts
    ensures i in NextDb(s, a, maxAttempts).tasks
    ensures var t, t' := s.db.tasks[i], NextDb(s, a, maxAttempts).tasks[i];
      && t'.workflow == t.workflow && t'.opIndex == t.opIndex
      && (t'.(leaseExpires := 0) == t.(leaseExpires := 0)
          || (Live(t) && TaskPotential(Some(t'), maxAttempts) < TaskPotential(Some(t), maxAttempts)))
  {
  }

  lemma {:induction false} AdvanceLowers(db: Db, db': Db, w: WorkflowId, maxAttempts: nat)
    requires DbInv(db, maxAttempts) && w in db.workflows && w in db'.workflows && db'.tasks == db.tasks
    requires db.workflows[w].state == InProgress && db'.workflows[w] == AdvanceRow(db.workflows[w])
    ensures Potential(db', w, maxAttempts) < Potential(db, w, maxAttempts)
  {
    var wf := db.workflows[w];
    assert WorkflowOk(db, w);
    PotentialIsPositive(db, w, maxAttempts);
    CurrentPotentialIsPositive(db, w, maxAttempts);
    NothingBeyondCurrent(db, w, maxAttempts);
    SameRowsSameKeys(db, db');
    OneOperationLess(|wf.definition| - 1 - wf.currentOp, PerOperation(maxAttempts));
  }

  lemma OneOperationLess(a: int, p: int)
    ensures a * p == (a - 1) * p + p
  {
  }

  lemma {:induction false} MoveLowers(s: System, a: Action, w: WorkflowId, maxAttempts: nat)
    requires DbInv(s.db, maxAttempts) && w in s.db.workflows && w in NextDb(s, a, maxAttempts).workflows
    requires NextDb(s, a, maxAttempts).workflows[w] != s.db.workflows[w]
    ensures Potential(NextDb(s, a, maxAttempts), w, maxAttempts) < Potential(s.db, w, maxAttempts)
  {
    MovedHow(s, a, w, maxAttempts);
    var db' := NextDb(s, a, maxAttempts);
    if db'.workflows[w].state == InProgress || db'.workflows[w] == AdvanceRow(s.db.workflows[w]) {
      AdvanceLowers(s.db, db', w, maxAttempts);
    } else {
      PotentialIsPositive(s.db, w, maxAttempts);
    }
  }

  /** A workflow row moves on past a finished task, or is defeated. */
  lemma {:induction false} MovedHow(s: System, a: Action, w: WorkflowId, maxAttempts: nat)
    requires w in s.db.workflows && w in NextDb(s, a, maxAttempts).workflows
    requires NextDb(s, a, maxAttempts).workflows[w] != s.db.workflows[w]
    ensures var wf, wf' := s.db.workflows[w], NextDb(s, a, maxAttempts).workflows[w];
      wf.state == InProgress && NextDb(s, a, maxAttempts).tasks == s.db.tasks && (wf' == AdvanceRow(wf) || wf'.state == Defeated)
  {
  }

  lemma {:induction false} NewRowLowers(db: Db, db': Db, w: WorkflowId, i: TaskId, maxAttempts: nat)
    requires 1 <= maxAttempts && UniqueKeys(db') && w in db.workflows && w in db'.workflows
    requires db.workflows[w].state == InProgress && db'.workflows[w] == db.workflows[w]
    requires !HasTask(db, w, db.workflows[w].currentOp) && IsTaskOf(db', i, w, db.workflows[w].currentOp)
    requires db'.tasks[i].state == Assigned && db'.tasks[i].attempt == 1
    ensures Potential(db', w, maxAttempts) < Potential(db, w, maxAttempts)
  {
    CurrentTaskIsThe(db', w, i);
  }

  lemma {:induction false} InsertLowers(s: System, a: Action, w: WorkflowId, i: TaskId, maxAttempts: nat)
    requires 1 <= maxAttempts && Inv(s, maxAttempts) && DbInv(NextDb(s, a, maxAttempts), maxAttempts)
    requires w in s.db.workflows
    requires i !in s.db.tasks && i in NextDb(s, a, maxAttempts).tasks && NextDb(s, a, maxAttempts).tasks[i].workflow == w
    ensures Potential(NextDb(s, a, maxAttempts), w, maxAttempts) < Potential(s.db, w, maxAttempts)
  {
    OnlyInsertAddsRows(s, a, i, maxAttempts);
    var c := a.candidate;
    assert ReadOk(s.db, c);
    InsertedRow(s.db, c, a.id, a.lease, i);
    NewRowLowers(s.db, AssignInsert(s.db, c, a.id, a.lease), w, i, maxAttempts);
  }

  lemma {:induction false} InsertedRow(db: Db, c: Candidate, id: TaskId, lease: int, i: TaskId)
    requires ReadOk(db, c) && i !in db.tasks && i in AssignInsert(db, c, id, lease).tasks
    ensures var db', w := AssignInsert(db, c, id, lease), db.workflows[c.workflow];
      && i == id && db'.tasks[i].workflow == c.workflow && c.opIndex == w.currentOp && w.state == InProgress
      && !HasTask(db, c.workflow, w.currentOp) && IsTaskOf(db', i, c.workflow, w.currentOp)
      && db'.tasks[i].state == Assigned && db'.tasks[i].attempt == 1 && db'.workflows == db.workflows
  {
  }

  lemma {:induction false} RowLowers(db: Db, db': Db, w: WorkflowId, i: TaskId, maxAttempts: nat)
    requires DbInv(db, maxAttempts) && UniqueKeys(db')
    requires w in db.workflows && w in db'.workflows && db'.workflows[w] == db.workflows[w]
    requires i in db.tasks && db.tasks[i].workflow == w && Live(db.tasks[i])
    requires i in db'.tasks && db'.tasks[i].workflow == w && db'.tasks[i].opIndex == db.tasks[i].opIndex
    requires TaskPotential(Some(db'.tasks[i]), maxAttempts) < TaskPotential(Some(db.tasks[i]), maxAttempts)
    ensures Potential(db', w, maxAttempts) < Potential(db, w, maxAttempts)
  {
    assert TaskOk(db, i, maxAttempts);
    assert IsTaskOf(db, i, w, db.workflows[w].currentOp);
    CurrentTaskIsThe(db, w, i);
    CurrentTaskIsThe(db', w, i);
    if db.workflows[w].state != InProgress { VerdictSettlesTasks(db, w, i, maxAttempts); }
  }

  lemma {:induction false} RowStepLowers(s: System, a: Action, w: WorkflowId, i: TaskId, maxAttempts: nat)
    requires DbInv(s.db, maxAttempts) && UniqueKeys(NextDb(s, a, maxAttempts))
    requires w in s.db.workflows && w in NextDb(s, a, maxAttempts).workflows
    requires NextDb(s, a, maxAttempts).workflows[w] == s.db.workflows[w]
    requires i in s.db.tasks && s.db.tasks[i].workflow == w && i in NextDb(s, a, maxAttempts).tasks
    requires NextDb(s, a, maxAttempts).tasks[i].(leaseExpires := 0) != s.db.tasks[i].(leaseExpires := 0)
    ensures Potential(NextDb(s, a, maxAttempts), w, maxAttempts) < Potential(s.db, w, maxAttempts)
  {
    assert TaskOk(s.db, i, maxAttempts);
    RowChangeLowers(s, a, i, maxAttempts);
    RowLowers(s.db, NextDb(s, a, maxAttempts), w, i, maxAttempts);
  }

  lemma {:induction false} ChangedRow(db: Db, db': Db, w: WorkflowId) returns (i: TaskId)
    requires w in db.workflows && w in db'.workflows && db'.workflows[w] == db.workflows[w] && !Unchanged(db, db', w)
    ensures (i in db.tasks && db.tasks[i].workflow == w) || (i in db'.tasks && db'.tasks[i].workflow == w)
    ensures i in db.tasks && i in db'.tasks ==> db'.tasks[i].(leaseExpires := 0) != db.tasks[i].(leaseExpires := 0)
  {
    i :| ((i in db.tasks && db.tasks[i].workflow == w) || (i in db'.tasks && db'.tasks[i].workflow == w))
      && !(i in db.tasks && i in db'.tasks && db'.tasks[i].(leaseExpires := 0) == db.tasks[i].(leaseExpires := 0));
  }

  lemma {:induction false} TaskStepLowers(s: System, a: Action, w: WorkflowId, maxAttempts: nat)
    requires 1 <= maxAttempts && Inv(s, maxAttempts) && w in s.db.workflows
    requires DbInv(NextDb(s, a, maxAttempts), maxAttempts) && w in NextDb(s, a, maxAttempts).workflows
    requires NextDb(s, a, maxAttempts).workflows[w] == s.db.workflows[w]
    requires !Unchanged(s.db, NextDb(s, a, maxAttempts), w)
    ensures Potential(NextDb(s, a, maxAttempts), w, maxAttempts) < Potential(s.db, w, maxAttempts)
  {
    var db, db' := s.db, NextDb(s, a, maxAttempts);
    var i := ChangedRow(db, db', w);
    if i in db.tasks {
      assert TaskOk(db, i, maxAttempts);
      RowKeepsWorkflow(s, a, i, maxAttempts);
      RowStepLowers(s, a, w, i, maxAttempts);
    } else {
      InsertLowers(s, a, w, i, maxAttempts);
    }
  }

  lemma {:induction false} RowKeepsWorkflow(s: System, a: Action, i: TaskId, maxAttempts: nat)
    requires i in s.db.tasks
    ensures i in NextDb(s, a, maxAttempts).tasks && NextDb(s, a, maxAttempts).tasks[i].workflow == s.db.tasks[i].workflow
  {
  }

  /** No step raises the potential, and a step that changes anything of `w`
      but a lease lowers it. */
  lemma {:induction false} StepLowers(s: System, a: Action, w: WorkflowId, maxAttempts: nat)
    requires 1 <= maxAttempts && Inv(s, maxAttempts) && w in s.db.workflows
    ensures w in NextDb(s, a, maxAttempts).workflows
    ensures Unchanged(s.db, NextDb(s, a, maxAttempts), w) ==>
      Potential(NextDb(s, a, maxAttempts), w, maxAttempts) == Potential(s.db, w, maxAttempts)
    ensures !Unchanged(s.db, NextDb(s, a, maxAttempts), w) ==>
      Potential(NextDb(s, a, maxAttempts), w, maxAttempts) < Potential(s.db, w, maxAttempts)
  {
    var db, db' := s.db, NextDb(s, a, maxAttempts);
    NextKeepsDb(s, a, maxAttempts);
    NextWorkflows(s, a, w, maxAttempts);
    if Unchanged(db, db', w) {
      UnchangedKeepsPotential(db, db', w, maxAttempts);
    } else if db'.workflows[w] != db.workflows[w] {
      MoveLowers(s, a, w, maxAttempts);
    } else {
      TaskStepLowers(s, a, w, maxAttempts);
    }
  }

  // ---- bounded work ----

  /** How many steps of a run change anything of `w` but a lease. */
  ghost function Changes(s: System, acts: seq<Action>, w: WorkflowId, maxAttempts: nat): nat
    decreases |acts|
  {
    if acts == [] then 0
    else
      var s' := Next(s, acts[0], maxAttempts);
      (if Unchanged(s.db, s'.db, w) then 0 else 1) + Changes(s', acts[1..], w, maxAttempts)
  }

  lemma {:induction false} RunLowers(s: System, acts: seq<Action>, w: WorkflowId, maxAttempts: nat)
    requires 1 <= maxAttempts && Inv(s, maxAttempts) && w in s.db.workflows
    ensures var t := RunFrom(s, acts, maxAttempts);
      && Inv(t, maxAttempts) && w in t.db.workflows
      && Potential(t.db, w, maxAttempts) + Changes(s, acts, w, maxAttempts) <= Potential(s.db, w, maxAttempts)
      && (Potential(t.db, w, maxAttempts) == Potential(s.db, w, maxAttempts) ==> Unchanged(s.db, t.db, w))
      && s.pending <= t.pending
    decreases |acts|
  {
    if acts != [] {
      var s' := Next(s, acts[0], maxAttempts);
      NextKeepsInv(s, acts[0], maxAttempts);
      StepLowers(s, acts[0], w, maxAttempts);
      RunLowers(s', acts[1..], w, maxAttempts);
    }
  }

  lemma {:induction false} NewWorkflowPotential(db: Db, w: WorkflowId, definition: seq<OpDef>, maxAttempts: nat)
    requires DbInv(db, maxAttempts) && definition != [] && w !in db.workflows
    ensures Potential(CreateWorkflow(db, w, definition), w, maxAttempts) == |definition| * PerOperation(maxAttempts)
  {
    var db' := CreateWorkflow(db, w, definition);
    assert !HasTask(db', w, 0);
    OneOperationLess(|definition|, PerOperation(maxAttempts));
  }

  /** A workflow of n operations is changed at most n*(2M+2) times in any run,
      counted from its creation in any reachable state. */
  lemma {:induction false} WorkIsBounded(now: int, before: seq<Action>, w: WorkflowId, definition: seq<OpDef>,
                                         after: seq<Action>, maxAttempts: nat)
    requires 1 <= maxAttempts && definition != []
    requires w !in RunFrom(Init(now), before, maxAttempts).db.workflows
    ensures var s := Next(RunFrom(Init(now), before, maxAttempts), Create(w, definition), maxAttempts);
      Changes(s, after, w, maxAttempts) <= |definition| * (2 * maxAttempts + 2)
  {
    var s0 := RunFrom(Init(now), before, maxAttempts);
    RunKeepsInv(Init(now), before, maxAttempts);
    NewWorkflowPotential(s0.db, w, definition, maxAttempts);
    BoundFrom(s0, w, definition, after, maxAttempts);
  }

  lemma {:induction false} BoundFrom(s0: System, w: WorkflowId, definition: seq<OpDef>, after: seq<Action>, maxAttempts: nat)
    requires 1 <= maxAttempts && Inv(s0, maxAttempts) && definition != [] && w !in s0.db.workflows
    ensures var s := Next(s0, Create(w, definition), maxAttempts);
      Changes(s, after, w, maxAttempts) <= Potential(s.db, w, maxAttempts)
  {
    var s := Next(s0, Create(w, definition), maxAttempts);
    NextKeepsInv(s0, Create(w, definition), maxAttempts);
    RunLowers(s, after, w, maxAttempts);
    PotentialIsPositive(RunFrom(s, after, maxAttempts).db, w, maxAttempts);
  }

  // ---- progress ----

  /** One orchestrator pass as it interleaves with everything else: each
      statement is followed by arbitrary other actions. */
  datatype Pass = Pass(
    before: seq<Action>,
    reaped: set<TaskId>, lease: int, gap1: seq<Action>,
    exhausted: set<TaskId>, gap2: seq<Action>,
    gap3: seq<Action>, gap4: seq<Action>, gap5: seq<Action>, id: TaskId)

  ghost function AtReap(s: System, p: Pass, maxAttempts: nat): System {
    RunFrom(s, p.before, maxAttempts)
  }

  ghost function AtExhaust(s: System, p: Pass, maxAttempts: nat): System {
    RunFrom(Next(AtReap(s, p, maxAttempts), DoReap(p.reaped, p.lease), maxAttempts), p.gap1, maxAttempts)
  }

  ghost function AtAdvance(s: System, p: Pass, maxAttempts: nat): System {
    RunFrom(Next(AtExhaust(s, p, maxAttempts), DoExhaust(p.exhausted), maxAttempts), p.gap2, maxAttempts)
  }

  ghost function AtFail(s: System, p: Pass, w: WorkflowId, maxAttempts: nat): System {
    RunFrom(Next(AtAdvance(s, p, maxAttempts), DoAdvance({w}), maxAttempts), p.gap3, maxAttempts)
  }

  ghost function AtRead(s: System, p: Pass, w: WorkflowId, maxAttempts: nat): System {
    RunFrom(Next(AtFail(s, p, w, maxAttempts), DoFailWorkflows({w}), maxAttempts), p.gap4, maxAttempts)
  }

  ghost function AtInsert(s: System, p: Pass, w: WorkflowId, maxAttempts: nat): System {
    RunFrom(Next(AtRead(s, p, w, maxAttempts), ReadCandidates, maxAttempts), p.gap5, maxAttempts)
  }

  ghost function AfterPass(s: System, p: Pass, w: WorkflowId, maxAttempts: nat): System {
    var r := AtRead(s, p, w, maxAttempts).db;
    if NeedsTask(r, w) && r.workflows[w].currentOp < |r.workflows[w].definition| then
      var c := Candidate(w, r.workflows[w].currentOp, r.workflows[w].definition[r.workflows[w].currentOp]);
      Next(AtInsert(s, p, w, maxAttempts), InsertCandidate(c, p.id, p.lease), maxAttempts)
    else AtInsert(s, p, w, maxAttempts)
  }

  /** The current task of `w`, if live, is past its lease. */
  ghost predicate LeaseIsOver(db: Db, w: WorkflowId) {
    w in db.workflows ==>
      forall i :: IsTaskOf(db, i, w, db.workflows[w].currentOp) && Live(db.tasks[i]) ==> Expired(db.tasks[i], db.now)
  }

  /** The same for a current task that has no attempt left. */
  ghost predicate LastLeaseIsOver(db: Db, w: WorkflowId, maxAttempts: nat) {
    w in db.workflows ==>
      forall i :: IsTaskOf(db, i, w, db.workflows[w].currentOp) && Live(db.tasks[i]) && db.tasks[i].attempt >= maxAttempts ==>
        Expired(db.tasks[i], db.now)
  }

  /** The pass reaches every row, begins past the current lease, meets a current
      task that is out of attempts and untouched since still past its lease, and
      the sequence hands out an unused id. */
  ghost predicate IsSpaced(s: System, p: Pass, w: WorkflowId, maxAttempts: nat) {
    var r1, r2 := AtReap(s, p, maxAttempts).db, AtExhaust(s, p, maxAttempts).db;
    && r1.tasks.Keys <= p.reaped && r2.tasks.Keys <= p.exhausted
    && LeaseIsOver(r1, w)
    && (Unchanged(r1, r2, w) ==> LastLeaseIsOver(r2, w, maxAttempts))
    && p.id !in AtInsert(s, p, w, maxAttempts).db.tasks
  }

  predicate NoRenewal(acts: seq<Action>) {
    forall a :: a in acts ==> !a.Renew?
  }

  lemma {:induction false} OnlyRenewalsMoveLeases(s: System, a: Action, i: TaskId, maxAttempts: nat)
    requires i in s.db.tasks && i in NextDb(s, a, maxAttempts).tasks && !a.Renew?
    requires NextDb(s, a, maxAttempts).tasks[i].(leaseExpires := 0) == s.db.tasks[i].(leaseExpires := 0)
    ensures NextDb(s, a, maxAttempts).tasks[i] == s.db.tasks[i]
    ensures NextDb(s, a, maxAttempts).now >= s.db.now
  {
  }

  lemma {:induction false} QuietRunKeepsLease(s: System, acts: seq<Action>, w: WorkflowId, i: TaskId, maxAttempts: nat)
    requires 1 <= maxAttempts && Inv(s, maxAttempts) && w in s.db.workflows && NoRenewal(acts)
    requires i in s.db.tasks && s.db.tasks[i].workflow == w
    requires var t := RunFrom(s, acts, maxAttempts).db;
      w in t.workflows && Potential(t, w, maxAttempts) == Potential(s.db, w, maxAttempts)
    ensures var t := RunFrom(s, acts, maxAttempts).db;
      i in t.tasks && t.tasks[i] == s.db.tasks[i] && t.now >= s.db.now
    decreases |acts|
  {
    if acts != [] {
      var a, s' := acts[0], Next(s, acts[0], maxAttempts);
      assert a in acts;
      StepLowers(s, a, w, maxAttempts);
      NextKeepsInv(s, a, maxAttempts);
      RunLowers(s', acts[1..], w, maxAttempts);
      assert Unchanged(s.db, s'.db, w);
      OnlyRenewalsMoveLeases(s, a, i, maxAttempts);
      QuietRunKeepsLease(s', acts[1..], w, i, maxAttempts);
    }
  }

  /** Between the two reap statements only a renewal can spoil the spacing. */
  lemma {:induction false} QuietGapKeepsSpacing(s: System, p: Pass, w: WorkflowId, maxAttempts: nat)
    requires 1 <= maxAttempts && Inv(s, maxAttempts) && w in s.db.workflows && NoRenewal(p.gap1)
    requires LeaseIsOver(AtReap(s, p, maxAttempts).db, w)
    ensures Unchanged(AtReap(s, p, maxAttempts).db, AtExhaust(s, p, maxAttempts).db, w) ==>
      LastLeaseIsOver(AtExhaust(s, p, maxAttempts).db, w, maxAttempts)
  {
    RunLowers(s, p.before, w, maxAttempts);
    var r1, r2 := AtReap(s, p, maxAttempts), AtExhaust(s, p, maxAttempts);
    var acts := [DoReap(p.reaped, p.lease)] + p.gap1;
    assert acts[1..] == p.gap1 && RunFrom(r1, acts, maxAttempts) == r2;
    RunLowers(r1, acts, w, maxAttempts);
    if Unchanged(r1.db, r2.db, w) {
      UnchangedKeepsPotential(r1.db, r2.db, w, maxAttempts);
      forall i | IsTaskOf(r2.db, i, w, r2.db.workflows[w].currentOp) && Live(r2.db.tasks[i])
        ensures Expired(r2.db.tasks[i], r2.db.now)
      {
        QuietRunKeepsLease(r1, acts, w, i, maxAttempts);
        assert IsTaskOf(r1.db, i, w, r1.db.workflows[w].currentOp);
      }
    }
  }

  /** The pass of one orchestrator left alone. */
  function Undisturbed(reaped: set<TaskId>, lease: int, id: TaskId): Pass {
    Pass([], reaped, lease, [], reaped, [], [], [], [], id)
  }

  /** An ordinary pass is spaced: whatever it requeues, and whatever lease it
      gives, it only has to begin past the current lease and reach the rows. */
  lemma {:induction false} OrdinaryPassIsSpaced(s: System, reaped: set<TaskId>, lease: int, id: TaskId, w: WorkflowId, maxAttempts: nat)
    requires 1 <= maxAttempts && Inv(s, maxAttempts) && w in s.db.workflows
    requires LeaseIsOver(s.db, w) && s.db.tasks.Keys <= reaped && id !in s.db.tasks
    ensures IsSpaced(s, Undisturbed(reaped, lease, id), w, maxAttempts)
  {
    var p := Undisturbed(reaped, lease, id);
    QuietGapKeepsSpacing(s, p, w, maxAttempts);
    UndisturbedKeys(s, p, w, maxAttempts);
  }

  lemma {:induction false} UndisturbedKeys(s: System, p: Pass, w: WorkflowId, maxAttempts: nat)
    requires p == Undisturbed(p.reaped, p.lease, p.id)
    ensures AtReap(s, p, maxAttempts) == s
    ensures AtExhaust(s, p, maxAttempts).db.tasks.Keys == s.db.tasks.Keys
    ensures AtInsert(s, p, w, maxAttempts).db.tasks.Keys == s.db.tasks.Keys
  {
    var r2, r3 := AtExhaust(s, p, maxAttempts), AtAdvance(s, p, maxAttempts);
    var r4, r5 := AtFail(s, p, w, maxAttempts), AtRead(s, p, w, maxAttempts);
    assert r2.db.tasks.Keys == s.db.tasks.Keys;
    assert r3.db.tasks.Keys == r2.db.tasks.Keys;
    assert r4.db.tasks == r3.db.tasks;
    assert r5.db.tasks == r4.db.tasks;
    assert AtInsert(s, p, w, maxAttempts).db.tasks == r5.db.tasks;
  }

  /** A live, expired current task is taken by one of the two reap statements. */
  lemma {:induction false} ReapOrExhaustLowers(s: System, a: Action, w: WorkflowId, i: TaskId, maxAttempts: nat)
    requires 1 <= maxAttempts && Inv(s, maxAttempts) && w in s.db.workflows
    requires IsTaskOf(s.db, i, w, s.db.workflows[w].currentOp) && Expired(s.db.tasks[i], s.db.now)
    requires (a.DoReap? && i in a.tasks && s.db.tasks[i].attempt < maxAttempts)
          || (a.DoExhaust? && i in a.tasks && s.db.tasks[i].attempt >= maxAttempts)
    ensures w in NextDb(s, a, maxAttempts).workflows
    ensures Potential(NextDb(s, a, maxAttempts), w, maxAttempts) < Potential(s.db, w, maxAttempts)
  {
    StepLowers(s, a, w, maxAttempts);
    assert !Unchanged(s.db, NextDb(s, a, maxAttempts), w);
  }

  lemma {:induction false} SettledTaskLowers(s: System, a: Action, w: WorkflowId, i: TaskId, maxAttempts: nat)
    requires 1 <= maxAttempts && Inv(s, maxAttempts) && w in s.db.workflows && s.db.workflows[w].state == InProgress
    requires IsTaskOf(s.db, i, w, s.db.workflows[w].currentOp)
    requires (a == DoAdvance({w}) && s.db.tasks[i].state == Finished)
          || (a == DoFailWorkflows({w}) && s.db.tasks[i].state == Failed)
    ensures w in NextDb(s, a, maxAttempts).workflows
    ensures Potential(NextDb(s, a, maxAttempts), w, maxAttempts) < Potential(s.db, w, maxAttempts)
  {
    StepLowers(s, a, w, maxAttempts);
    assert CurrentTaskIs(s.db, w, s.db.tasks[i].state);
    assert NextDb(s, a, maxAttempts).workflows[w] != s.db.workflows[w];
  }

  lemma {:induction false} InsertLowersFresh(s: System, c: Candidate, id: TaskId, lease: int, w: WorkflowId, maxAttempts: nat)
    requires 1 <= maxAttempts && Inv(s, maxAttempts) && w in s.db.workflows
    requires c in s.pending && c.workflow == w && !HasTask(s.db, w, c.opIndex) && id !in s.db.tasks
    ensures var a := InsertCandidate(c, id, lease);
      && w in NextDb(s, a, maxAttempts).workflows
      && Potential(NextDb(s, a, maxAttempts), w, maxAttempts) < Potential(s.db, w, maxAttempts)
  {
    var a := InsertCandidate(c, id, lease);
    StepLowers(s, a, w, maxAttempts);
    assert id in NextDb(s, a, maxAttempts).tasks && NextDb(s, a, maxAttempts).tasks[id].workflow == w;
  }

  lemma {:induction false} StepThenRunLowers(s: System, a: Action, acts: seq<Action>, w: WorkflowId, maxAttempts: nat)
    requires 1 <= maxAttempts && Inv(s, maxAttempts) && w in s.db.workflows
    ensures var t := RunFrom(Next(s, a, maxAttempts), acts, maxAttempts);
      && Inv(t, maxAttempts) && w in t.db.workflows && w in NextDb(s, a, maxAttempts).workflows
      && Potential(t.db, w, maxAttempts) <= Potential(NextDb(s, a, maxAttempts), w, maxAttempts) <= Potential(s.db, w, maxAttempts)
      && (Potential(t.db, w, maxAttempts) == Potential(s.db, w, maxAttempts) ==> Unchanged(s.db, t.db, w))
      && Next(s, a, maxAttempts).pending <= t.pending
  {
    NextKeepsInv(s, a, maxAttempts);
    StepLowers(s, a, w, maxAttempts);
    RunLowers(Next(s, a, maxAttempts), acts, w, maxAttempts);
  }

  lemma {:induction false} UnchangedRow(db: Db, db': Db, w: WorkflowId, i: TaskId)
    requires Unchanged(db, db', w) && IsTaskOf(db, i, w, db.workflows[w].currentOp)
    ensures IsTaskOf(db', i, w, db'.workflows[w].currentOp)
    ensures db'.tasks[i].state == db.tasks[i].state && db'.tasks[i].attempt == db.tasks[i].attempt
  {
    assert db'.tasks[i].(leaseExpires := 0) == db.tasks[i].(leaseExpires := 0);
  }

  lemma {:induction false} UnchangedTwice(a: Db, b: Db, c: Db, w: WorkflowId)
    requires Unchanged(a, b, w) && Unchanged(b, c, w)
    ensures Unchanged(a, c, w)
  {
  }

  /** Potential at each statement of a pass, never rising; two points of equal
      potential have the same workflow and tasks. */
  lemma {:induction false} PassChain(s: System, p: Pass, w: WorkflowId, maxAttempts: nat)
    requires 1 <= maxAttempts && Inv(s, maxAttempts) && w in s.db.workflows
    ensures var r1, r2, r3 := AtReap(s, p, maxAttempts), AtExhaust(s, p, maxAttempts), AtAdvance(s, p, maxAttempts);
      && Inv(r1, maxAttempts) && Inv(r2, maxAttempts) && Inv(r3, maxAttempts)
      && w in r1.db.workflows && w in r2.db.workflows && w in r3.db.workflows
      && Potential(r3.db, w, maxAttempts) <= Potential(r2.db, w, maxAttempts)
           <= Potential(r1.db, w, maxAttempts) <= Potential(s.db, w, maxAttempts)
      && (Potential(r2.db, w, maxAttempts) == Potential(r1.db, w, maxAttempts) ==> Unchanged(r1.db, r2.db, w))
      && (Potential(r3.db, w, maxAttempts) == Potential(r1.db, w, maxAttempts) ==> Unchanged(r1.db, r3.db, w))
  {
    var r1, r2, r3 := AtReap(s, p, maxAttempts), AtExhaust(s, p, maxAttempts), AtAdvance(s, p, maxAttempts);
    RunLowers(s, p.before, w, maxAttempts);
    StepThenRunLowers(r1, DoReap(p.reaped, p.lease), p.gap1, w, maxAttempts);
    StepThenRunLowers(r2, DoExhaust(p.exhausted), p.gap2, w, maxAttempts);
    if Potential(r3.db, w, maxAttempts) == Potential(r1.db, w, maxAttempts) {
      UnchangedTwice(r1.db, r2.db, r3.db, w);
    }
  }

  lemma {:induction false} PassTail(s: System, p: Pass, w: WorkflowId, maxAttempts: nat)
    requires 1 <= maxAttempts && Inv(AtAdvance(s, p, maxAttempts), maxAttempts)
    requires w in AtAdvance(s, p, maxAttempts).db.workflows
    ensures var r3, r4, r5, r6 := AtAdvance(s, p, maxAttempts), AtFail(s, p, w, maxAttempts), AtRead(s, p, w, maxAttempts), AtInsert(s, p, w, maxAttempts);
      && Inv(r4, maxAttempts) && Inv(r5, maxAttempts) && Inv(r6, maxAttempts)
      && w in r4.db.workflows && w in r5.db.workflows && w in r6.db.workflows
      && Potential(r6.db, w, maxAttempts) <= Potential(r5.db, w, maxAttempts)
           <= Potential(r4.db, w, maxAttempts) <= Potential(r3.db, w, maxAttempts)
      && (Potential(r4.db, w, maxAttempts) == Potential(r3.db, w, maxAttempts) ==> Unchanged(r3.db, r4.db, w))
      && (Potential(r5.db, w, maxAttempts) == Potential(r3.db, w, maxAttempts) ==> Unchanged(r3.db, r5.db, w))
      && (Potential(r6.db, w, maxAttempts) == Potential(r5.db, w, maxAttempts) ==> Unchanged(r5.db, r6.db, w))
      && Next(r5, ReadCandidates, maxAttempts).pending <= r6.pending
  {
    var r3, r4, r5 := AtAdvance(s, p, maxAttempts), AtFail(s, p, w, maxAttempts), AtRead(s, p, w, maxAttempts);
    StepThenRunLowers(r3, DoAdvance({w}), p.gap3, w, maxAttempts);
    StepThenRunLowers(r4, DoFailWorkflows({w}), p.gap4, w, maxAttempts);
    StepThenRunLowers(r5, ReadCandidates, p.gap5, w, maxAttempts);
    if Potential(r5.db, w, maxAttempts) == Potential(r3.db, w, maxAttempts) {
      UnchangedTwice(r3.db, r4.db, r5.db, w);
    }
  }

  lemma {:induction false} PassHead(s: System, p: Pass, w: WorkflowId, i: TaskId, maxAttempts: nat)
    requires 1 <= maxAttempts && Inv(s, maxAttempts) && w in s.db.workflows && IsSpaced(s, p, w, maxAttempts)
    requires var r1 := AtReap(s, p, maxAttempts).db;
      w in r1.workflows && IsTaskOf(r1, i, w, r1.workflows[w].currentOp) && Live(r1.tasks[i])
    ensures w in AtAdvance(s, p, maxAttempts).db.workflows
    ensures Potential(AtAdvance(s, p, maxAttempts).db, w, maxAttempts) < Potential(AtReap(s, p, maxAttempts).db, w, maxAttempts)
  {
    PassChain(s, p, w, maxAttempts);
    var r1, r2 := AtReap(s, p, maxAttempts), AtExhaust(s, p, maxAttempts);
    if r1.db.tasks[i].attempt < maxAttempts {
      ReapOrExhaustLowers(r1, DoReap(p.reaped, p.lease), w, i, maxAttempts);
      StepThenRunLowers(r1, DoReap(p.reaped, p.lease), p.gap1, w, maxAttempts);
    } else if Potential(r2.db, w, maxAttempts) == Potential(r1.db, w, maxAttempts) {
      UnchangedRow(r1.db, r2.db, w, i);
      ReapOrExhaustLowers(r2, DoExhaust(p.exhausted), w, i, maxAttempts);
      StepThenRunLowers(r2, DoExhaust(p.exhausted), p.gap2, w, maxAttempts);
    }
  }

  lemma {:induction false} PassMiddle(s: System, p: Pass, w: WorkflowId, i: TaskId, maxAttempts: nat)
    requires 1 <= maxAttempts && Inv(s, maxAttempts) && w in s.db.workflows
    requires var r1 := AtReap(s, p, maxAttempts).db;
      && w in r1.workflows && r1.workflows[w].state == InProgress
      && IsTaskOf(r1, i, w, r1.workflows[w].currentOp) && !Live(r1.tasks[i])
    ensures w in AtRead(s, p, w, maxAttempts).db.workflows
    ensures Potential(AtRead(s, p, w, maxAttempts).db, w, maxAttempts) < Potential(AtReap(s, p, maxAttempts).db, w, maxAttempts)
  {
    PassChain(s, p, w, maxAttempts);
    PassTail(s, p, w, maxAttempts);
    var r1, r3, r4 := AtReap(s, p, maxAttempts), AtAdvance(s, p, maxAttempts), AtFail(s, p, w, maxAttempts);
    if Potential(r3.db, w, maxAttempts) == Potential(r1.db, w, maxAttempts) {
      UnchangedRow(r1.db, r3.db, w, i);
      if r1.db.tasks[i].state == Finished {
        SettledTaskLowers(r3, DoAdvance({w}), w, i, maxAttempts);
        StepThenRunLowers(r3, DoAdvance({w}), p.gap3, w, maxAttempts);
      } else if Potential(r4.db, w, maxAttempts) == Potential(r3.db, w, maxAttempts) {
        UnchangedRow(r3.db, r4.db, w, i);
        SettledTaskLowers(r4, DoFailWorkflows({w}), w, i, maxAttempts);
        StepThenRunLowers(r4, DoFailWorkflows({w}), p.gap4, w, maxAttempts);
      }
    }
  }

  lemma {:induction false} UnchangedNone(db: Db, db': Db, w: WorkflowId)
    requires Unchanged(db, db', w) && !HasTask(db, w, db.workflows[w].currentOp)
    ensures !HasTask(db', w, db.workflows[w].currentOp)
  {
    forall i | IsTaskOf(db', i, w, db.workflows[w].currentOp) ensures IsTaskOf(db, i, w, db.workflows[w].currentOp) {
      assert db'.tasks[i].(leaseExpires := 0) == db.tasks[i].(leaseExpires := 0);
    }
  }

  lemma {:induction false} ReadFinds(s: System, w: WorkflowId, maxAttempts: nat)
    requires Inv(s, maxAttempts) && NeedsTask(s.db, w)
    ensures var wf := s.db.workflows[w];
      wf.currentOp < |wf.definition|
      && Candidate(w, wf.currentOp, wf.definition[wf.currentOp]) in Next(s, ReadCandidates, maxAttempts).pending
  {
    assert WorkflowOk(s.db, w);
    FreshReadsAreOk(s.db, maxAttempts);
    var wf := s.db.workflows[w];
    assert Candidate(w, wf.currentOp, wf.definition[wf.currentOp]) in AssignRead(s.db);
  }

  lemma {:induction false} PassEnd(s: System, p: Pass, w: WorkflowId, maxAttempts: nat)
    requires 1 <= maxAttempts && Inv(AtAdvance(s, p, maxAttempts), maxAttempts) && w in AtAdvance(s, p, maxAttempts).db.workflows
    requires NeedsTask(AtRead(s, p, w, maxAttempts).db, w) && IsSpaced(s, p, w, maxAttempts)
    ensures w in AfterPass(s, p, w, maxAttempts).db.workflows
    ensures Potential(AfterPass(s, p, w, maxAttempts).db, w, maxAttempts) < Potential(AtRead(s, p, w, maxAttempts).db, w, maxAttempts)
  {
    PassTail(s, p, w, maxAttempts);
    var r5, r6 := AtRead(s, p, w, maxAttempts), AtInsert(s, p, w, maxAttempts);
    ReadFinds(r5, w, maxAttempts);
    var wf := r5.db.workflows[w];
    var c := Candidate(w, wf.currentOp, wf.definition[wf.currentOp]);
    if Potential(r6.db, w, maxAttempts) == Potential(r5.db, w, maxAttempts) {
      UnchangedNone(r5.db, r6.db, w);
      InsertLowersFresh(r6, c, p.id, p.lease, w, maxAttempts);
    } else {
      StepLowers(r6, InsertCandidate(c, p.id, p.lease), w, maxAttempts);
    }
  }

  lemma {:induction false} AfterPassIsLater(s: System, p: Pass, w: WorkflowId, maxAttempts: nat)
    requires 1 <= maxAttempts && Inv(AtInsert(s, p, w, maxAttempts), maxAttempts) && w in AtInsert(s, p, w, maxAttempts).db.workflows
    ensures Inv(AfterPass(s, p, w, maxAttempts), maxAttempts) && w in AfterPass(s, p, w, maxAttempts).db.workflows
    ensures Potential(AfterPass(s, p, w, maxAttempts).db, w, maxAttempts) <= Potential(AtInsert(s, p, w, maxAttempts).db, w, maxAttempts)
  {
    var r, r6 := AtRead(s, p, w, maxAttempts).db, AtInsert(s, p, w, maxAttempts);
    if NeedsTask(r, w) && r.workflows[w].currentOp < |r.workflows[w].definition| {
      var c := Candidate(w, r.workflows[w].currentOp, r.workflows[w].definition[r.workflows[w].currentOp]);
      NextKeepsInv(r6, InsertCandidate(c, p.id, p.lease), maxAttempts);
      StepLowers(r6, InsertCandidate(c, p.id, p.lease), w, maxAttempts);
    }
  }

  lemma {:induction false} PassLowersFromReap(s: System, p: Pass, w: WorkflowId, maxAttempts: nat)
    requires 1 <= maxAttempts && Inv(s, maxAttempts) && w in s.db.workflows && IsSpaced(s, p, w, maxAttempts)
    requires w in AtReap(s, p, maxAttempts).db.workflows && AtReap(s, p, maxAttempts).db.workflows[w].state == InProgress
    ensures w in AfterPass(s, p, w, maxAttempts).db.workflows && Inv(AfterPass(s, p, w, maxAttempts), maxAttempts)
    ensures Potential(AfterPass(s, p, w, maxAttempts).db, w, maxAttempts) < Potential(AtReap(s, p, maxAttempts).db, w, maxAttempts)
  {
    PassChain(s, p, w, maxAttempts);
    PassTail(s, p, w, maxAttempts);
    AfterPassIsLater(s, p, w, maxAttempts);
    var r1 := AtReap(s, p, maxAttempts);
    if HasTask(r1.db, w, r1.db.workflows[w].currentOp) {
      var i :| IsTaskOf(r1.db, i, w, r1.db.workflows[w].currentOp);
      if Live(r1.db.tasks[i]) { PassHead(s, p, w, i, maxAttempts); } else { PassMiddle(s, p, w, i, maxAttempts); }
    } else {
      PassLowersFromNone(s, p, w, maxAttempts);
    }
  }

  lemma {:induction false} PassLowersFromNone(s: System, p: Pass, w: WorkflowId, maxAttempts: nat)
    requires 1 <= maxAttempts && Inv(s, maxAttempts) && w in s.db.workflows && IsSpaced(s, p, w, maxAttempts)
    requires NeedsTask(AtReap(s, p, maxAttempts).db, w)
    ensures w in AfterPass(s, p, w, maxAttempts).db.workflows
    ensures Potential(AfterPass(s, p, w, maxAttempts).db, w, maxAttempts) < Potential(AtReap(s, p, maxAttempts).db, w, maxAttempts)
  {
    PassChain(s, p, w, maxAttempts);
    PassTail(s, p, w, maxAttempts);
    AfterPassIsLater(s, p, w, maxAttempts);
    var r1, r3, r5 := AtReap(s, p, maxAttempts), AtAdvance(s, p, maxAttempts), AtRead(s, p, w, maxAttempts);
    if Potential(r5.db, w, maxAttempts) == Potential(r1.db, w, maxAttempts) {
      UnchangedTwice(r1.db, r3.db, r5.db, w);
      UnchangedNone(r1.db, r5.db, w);
      PassEnd(s, p, w, maxAttempts);
    }
  }

  /** No stuck workflow: a spaced pass over a workflow without a verdict always
      brings it closer to one, whatever runs between its statements. */
  lemma {:induction false} PassMakesProgress(s: System, p: Pass, w: WorkflowId, maxAttempts: nat)
    requires 1 <= maxAttempts && Inv(s, maxAttempts) && w in s.db.workflows
    requires s.db.workflows[w].state == InProgress && IsSpaced(s, p, w, maxAttempts)
    ensures w in AfterPass(s, p, w, maxAttempts).db.workflows && Inv(AfterPass(s, p, w, maxAttempts), maxAttempts)
    ensures Potential(AfterPass(s, p, w, maxAttempts).db, w, maxAttempts) < Potential(s.db, w, maxAttempts)
  {
    var r1 := AtReap(s, p, maxAttempts);
    RunLowers(s, p.before, w, maxAttempts);
    PotentialIsPositive(s.db, w, maxAttempts);
    PotentialIsPositive(r1.db, w, maxAttempts);
    if r1.db.workflows[w].state == InProgress {
      PassLowersFromReap(s, p, w, maxAttempts);
    } else {
      PassNeverRises(s, p, w, maxAttempts);
    }
  }

  lemma {:induction false} PassNeverRises(s: System, p: Pass, w: WorkflowId, maxAttempts: nat)
    requires 1 <= maxAttempts && Inv(s, maxAttempts) && w in s.db.workflows
    ensures w in AfterPass(s, p, w, maxAttempts).db.workflows && Inv(AfterPass(s, p, w, maxAttempts), maxAttempts)
    ensures w in AtReap(s, p, maxAttempts).db.workflows
    ensures Potential(AfterPass(s, p, w, maxAttempts).db, w, maxAttempts) <= Potential(AtReap(s, p, maxAttempts).db, w, maxAttempts)
  {
    PassChain(s, p, w, maxAttempts);
    PassTail(s, p, w, maxAttempts);
    AfterPassIsLater(s, p, w, maxAttempts);
  }

  ghost function AfterPasses(s: System, ps: seq<Pass>, w: WorkflowId, maxAttempts: nat): System
    decreases |ps|
  {
    if ps == [] then s else AfterPasses(AfterPass(s, ps[0], w, maxAttempts), ps[1..], w, maxAttempts)
  }

  ghost predicate AllSpaced(s: System, ps: seq<Pass>, w: WorkflowId, maxAttempts: nat)
    decreases |ps|
  {
    ps == [] || (IsSpaced(s, ps[0], w, maxAttempts) && AllSpaced(AfterPass(s, ps[0], w, maxAttempts), ps[1..], w, maxAttempts))
  }

  lemma {:induction false} PassKeepsOrder(s: System, p: Pass, w: WorkflowId, maxAttempts: nat)
    requires 1 <= maxAttempts && Inv(s, maxAttempts) && w in s.db.workflows
    ensures w in AfterPass(s, p, w, maxAttempts).db.workflows && Inv(AfterPass(s, p, w, maxAttempts), maxAttempts)
    ensures Potential(AfterPass(s, p, w, maxAttempts).db, w, maxAttempts) <= Potential(s.db, w, maxAttempts)
  {
    RunLowers(s, p.before, w, maxAttempts);
    PassNeverRises(s, p, w, maxAttempts);
  }

  lemma {:induction false} PassesLower(s: System, ps: seq<Pass>, w: WorkflowId, maxAttempts: nat)
    requires 1 <= maxAttempts && Inv(s, maxAttempts) && w in s.db.workflows && AllSpaced(s, ps, w, maxAttempts)
    ensures var t := AfterPasses(s, ps, w, maxAttempts);
      && Inv(t, maxAttempts) && w in t.db.workflows
      && (t.db.workflows[w].state == InProgress ==> Potential(t.db, w, maxAttempts) + |ps| <= Potential(s.db, w, maxAttempts))
    decreases |ps|
  {
    if ps != [] {
      var s' := AfterPass(s, ps[0], w, maxAttempts);
      PassKeepsOrder(s, ps[0], w, maxAttempts);
      if s.db.workflows[w].state == InProgress { PassMakesProgress(s, ps[0], w, maxAttempts); }
      PassesLower(s', ps[1..], w, maxAttempts);
      PotentialIsPositive(s.db, w, maxAttempts);
      PotentialIsPositive(s'.db, w, maxAttempts);
      PotentialIsPositive(AfterPasses(s, ps, w, maxAttempts).db, w, maxAttempts);
    }
  }

  /** After n*(2M+2) spaced passes a workflow has its verdict. */
  lemma {:induction false} WorkflowsEnd(now: int, before: seq<Action>, w: WorkflowId, definition: seq<OpDef>,
                                        ps: seq<Pass>, maxAttempts: nat)
    requires 1 <= maxAttempts && definition != []
    requires w !in RunFrom(Init(now), before, maxAttempts).db.workflows
    requires |ps| >= |definition| * (2 * maxAttempts + 2)
    requires AllSpaced(Next(RunFrom(Init(now), before, maxAttempts), Create(w, definition), maxAttempts), ps, w, maxAttempts)
    ensures var s := Next(RunFrom(Init(now), before, maxAttempts), Create(w, definition), maxAttempts);
      var t := AfterPasses(s, ps, w, maxAttempts).db;
      w in t.workflows && t.workflows[w].state != InProgress
  {
    var s0 := RunFrom(Init(now), before, maxAttempts);
    RunKeepsInv(Init(now), before, maxAttempts);
    NextKeepsInv(s0, Create(w, definition), maxAttempts);
    NewWorkflowPotential(s0.db, w, definition, maxAttempts);
    EndFrom(Next(s0, Create(w, definition), maxAttempts), w, ps, maxAttempts);
  }

  lemma {:induction false} EndFrom(s: System, w: WorkflowId, ps: seq<Pass>, maxAttempts: nat)
    requires 1 <= maxAttempts && Inv(s, maxAttempts) && w in s.db.workflows && AllSpaced(s, ps, w, maxAttempts)
    requires |ps| >= Potential(s.db, w, maxAttempts)
    ensures var t := AfterPasses(s, ps, w, maxAttempts).db;
      w in t.workflows && t.workflows[w].state != InProgress
  {
    PassesLower(s, ps, w, maxAttempts);
    PotentialIsPositive(AfterPasses(s, ps, w, maxAttempts).db, w, maxAttempts);
  }
}
