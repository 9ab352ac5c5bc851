/** The resident worker (internal/worker/fanout.go): the admission ledger, and
    the poll loop interleaved with the exits of its task slots. */
module Fanout {
  type TaskId = nat

  datatype Spec = Spec(cpu: int, memory: int, gpu: int)

  function Fits(used: int, candidate: int, capacity: int, zeroUnconstrained: bool): bool {
    if capacity <= 0 then zeroUnconstrained || candidate <= 0 else used + candidate <= capacity
  }

  /** Unstated (zero) dimensions cost the configured default. */
  function Defaulted(s: Spec, def: Spec): Spec {
    Spec(if s.cpu == 0 then def.cpu else s.cpu,
         if s.memory == 0 then def.memory else s.memory,
         if s.gpu == 0 then def.gpu else s.gpu)
  }

  predicate Admissible(used: Spec, s: Spec, cap: Spec) {
    Fits(used.cpu, s.cpu, cap.cpu, true) && Fits(used.memory, s.memory, cap.memory, true) && Fits(used.gpu, s.gpu, cap.gpu, false)
  }

  /** No cpu or memory capacity constrains nothing, no gpu capacity admits no gpu;
      elsewhere what is outstanding and the candidate together fit. */
  predicate FitsBeside(sum: Spec, s: Spec, cap: Spec) {
    && (cap.cpu > 0 ==> sum.cpu + s.cpu <= cap.cpu)
    && (cap.memory > 0 ==> sum.memory + s.memory <= cap.memory)
    && (if cap.gpu > 0 then sum.gpu + s.gpu <= cap.gpu else s.gpu <= 0)
  }

  function Plus(a: Spec, b: Spec): Spec {
    Spec(a.cpu + b.cpu, a.memory + b.memory, a.gpu + b.gpu)
  }

  function Minus(a: Spec, b: Spec): Spec {
    Spec(a.cpu - b.cpu, a.memory - b.memory, a.gpu - b.gpu)
  }

  predicate AtLeast(s: Spec, floor: int) {
    floor <= s.cpu && floor <= s.memory && floor <= s.gpu
  }

  /** A constrained dimension stays within capacity; without a GPU none is used. */
  predicate UseWithin(used: Spec, cap: Spec) {
    && (cap.cpu > 0 ==> used.cpu <= cap.cpu)
    && (cap.memory > 0 ==> used.memory <= cap.memory)
    && (if cap.gpu > 0 then used.gpu <= cap.gpu else used.gpu <= 0)
  }

  function Sum(specs: seq<Spec>): Spec {
    if specs == [] then Spec(0, 0, 0) else Plus(specs[0], Sum(specs[1..]))
  }

  lemma {:induction false} SumConcat(a: seq<Spec>, b: seq<Spec>)
    ensures Sum(a + b) == Plus(Sum(a), Sum(b))
  {
    if a == [] {
      assert a + b == b;
    } else {
      assert (a + b)[1..] == a[1..] + b;
      SumConcat(a[1..], b);
    }
  }

  function Without(specs: seq<Spec>, i: nat): seq<Spec>
    requires i < |specs|
  {
    specs[..i] + specs[i + 1..]
  }

  lemma {:induction false} WithoutOne(specs: seq<Spec>, i: nat)
    requires i < |specs|
    ensures multiset(Without(specs, i)) == multiset(specs) - multiset{specs[i]}
    ensures forall s :: s in Without(specs, i) ==> s in specs
  {
    assert specs == specs[..i] + ([specs[i]] + specs[i + 1..]);
  }

  lemma {:induction false} SumWithout(specs: seq<Spec>, i: nat)
    requires i < |specs|
    ensures Sum(Without(specs, i)) == Minus(Sum(specs), specs[i])
  {
    assert specs == specs[..i] + ([specs[i]] + specs[i + 1..]);
    SumConcat(specs[..i], [specs[i]] + specs[i + 1..]);
    SumConcat(specs[..i], specs[i + 1..]);
    assert ([specs[i]] + specs[i + 1..])[1..] == specs[i + 1..];
  }

  /** What is outstanding, and with non-negative specs within capacity. */
  ghost predicate Accounted(used: Spec, cap: Spec, specs: seq<Spec>, modest: bool) {
    && used == Sum(specs)
    && (modest ==> UseWithin(used, cap) && forall s :: s in specs ==> AtLeast(s, 0))
  }

  lemma {:induction false} ReleaseIsAccounted(used: Spec, cap: Spec, specs: seq<Spec>, modest: bool, i: nat)
    requires Accounted(used, cap, specs, modest) && i < |specs|
    ensures Accounted(Minus(used, specs[i]), cap, Without(specs, i), modest)
    ensures multiset(Without(specs, i)) == multiset(specs) - multiset{specs[i]}
  {
    SumWithout(specs, i);
    WithoutOne(specs, i);
    assert specs[i] in specs;
  }

  /** The admission ledger. `outstanding` is what was admitted and not released,
      `modest` that nothing admitted so far had a negative dimension. */
  class Admitter {
    const cap: Spec
    var used: Spec
    ghost var outstanding: seq<Spec>
    ghost var modest: bool

    ghost predicate Valid()
      reads this
    {
      Accounted(used, cap, outstanding, modest)
    }

    constructor (cap: Spec)
      ensures Valid() && this.cap == cap && outstanding == [] && modest
    {
      this.cap := cap;
      used, outstanding, modest := Spec(0, 0, 0), [], true;
    }

    method TryAdmit(s: Spec) returns (ok: bool)
      requires Valid()
      modifies this
      ensures Valid() && modest == (old(modest) && (ok ==> AtLeast(s, 0)))
      ensures multiset(outstanding) == if ok then multiset(old(outstanding)) + multiset{s} else multiset(old(outstanding))
      ensures ok <==> Admissible(Sum(old(outstanding)), s, cap)
      ensures ok <==> FitsBeside(Sum(old(outstanding)), s, cap)
    {
      if !Fits(used.cpu, s.cpu, cap.cpu, true) || !Fits(used.memory, s.memory, cap.memory, true)
         || !Fits(used.gpu, s.gpu, cap.gpu, false) {
        return false;
      }
      used := Spec(used.cpu + s.cpu, used.memory + s.memory, used.gpu + s.gpu);
      SumConcat(outstanding, [s]);
      outstanding, modest := outstanding + [s], modest && AtLeast(s, 0);
      return true;
    }

    method Release(s: Spec)
      requires Valid() && s in outstanding
      modifies this
      ensures Valid() && modest == old(modest)
      ensures multiset(outstanding) == multiset(old(outstanding)) - multiset{s}
    {
      ghost var i :| 0 <= i < |outstanding| && outstanding[i] == s;
      ReleaseIsAccounted(used, cap, outstanding, modest, i);
      used := Spec(used.cpu - s.cpu, used.memory - s.memory, used.gpu - s.gpu);
      outstanding := Without(outstanding, i);
    }
  }

  // ---- the poll loop and its slots as a state machine ----

  /** A slot's goroutine: it works, then its deferred exit releases the ledger,
      frees the slot and leaves the inflight map, in that order. */
  datatype SlotPhase = Busy | LedgerReleased | SlotFreed

  datatype Slot = Slot(task: TaskId, spec: Spec, phase: SlotPhase)

  /** Where the poll loop stands with one candidate. */
  datatype PollPhase =
    | Polling
    | NotBusy(task: TaskId, spec: Spec)
    | Admitted(task: TaskId, spec: Spec)
    | Slotted(task: TaskId, spec: Spec)
    | Marked(task: TaskId, spec: Spec)

  datatype Worker = Worker(
    used: Spec,
    taken: int,
    inflight: set<TaskId>,
    cooldown: map<TaskId, int>,
    poll: PollPhase,
    slots: seq<Slot>)

  datatype Config = Config(cap: Spec, def: Spec, maxSlots: nat)

  datatype Action =
    | CheckBusy(task: TaskId, stated: Spec, now: int)
    | Admit
    | TakeSlot
    | Mark
    | Launch
    | ReleaseLedger(slot: nat)
    | FreeSlot(slot: nat)
    | LeaveInflight(slot: nat)
    | CoolDown(task: TaskId, until: int)

  function Init(): Worker {
    Worker(Spec(0, 0, 0), 0, {}, map[], Polling, [])
  }

  function SetPhase(w: Worker, i: nat, phase: SlotPhase): Worker
    requires i < |w.slots|
  {
    w.(slots := w.slots[i := w.slots[i].(phase := phase)])
  }

  /** One step; an action that is not possible changes nothing. */
  function Next(w: Worker, a: Action, c: Config): Worker {
    match a
    case CheckBusy(t, stated, now) =>
      if w.poll != Polling || t in w.inflight || (t in w.cooldown && now < w.cooldown[t]) then w
      else w.(poll := NotBusy(t, Defaulted(stated, c.def)))
    case Admit =>
      if !w.poll.NotBusy? then w
      else if Admissible(w.used, w.poll.spec, c.cap) then
        w.(used := Plus(w.used, w.poll.spec), poll := Admitted(w.poll.task, w.poll.spec))
      else w.(poll := Polling)
    case TakeSlot =>
      if !w.poll.Admitted? then w
      else if w.taken < c.maxSlots then w.(taken := w.taken + 1, poll := Slotted(w.poll.task, w.poll.spec))
      else w.(used := Minus(w.used, w.poll.spec), poll := Polling)
    case Mark =>
      if !w.poll.Slotted? then w
      else w.(inflight := w.inflight + {w.poll.task}, poll := Marked(w.poll.task, w.poll.spec))
    case Launch =>
      if !w.poll.Marked? then w
      else w.(slots := w.slots + [Slot(w.poll.task, w.poll.spec, Busy)], poll := Polling)
    case ReleaseLedger(i) =>
      if i >= |w.slots| || w.slots[i].phase != Busy then w
      else SetPhase(w, i, LedgerReleased).(used := Minus(w.used, w.slots[i].spec))
    case FreeSlot(i) =>
      if i >= |w.slots| || w.slots[i].phase != LedgerReleased then w
      else SetPhase(w, i, SlotFreed).(taken := w.taken - 1)
    case LeaveInflight(i) =>
      if i >= |w.slots| || w.slots[i].phase != SlotFreed then w
      else w.(inflight := w.inflight - {w.slots[i].task}, slots := w.slots[..i] + w.slots[i + 1..])
    case CoolDown(t, until) => w.(cooldown := w.cooldown[t := until])
  }

  function RunFrom(w: Worker, acts: seq<Action>, c: Config): Worker
    decreases |acts|
  {
    if acts == [] then w else RunFrom(Next(w, acts[0], c), acts[1..], c)
  }

  // ---- what is charged, held and in flight ----

  /** The four quantities the worker counts. */
  datatype Dimension = Cpu | Memory | Gpu | SlotCount

  function Cost(s: Spec, d: Dimension): int {
    match d
    case Cpu => s.cpu
    case Memory => s.memory
    case Gpu => s.gpu
    case SlotCount => 1
  }

  /** What one slot still holds of `d`. */
  function Share(s: Slot, d: Dimension): int {
    if s.phase == Busy || (d == SlotCount && s.phase == LedgerReleased) then Cost(s.spec, d) else 0
  }

  function Total(slots: seq<Slot>, d: Dimension): int {
    if slots == [] then 0 else Share(slots[0], d) + Total(slots[1..], d)
  }

  /** What the poll loop holds for the candidate in its hands. */
  function PollShare(p: PollPhase, d: Dimension): int {
    match p
    case Admitted(_, s) => if d == SlotCount then 0 else Cost(s, d)
    case Slotted(_, s) => Cost(s, d)
    case Marked(_, s) => Cost(s, d)
    case _ => 0
  }

  function Ledger(w: Worker, d: Dimension): int {
    if d == SlotCount then w.taken else Cost(w.used, d)
  }

  predicate OnSlot(slots: seq<Slot>, t: TaskId) {
    exists i :: 0 <= i < |slots| && slots[i].task == t
  }

  /** Each count is the sum of what was admitted and not yet released, and the
      inflight map is the set of tasks on a slot, no two slots on the same task. */
  ghost predicate Conserved(w: Worker) {
    && (forall d :: Ledger(w, d) == Total(w.slots, d) + PollShare(w.poll, d))
    && (forall t :: t in w.inflight <==> OnSlot(w.slots, t) || (w.poll.Marked? && w.poll.task == t))
    && (forall i, j :: 0 <= i < j < |w.slots| ==> w.slots[i].task != w.slots[j].task)
    && (!w.poll.Polling? ==> !OnSlot(w.slots, w.poll.task))
  }

  lemma {:induction false} TotalConcat(a: seq<Slot>, b: seq<Slot>, d: Dimension)
    ensures Total(a + b, d) == Total(a, d) + Total(b, d)
  {
    if a == [] {
      assert a + b == b;
    } else {
      assert (a + b)[1..] == a[1..] + b;
      TotalConcat(a[1..], b, d);
    }
  }

  lemma {:induction false} TotalWithout(slots: seq<Slot>, i: nat, d: Dimension)
    requires i < |slots|
    ensures Total(slots[..i] + slots[i + 1..], d) == Total(slots, d) - Share(slots[i], d)
  {
    assert slots == slots[..i] + ([slots[i]] + slots[i + 1..]);
    TotalConcat(slots[..i], [slots[i]] + slots[i + 1..], d);
    TotalConcat(slots[..i], slots[i + 1..], d);
    assert ([slots[i]] + slots[i + 1..])[1..] == slots[i + 1..];
  }

  lemma {:induction false} TotalUpdate(slots: seq<Slot>, i: nat, s: Slot, d: Dimension)
    requires i < |slots|
    ensures Total(slots[i := s], d) == Total(slots, d) - Share(slots[i], d) + Share(s, d)
  {
    TotalWithout(slots, i, d);
    TotalWithout(slots[i := s], i, d);
    assert slots[i := s][..i] + slots[i := s][i + 1..] == slots[..i] + slots[i + 1..];
  }

  lemma {:induction false} TotalAppend(slots: seq<Slot>, s: Slot, d: Dimension)
    ensures Total(slots + [s], d) == Total(slots, d) + Share(s, d)
  {
    TotalConcat(slots, [s], d);
  }

  lemma {:induction false} ExitConserves(w: Worker, a: Action, c: Config)
    requires Conserved(w) && (a.ReleaseLedger? || a.FreeSlot?)
    ensures Conserved(Next(w, a, c))
  {
    var w' := Next(w, a, c);
    if w' != w {
      forall d ensures Ledger(w', d) == Total(w'.slots, d) + PollShare(w'.poll, d) {
        TotalUpdate(w.slots, a.slot, w'.slots[a.slot], d);
      }
      forall t ensures OnSlot(w'.slots, t) <==> OnSlot(w.slots, t) {
        assert forall i :: 0 <= i < |w.slots| ==> w'.slots[i].task == w.slots[i].task;
      }
    }
  }

  lemma {:induction false} LeaveConserves(w: Worker, i: nat, c: Config)
    requires Conserved(w)
    ensures Conserved(Next(w, LeaveInflight(i), c))
  {
    var w' := Next(w, LeaveInflight(i), c);
    if w' != w {
      forall d ensures Ledger(w', d) == Total(w'.slots, d) + PollShare(w'.poll, d) {
        TotalWithout(w.slots, i, d);
      }
      var t0 := w.slots[i].task;
      assert OnSlot(w.slots, t0);
      forall t ensures OnSlot(w'.slots, t) <==> OnSlot(w.slots, t) && t != t0 {
        OthersStayOnSlot(w.slots, i, t);
      }
    }
  }

  lemma {:induction false} OthersStayOnSlot(slots: seq<Slot>, i: nat, t: TaskId)
    requires i < |slots| && forall j, k :: 0 <= j < k < |slots| ==> slots[j].task != slots[k].task
    ensures OnSlot(slots[..i] + slots[i + 1..], t) <==> OnSlot(slots, t) && t != slots[i].task
  {
    var less := slots[..i] + slots[i + 1..];
    if OnSlot(slots, t) && t != slots[i].task {
      var j :| 0 <= j < |slots| && slots[j].task == t;
      assert less[if j < i then j else j - 1].task == t;
    }
    if OnSlot(less, t) {
      var j :| 0 <= j < |less| && less[j].task == t;
      assert slots[if j < i then j else j + 1].task == t;
    }
  }

  lemma {:induction false} LaunchConserves(w: Worker, c: Config)
    requires Conserved(w)
    ensures Conserved(Next(w, Launch, c))
  {
    if w.poll.Marked? {
      var s := Slot(w.poll.task, w.poll.spec, Busy);
      var w' := Next(w, Launch, c);
      forall d ensures Ledger(w', d) == Total(w'.slots, d) + PollShare(w'.poll, d) {
        TotalAppend(w.slots, s, d);
      }
      forall t ensures OnSlot(w'.slots, t) <==> OnSlot(w.slots, t) || t == s.task {
        assert w'.slots[|w.slots|] == s;
        assert forall i :: 0 <= i < |w.slots| ==> w'.slots[i] == w.slots[i];
      }
    }
  }

  lemma {:induction false} NextConserves(w: Worker, a: Action, c: Config)
    requires Conserved(w)
    ensures Conserved(Next(w, a, c))
  {
    match a
    case ReleaseLedger(_) => ExitConserves(w, a, c);
    case FreeSlot(_) => ExitConserves(w, a, c);
    case LeaveInflight(i) => LeaveConserves(w, i, c);
    case Launch => LaunchConserves(w, c);
    case _ =>
  }

  lemma {:induction false} RunConserves(w: Worker, acts: seq<Action>, c: Config)
    requires Conserved(w)
    ensures Conserved(RunFrom(w, acts, c))
    decreases |acts|
  {
    if acts != [] {
      NextConserves(w, acts[0], c);
      RunConserves(Next(w, acts[0], c), acts[1..], c);
    }
  }

  // ---- capacity ----

  /** Every candidate of the run states dimensions of at least `floor`. */
  predicate StatesAtLeast(acts: seq<Action>, floor: int) {
    forall a :: a in acts && a.CheckBusy? ==> AtLeast(a.stated, floor)
  }

  predicate WithinCapacity(w: Worker, c: Config) {
    UseWithin(w.used, c.cap) && w.taken <= c.maxSlots
  }

  predicate Modest(w: Worker) {
    && (forall s :: s in w.slots ==> AtLeast(s.spec, 0))
    && (!w.poll.Polling? ==> AtLeast(w.poll.spec, 0))
  }

  lemma {:induction false} NextWithin(w: Worker, a: Action, c: Config)
    requires Modest(w) && WithinCapacity(w, c) && AtLeast(c.def, 0)
    requires a.CheckBusy? ==> AtLeast(a.stated, 0)
    ensures Modest(Next(w, a, c)) && WithinCapacity(Next(w, a, c), c)
  {
    if (a.ReleaseLedger? || a.FreeSlot? || a.LeaveInflight?) && a.slot < |w.slots| {
      assert w.slots[a.slot] in w.slots;
    }
  }

  lemma {:induction false} RunWithin(w: Worker, acts: seq<Action>, c: Config)
    requires Modest(w) && WithinCapacity(w, c) && AtLeast(c.def, 0) && StatesAtLeast(acts, 0)
    ensures WithinCapacity(RunFrom(w, acts, c), c)
    decreases |acts|
  {
    if acts != [] {
      assert acts[0] in acts;
      assert forall a :: a in acts[1..] ==> a in acts;
      NextWithin(w, acts[0], c);
      RunWithin(Next(w, acts[0], c), acts[1..], c);
    }
  }

  /** In every run of the poll loop and the slot exits: use is exactly what was
      admitted and not released, no task is on two slots, and with non-negative
      specs no bound is ever exceeded. */
  lemma {:induction false} AdmissionConserves(acts: seq<Action>, c: Config)
    ensures var w := RunFrom(Init(), acts, c);
      && (forall d :: Ledger(w, d) == Total(w.slots, d) + PollShare(w.poll, d))
      && (forall i, j :: 0 <= i < j < |w.slots| ==> w.slots[i].task != w.slots[j].task)
      && (forall i :: 0 <= i < |w.slots| ==> w.slots[i].task in w.inflight)
      && (StatesAtLeast(acts, 0) && AtLeast(c.def, 0) ==> WithinCapacity(w, c))
  {
    RunConserves(Init(), acts, c);
    if StatesAtLeast(acts, 0) && AtLeast(c.def, 0) { RunWithin(Init(), acts, c); }
    var w := RunFrom(Init(), acts, c);
    assert forall i :: 0 <= i < |w.slots| ==> OnSlot(w.slots, w.slots[i].task);
  }

  /** A slot's exit gives back everything the launch took: the charge, the slot and
      the place in the inflight map, so that the task may be taken again. */
  lemma {:induction false} ExitFreesEverything(w: Worker, i: nat, c: Config)
    requires Conserved(w) && i < |w.slots| && w.slots[i].phase == Busy
    ensures var s, w' := w.slots[i], RunFrom(w, [ReleaseLedger(i), FreeSlot(i), LeaveInflight(i)], c);
      && w'.slots == w.slots[..i] + w.slots[i + 1..] && w'.inflight == w.inflight - {s.task} && w'.poll == w.poll
      && w'.taken == w.taken - 1 && w'.cooldown == w.cooldown
      && w'.used == Spec(w.used.cpu - s.spec.cpu, w.used.memory - s.spec.memory, w.used.gpu - s.spec.gpu)
  {
    var acts := [ReleaseLedger(i), FreeSlot(i), LeaveInflight(i)];
    RunOfThree(w, acts[0], acts[1], acts[2], c);
    var w2 := Next(Next(w, acts[0], c), acts[1], c);
    assert w2.slots[..i] == w.slots[..i] && w2.slots[i + 1..] == w.slots[i + 1..];
  }

  // ---- what a task is charged, and when it is taken ----

  /** A stated dimension as stated, an unstated one at the default. */
  predicate Charges(stated: Spec, def: Spec, spec: Spec) {
    && spec.cpu == (if stated.cpu != 0 then stated.cpu else def.cpu)
    && spec.memory == (if stated.memory != 0 then stated.memory else def.memory)
    && spec.gpu == (if stated.gpu != 0 then stated.gpu else def.gpu)
  }

  /** Some candidate of the run was task `t`, and `spec` is what it is charged. */
  ghost predicate ChargedIn(acts: seq<Action>, def: Spec, t: TaskId, spec: Spec) {
    exists a :: a in acts && a.CheckBusy? && a.task == t && Charges(a.stated, def, spec)
  }

  ghost predicate AllCharged(w: Worker, acts: seq<Action>, def: Spec) {
    && (forall s :: s in w.slots ==> ChargedIn(acts, def, s.task, s.spec))
    && (!w.poll.Polling? ==> ChargedIn(acts, def, w.poll.task, w.poll.spec))
  }

  lemma {:induction false} MoreCharged(acts: seq<Action>, a: Action, def: Spec, t: TaskId, spec: Spec)
    requires ChargedIn(acts, def, t, spec)
    ensures ChargedIn(acts + [a], def, t, spec)
  {
    var b :| b in acts && b.CheckBusy? && b.task == t && Charges(b.stated, def, spec);
    assert b in acts + [a];
  }

  lemma {:induction false} NextCharges(w: Worker, acts: seq<Action>, a: Action, c: Config)
    requires AllCharged(w, acts, c.def)
    ensures AllCharged(Next(w, a, c), acts + [a], c.def)
  {
    var w' := Next(w, a, c);
    assert a in acts + [a];
    forall s | s in w'.slots ensures ChargedIn(acts + [a], c.def, s.task, s.spec) {
      if was :| was in w.slots && was.task == s.task && was.spec == s.spec {
        MoreCharged(acts, a, c.def, s.task, s.spec);
      } else {
        MoreCharged(acts, a, c.def, s.task, s.spec);
      }
    }
    if !w'.poll.Polling? && !a.CheckBusy? { MoreCharged(acts, a, c.def, w'.poll.task, w'.poll.spec); }
    if a.CheckBusy? && !w.poll.Polling? { MoreCharged(acts, a, c.def, w.poll.task, w.poll.spec); }
  }

  /** In every run each task on a slot is charged, dimension by dimension, what one
      of its candidates stated, or the default where that stated nothing. */
  lemma {:induction false} ChargedAsStated(w: Worker, before: seq<Action>, acts: seq<Action>, c: Config)
    requires AllCharged(w, before, c.def)
    ensures AllCharged(RunFrom(w, acts, c), before + acts, c.def)
    decreases |acts|
  {
    if acts == [] {
      assert before + acts == before;
    } else {
      NextCharges(w, before, acts[0], c);
      ChargedAsStated(Next(w, acts[0], c), before + [acts[0]], acts[1..], c);
      assert before + [acts[0]] + acts[1..] == before + acts;
    }
  }

  /** A candidate goes on to admission exactly when the loop is free for it, no slot
      is on the task, and its cooldown is over; it is admitted exactly when it fits
      beside what is charged. */
  lemma {:induction false} TakenExactly(w: Worker, t: TaskId, stated: Spec, now: int, c: Config)
    ensures var w' := Next(w, CheckBusy(t, stated, now), c);
      w' != w <==> w.poll.Polling? && t !in w.inflight && (t in w.cooldown ==> w.cooldown[t] <= now)
    ensures w.poll.NotBusy? ==>
      var w' := Next(w, Admit, c);
      && (w'.poll.Admitted? <==> FitsBeside(w.used, w.poll.spec, c.cap))
      && w'.used == (if FitsBeside(w.used, w.poll.spec, c.cap) then Plus(w.used, w.poll.spec) else w.used)
  {
  }

  /** A task that failed before its claim is not taken again before its cooldown is
      over, whatever happens in between, unless that sets an earlier end. */
  lemma {:induction false} CooldownHolds(w: Worker, t: TaskId, until: int, acts: seq<Action>, stated: Spec, now: int, c: Config)
    requires forall a :: a in acts && a.CoolDown? && a.task == t ==> a.until >= until
    requires now < until
    ensures var v := RunFrom(Next(w, CoolDown(t, until), c), acts, c); Next(v, CheckBusy(t, stated, now), c) == v
  {
    StaysCooling(Next(w, CoolDown(t, until), c), t, until, acts, c);
  }

  lemma {:induction false} StaysCooling(w: Worker, t: TaskId, until: int, acts: seq<Action>, c: Config)
    requires t in w.cooldown && w.cooldown[t] >= until
    requires forall a :: a in acts && a.CoolDown? && a.task == t ==> a.until >= until
    ensures t in RunFrom(w, acts, c).cooldown && RunFrom(w, acts, c).cooldown[t] >= until
    decreases |acts|
  {
    if acts != [] {
      assert acts[0] in acts;
      assert forall a :: a in acts[1..] ==> a in acts;
      StaysCooling(Next(w, acts[0], c), t, until, acts[1..], c);
    }
  }

  // ---- negative specs ----

  predicate Constrained(cap: Spec) {
    cap.cpu > 0 || cap.memory > 0 || cap.gpu > 0
  }

  /** Negative in every dimension but a constrained one, where it takes all that
      a first negative spec seemed to free. */
  function Greedy(floor: int, cap: Spec): Spec {
    if cap.cpu > 0 then Spec(cap.cpu - floor, floor, floor)
    else if cap.memory > 0 then Spec(floor, cap.memory - floor, floor)
    else Spec(floor, floor, cap.gpu - floor)
  }

  /** A task at a negative cost is launched; another is admitted against what it
      freed; then the first one's exit takes the credit back. */
  function OverdrawnRun(floor: int, cap: Spec): seq<Action> {
    [CheckBusy(1, Spec(floor, floor, floor), 0), Admit, TakeSlot, Mark, Launch,
     CheckBusy(2, Greedy(floor, cap), 0), Admit, ReleaseLedger(0)]
  }

  lemma {:induction false} RunConcat(w: Worker, a: seq<Action>, b: seq<Action>, c: Config)
    ensures RunFrom(w, a + b, c) == RunFrom(RunFrom(w, a, c), b, c)
    decreases |a|
  {
    if a == [] {
      assert a + b == b;
    } else {
      assert (a + b)[0] == a[0] && (a + b)[1..] == a[1..] + b;
      RunConcat(Next(w, a[0], c), a[1..], b, c);
    }
  }

  lemma {:induction false} RunOfTwo(w: Worker, a: Action, b: Action, c: Config)
    ensures RunFrom(w, [a, b], c) == Next(Next(w, a, c), b, c)
  {
    assert [a, b][1..] == [b];
    assert RunFrom(Next(w, a, c), [b], c) == Next(Next(w, a, c), b, c);
  }

  lemma {:induction false} RunOfThree(w: Worker, a: Action, b: Action, d: Action, c: Config)
    ensures RunFrom(w, [a, b, d], c) == Next(Next(Next(w, a, c), b, c), d, c)
  {
    assert [a, b, d][1..] == [b, d];
    RunOfTwo(Next(w, a, c), b, d, c);
  }

  /** The first task on its slot, its negative cost charged. */
  function Credited(floor: int): Worker {
    var s := Spec(floor, floor, floor);
    Worker(s, 1, {1}, map[], Polling, [Slot(1, s, Busy)])
  }

  lemma {:induction false} NegativeIsLaunched(floor: int, c: Config)
    requires floor < 0 && 1 <= c.maxSlots
    ensures RunFrom(Init(), OverdrawnRun(floor, c.cap)[..5], c) == Credited(floor)
  {
    var s := Spec(floor, floor, floor);
    var w3 := Worker(s, 1, {}, map[], Slotted(1, s), []);
    RunOfThree(Init(), CheckBusy(1, s, 0), Admit, TakeSlot, c);
    assert RunFrom(Init(), [CheckBusy(1, s, 0), Admit, TakeSlot], c) == w3;
    RunOfTwo(w3, Mark, Launch, c);
    RunConcat(Init(), [CheckBusy(1, s, 0), Admit, TakeSlot], [Mark, Launch], c);
    assert OverdrawnRun(floor, c.cap)[..5] == [CheckBusy(1, s, 0), Admit, TakeSlot] + [Mark, Launch];
  }

  lemma {:induction false} CreditIsSpent(floor: int, c: Config)
    requires floor < 0 && Constrained(c.cap)
    ensures RunFrom(Credited(floor), OverdrawnRun(floor, c.cap)[5..], c).used == Greedy(floor, c.cap)
  {
    var g := Greedy(floor, c.cap);
    assert OverdrawnRun(floor, c.cap)[5..] == [CheckBusy(2, g, 0), Admit, ReleaseLedger(0)];
    RunOfThree(Credited(floor), CheckBusy(2, g, 0), Admit, ReleaseLedger(0), c);
  }

  lemma {:induction false} OverdrawnStates(floor: int, cap: Spec)
    requires floor < 0 && Constrained(cap)
    ensures StatesAtLeast(OverdrawnRun(floor, cap), floor)
  {
    var acts := OverdrawnRun(floor, cap);
    forall a | a in acts && a.CheckBusy? ensures AtLeast(a.stated, floor) {
      var i :| 0 <= i < |acts| && acts[i] == a;
      assert i == 0 || i == 5;
    }
  }

  lemma {:induction false} NegativeCostOverdraws(floor: int, c: Config)
    requires floor < 0 && 1 <= c.maxSlots && Constrained(c.cap)
    ensures StatesAtLeast(OverdrawnRun(floor, c.cap), floor)
    ensures !WithinCapacity(RunFrom(Init(), OverdrawnRun(floor, c.cap), c), c)
  {
    var acts := OverdrawnRun(floor, c.cap);
    OverdrawnStates(floor, c.cap);
    NegativeIsLaunched(floor, c);
    CreditIsSpent(floor, c);
    RunConcat(Init(), acts[..5], acts[5..], c);
    assert acts == acts[..5] + acts[5..];
  }

  /** Without any capacity to exceed, all that is admitted uses no GPU. */
  ghost predicate NoGpu(w: Worker) {
    && (forall s :: s in w.slots ==> s.spec.gpu <= 0)
    && (w.poll.Admitted? || w.poll.Slotted? || w.poll.Marked? ==> w.poll.spec.gpu <= 0)
  }

  lemma {:induction false} NoGpuTotal(slots: seq<Slot>)
    requires forall s :: s in slots ==> s.spec.gpu <= 0
    ensures Total(slots, Gpu) <= 0
  {
    if slots != [] { NoGpuTotal(slots[1..]); }
  }

  lemma {:induction false} NextNoGpu(w: Worker, a: Action, c: Config)
    requires NoGpu(w) && w.taken <= c.maxSlots && c.cap.gpu <= 0
    ensures NoGpu(Next(w, a, c)) && Next(w, a, c).taken <= c.maxSlots
  {
    if (a.ReleaseLedger? || a.FreeSlot? || a.LeaveInflight?) && a.slot < |w.slots| {
      assert w.slots[a.slot] in w.slots;
    }
  }

  lemma {:induction false} RunNoGpu(w: Worker, acts: seq<Action>, c: Config)
    requires NoGpu(w) && w.taken <= c.maxSlots && c.cap.gpu <= 0
    ensures NoGpu(RunFrom(w, acts, c)) && RunFrom(w, acts, c).taken <= c.maxSlots
    decreases |acts|
  {
    if acts != [] {
      NextNoGpu(w, acts[0], c);
      RunNoGpu(Next(w, acts[0], c), acts[1..], c);
    }
  }

  lemma {:induction false} UnconstrainedWithin(acts: seq<Action>, c: Config)
    requires !Constrained(c.cap)
    ensures WithinCapacity(RunFrom(Init(), acts, c), c)
  {
    var w := RunFrom(Init(), acts, c);
    RunConserves(Init(), acts, c);
    RunNoGpu(Init(), acts, c);
    NoGpuTotal(w.slots);
    assert Ledger(w, Gpu) == Total(w.slots, Gpu) + PollShare(w.poll, Gpu);
  }

  /** If tasks may state anything from `floor` up, capacity holds in every run,
      whatever the slots and the default, exactly when `floor` is not negative or
      no capacity is configured. */
  lemma {:induction false} CapacityHoldsExactlyFromZero(floor: int, c: Config)
    requires 1 <= c.maxSlots && AtLeast(c.def, 0)
    ensures 0 <= floor || !Constrained(c.cap) <==>
      forall acts: seq<Action> :: StatesAtLeast(acts, floor) ==> WithinCapacity(RunFrom(Init(), acts, c), c)
  {
    if 0 <= floor || !Constrained(c.cap) {
      forall acts: seq<Action> | StatesAtLeast(acts, floor) ensures WithinCapacity(RunFrom(Init(), acts, c), c) {
        if 0 <= floor { RunWithin(Init(), acts, c); } else { UnconstrainedWithin(acts, c); }
      }
    } else {
      NegativeCostOverdraws(floor, c);
    }
  }
}
