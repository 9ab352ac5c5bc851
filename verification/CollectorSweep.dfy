/** One pass with nothing in between: what `Sweep` reports and leaves behind, and
    that it is the uninterrupted pass of the interleaved model. */
module CollectorSweep {
  import opened Common
  import opened Collector

  datatype Fate = Referenced | Candidate | Reclaimed

  function Stamp(w: World, d: Digest): int {
    if d in w.ledger then w.ledger[d] else w.now
  }

  /** What a pass that begins at `w` does with a listed object, when its rechecks
      find the reference tables as in `since`. */
  function FateOf(w: World, since: Tables, d: Digest, grace: int): Fate {
    if d in Refs(w.tables) then Referenced
    else if w.now - Stamp(w, d) < grace then Candidate
    else if d in Seen(since, w.tables.urlMap.Some?) then Referenced
    else Reclaimed
  }

  function WithFate(w: World, since: Tables, visited: set<Digest>, fate: Fate, grace: int): set<Digest> {
    set d | d in visited && FateOf(w, since, d, grace) == fate
  }

  /** The store and the ledger once the objects in `visited` have been dealt with:
      a row stays if its object was not listed, or is still a candidate. */
  function SweptStore(w: World, since: Tables, visited: set<Digest>, grace: int): set<Digest> {
    w.store - WithFate(w, since, visited, Reclaimed, grace)
  }

  function SweptLedger(w: World, since: Tables, visited: set<Digest>, grace: int): map<Digest, int> {
    map d | d in w.ledger.Keys + visited && (d in visited ==> FateOf(w, since, d, grace) == Candidate) :: Stamp(w, d)
  }

  function Swept(w: World, since: Tables, visited: set<Digest>, grace: int): World {
    w.(store := SweptStore(w, since, visited, grace), ledger := SweptLedger(w, since, visited, grace))
  }

  datatype Report = Report(objects: nat, referenced: nat, candidates: nat, swept: nat)

  function ReportOf(w: World, since: Tables, visited: set<Digest>, grace: int): Report {
    Report(|visited|, |WithFate(w, since, visited, Referenced, grace)|, |WithFate(w, since, visited, Candidate, grace)|,
      |WithFate(w, since, visited, Reclaimed, grace)|)
  }

  function Tally(r: Report, fate: Fate): Report {
    match fate
    case Referenced => r.(objects := r.objects + 1, referenced := r.referenced + 1)
    case Candidate => r.(objects := r.objects + 1, candidates := r.candidates + 1)
    case Reclaimed => r.(objects := r.objects + 1, swept := r.swept + 1)
  }

  /** Every object listed is counted once: referenced, candidate or swept. */
  lemma {:induction false} ReportAddsUp(w: World, since: Tables, visited: set<Digest>, grace: int)
    ensures var r := ReportOf(w, since, visited, grace); r.objects == r.referenced + r.candidates + r.swept
  {
    var a, b, c := WithFate(w, since, visited, Referenced, grace), WithFate(w, since, visited, Candidate, grace), WithFate(w, since, visited, Reclaimed, grace);
    assert visited == a + b + c;
    assert a !! b && (a + b) !! c;
  }

  lemma {:induction false} FateOneMore(w: World, since: Tables, visited: set<Digest>, d: Digest, fate: Fate, grace: int)
    requires d !in visited
    ensures WithFate(w, since, visited + {d}, fate, grace)
      == WithFate(w, since, visited, fate, grace) + if FateOf(w, since, d, grace) == fate then {d} else {}
    ensures d !in WithFate(w, since, visited, fate, grace)
  {
  }

  lemma {:induction false} CountOneMore(w: World, since: Tables, visited: set<Digest>, d: Digest, fate: Fate, grace: int)
    requires d !in visited
    ensures |WithFate(w, since, visited + {d}, fate, grace)|
      == |WithFate(w, since, visited, fate, grace)| + if FateOf(w, since, d, grace) == fate then 1 else 0
  {
    FateOneMore(w, since, visited, d, fate, grace);
  }

  lemma {:induction false} ReportOneMore(w: World, since: Tables, visited: set<Digest>, d: Digest, grace: int)
    requires d !in visited
    ensures ReportOf(w, since, visited + {d}, grace) == Tally(ReportOf(w, since, visited, grace), FateOf(w, since, d, grace))
  {
    CountOneMore(w, since, visited, d, Referenced, grace);
    CountOneMore(w, since, visited, d, Candidate, grace);
    CountOneMore(w, since, visited, d, Reclaimed, grace);
    assert |visited + {d}| == |visited| + 1;
  }

  lemma {:induction false} StoreOneMore(w: World, since: Tables, visited: set<Digest>, d: Digest, grace: int)
    requires d in w.store && d !in visited
    ensures d in SweptStore(w, since, visited, grace)
    ensures SweptStore(w, since, visited + {d}, grace)
      == SweptStore(w, since, visited, grace) - if FateOf(w, since, d, grace) == Reclaimed then {d} else {}
  {
    FateOneMore(w, since, visited, d, Reclaimed, grace);
  }

  lemma {:induction false} LedgerOneMore(w: World, since: Tables, visited: set<Digest>, d: Digest, grace: int)
    requires d !in visited
    ensures var l := SweptLedger(w, since, visited, grace);
      && (d in l <==> d in w.ledger) && (d in l ==> l[d] == Stamp(w, d))
      && SweptLedger(w, since, visited + {d}, grace)
         == if FateOf(w, since, d, grace) == Candidate then l[d := Stamp(w, d)] else l - {d}
  {
  }

  lemma {:induction false} NothingSwept(w: World, since: Tables, grace: int)
    ensures Swept(w, since, {}, grace) == w && ReportOf(w, since, {}, grace) == Report(0, 0, 0, 0)
  {
    assert SweptStore(w, since, {}, grace) == w.store;
    assert SweptLedger(w, since, {}, grace) == w.ledger;
    assert forall f :: WithFate(w, since, {}, f, grace) == {};
  }

  // ---- the same pass, step by step ----

  /** Visit one object and run its statements out; a statement the object does
      not need is a step that changes nothing. */
  function VisitActs(d: Digest): seq<Act> {
    [Visit(d), Proceed, Proceed, Proceed, Proceed, Proceed]
  }

  function ListingActs(order: seq<Digest>): seq<Act> {
    if order == [] then [] else VisitActs(order[0]) + ListingActs(order[1..])
  }

  /** A pass that began at `w` has dealt with `visited` and stands at the listing. */
  ghost predicate Midway(w: World, since: Tables, v: World, visited: set<Digest>, grace: int) {
    && v == Swept(w, since, visited, grace).(tables := since, pass := v.pass)
    && v.pass.phase == Listing && v.pass.mark == Refs(w.tables) && v.pass.hasMap == w.tables.urlMap.Some?
    && v.pass.due == w.store - visited && v.pass.visited == visited <= w.store
  }

  lemma {:induction false} SixSteps(v: World, d: Digest, grace: int)
    ensures Run(v, VisitActs(d), grace)
      == Advance(Advance(Advance(Advance(Advance(Next(v, Visit(d), grace), grace), grace), grace), grace), grace)
  {
    var v1 := Next(v, Visit(d), grace);
    var v2 := Advance(v1, grace);
    var v3 := Advance(v2, grace);
    var v4 := Advance(v3, grace);
    var v5 := Advance(v4, grace);
    PathIsRun([v, v1, v2, v3, v4, v5, Advance(v5, grace)], VisitActs(d), grace);
  }

  function FateIn(v: World, d: Digest, grace: int): Fate {
    if d in v.pass.mark then Referenced
    else if v.now - Stamp(v, d) < grace then Candidate
    else if d in Seen(v.tables, v.pass.hasMap) then Referenced
    else Reclaimed
  }

  /** What one object's statements do to the store and the ledger. */
  function Dealt(v: World, d: Digest, grace: int): World {
    match FateIn(v, d, grace)
    case Referenced => v.(ledger := v.ledger - {d})
    case Candidate => v.(ledger := v.ledger[d := Stamp(v, d)])
    case Reclaimed => v.(store := v.store - {d}, ledger := v.ledger - {d})
  }

  lemma {:induction false} VisitDeals(v: World, d: Digest, grace: int)
    requires v.pass.phase == Listing && d in v.store && d !in v.pass.visited
    ensures Run(v, VisitActs(d), grace) == Dealt(v, d, grace).(pass := v.pass.(due := v.pass.due - {d}, visited := v.pass.visited + {d}))
  {
    SixSteps(v, d, grace);
    var v1 := Next(v, Visit(d), grace);
    if d !in v.pass.mark {
      var v2 := Advance(v1, grace);
      assert v2.pass.phase == Reading(d) && v2.ledger == v.ledger[d := Stamp(v, d)];
      assert v2.ledger - {d} == v.ledger - {d};
      assert d in v.ledger ==> v.ledger[d := v.ledger[d]] == v.ledger;
    }
  }

  lemma {:induction false} DealtIsSwept(w: World, since: Tables, v: World, visited: set<Digest>, d: Digest, grace: int)
    requires v.tables == since && v.now == w.now && v.pass.mark == Refs(w.tables) && v.pass.hasMap == w.tables.urlMap.Some?
    requires v.store == SweptStore(w, since, visited, grace) && v.ledger == SweptLedger(w, since, visited, grace)
    requires d in w.store && d !in visited
    ensures FateIn(v, d, grace) == FateOf(w, since, d, grace)
    ensures Dealt(v, d, grace).store == SweptStore(w, since, visited + {d}, grace)
    ensures Dealt(v, d, grace).ledger == SweptLedger(w, since, visited + {d}, grace)
  {
    StoreOneMore(w, since, visited, d, grace);
    LedgerOneMore(w, since, visited, d, grace);
    assert Stamp(v, d) == Stamp(w, d);
  }

  lemma {:induction false} VisitDealsWith(w: World, since: Tables, v: World, visited: set<Digest>, d: Digest, grace: int)
    requires Midway(w, since, v, visited, grace) && d in w.store && d !in visited
    ensures Midway(w, since, Run(v, VisitActs(d), grace), visited + {d}, grace)
  {
    StoreOneMore(w, since, visited, d, grace);
    VisitDeals(v, d, grace);
    DealtIsSwept(w, since, v, visited, d, grace);
  }

  predicate Distinct(order: seq<Digest>) {
    forall i, j :: 0 <= i < j < |order| ==> order[i] != order[j]
  }

  function SetOf(order: seq<Digest>): set<Digest> {
    set d | d in order
  }

  lemma {:induction false} ListingDealsWith(w: World, since: Tables, v: World, visited: set<Digest>, order: seq<Digest>, grace: int)
    requires Midway(w, since, v, visited, grace) && Distinct(order) && SetOf(order) == w.store - visited
    ensures Midway(w, since, Run(v, ListingActs(order), grace), w.store, grace)
    decreases |order|
  {
    if order == [] {
      assert SetOf(order) == {};
      assert w.store <= visited by {
        forall d | d in w.store ensures d in visited { assert d !in SetOf(order); }
      }
    } else {
      var d := order[0];
      assert d in SetOf(order) && d !in order[1..];
      assert order == [d] + order[1..];
      assert SetOf(order) == {d} + SetOf(order[1..]);
      VisitDealsWith(w, since, v, visited, d, grace);
      assert SetOf(order[1..]) == w.store - (visited + {d});
      ListingDealsWith(w, since, Run(v, VisitActs(d), grace), visited + {d}, order[1..], grace);
      RunConcat(v, VisitActs(d), ListingActs(order[1..]), grace);
    }
  }

  /** A pass during which nothing but one commit happens, whatever the listing
      order, deletes exactly the expired objects unreferenced at the mark and at
      the recheck, and leaves exactly the candidates' rows. */
  lemma {:induction false} UninterruptedPass(w: World, since: Tables, order: seq<Digest>, grace: int)
    requires w.pass.phase.Idle? && Distinct(order) && SetOf(order) == w.store
    ensures var w' := Run(w, [Start, Commit(since)] + ListingActs(order) + [Finish], grace);
      w'.pass.phase.Idle? && w' == Swept(w, since, w.store, grace).(tables := since, pass := w'.pass)
  {
    var v := Next(Next(w, Start, grace), Commit(since), grace);
    PassStarts(w, since, grace);
    PathIsRun([w, Next(w, Start, grace), v], [Start, Commit(since)], grace);
    ListingDealsWith(w, since, v, {}, order, grace);
    PassEnds(w, since, Run(v, ListingActs(order), grace), grace);
    RunConcat(w, [Start, Commit(since)], ListingActs(order), grace);
    RunConcat(w, [Start, Commit(since)] + ListingActs(order), [Finish], grace);
  }

  lemma {:induction false} PassStarts(w: World, since: Tables, grace: int)
    requires w.pass.phase.Idle?
    ensures Midway(w, since, Next(Next(w, Start, grace), Commit(since), grace), {}, grace)
  {
    NothingSwept(w, since, grace);
    assert w.store - {} == w.store;
  }

  lemma {:induction false} PassEnds(w: World, since: Tables, v: World, grace: int)
    requires Midway(w, since, v, w.store, grace)
    ensures var w' := Run(v, [Finish], grace);
      w'.pass.phase.Idle? && w' == Swept(w, since, w.store, grace).(tables := since, pass := w'.pass)
  {
    assert w.store - w.store == {};
    PathIsRun([v, Next(v, Finish, grace)], [Finish], grace);
  }

  // ---- the collector ----

  lemma SameSet(a: set<Digest>, b: set<Digest>)
    requires a <= b && b - a == {}
    ensures a == b
  {
    assert forall d :: d in b - a <==> d in b && d !in a;
  }

  ghost predicate SoFar(w: World, since: Tables, visited: set<Digest>, v: World, rep: Report, grace: int) {
    && v.tables == since && v.now == w.now && v.pass.mark == Refs(w.tables) && v.pass.hasMap == w.tables.urlMap.Some?
    && v.store == SweptStore(w, since, visited, grace) && v.ledger == SweptLedger(w, since, visited, grace)
    && rep == ReportOf(w, since, visited, grace)
  }

  lemma {:induction false} OneMore(w: World, since: Tables, visited: set<Digest>, v: World, rep: Report, d: Digest, v': World, grace: int)
    requires SoFar(w, since, visited, v, rep, grace) && d in w.store && d !in visited
    requires v' == v.(store := Dealt(v, d, grace).store, ledger := Dealt(v, d, grace).ledger)
    ensures SoFar(w, since, visited + {d}, v', Tally(rep, FateIn(v, d, grace)), grace)
  {
    DealtIsSwept(w, since, v, visited, d, grace);
    ReportOneMore(w, since, visited, d, grace);
  }

  /** Unreferenced when the pass began and younger than the grace. */
  ghost predicate Waits(w: World, d: Digest, grace: int) {
    !ReferencedBy(w.tables, d, true) && w.now - (if d in w.ledger then w.ledger[d] else w.now) < grace
  }

  /** Unreferenced when the pass began, no younger than the grace, and unreferenced
      by what the recheck can see. */
  ghost predicate Overdue(w: World, since: Tables, d: Digest, grace: int) {
    && !ReferencedBy(w.tables, d, true) && !ReferencedBy(since, d, w.tables.urlMap.Some?)
    && w.now - (if d in w.ledger then w.ledger[d] else w.now) >= grace
  }

  lemma {:induction false} SweptExactly(w: World, since: Tables, grace: int)
    ensures forall d :: d in SweptStore(w, since, w.store, grace) <==> d in w.store && !Overdue(w, since, d, grace)
    ensures forall d :: d in SweptLedger(w, since, w.store, grace) <==> if d in w.store then Waits(w, d, grace) else d in w.ledger
    ensures |WithFate(w, since, w.store, Reclaimed, grace)| == |w.store - SweptStore(w, since, w.store, grace)|
  {
    SeenExactly(w.tables, true);
    SeenExactly(since, w.tables.urlMap.Some?);
    assert w.store - SweptStore(w, since, w.store, grace) == WithFate(w, since, w.store, Reclaimed, grace);
  }

  class Gc {
    var hasElements: bool
    var hasSnapshots: bool
    var tables: Tables
    var store: set<Digest>
    var ledger: map<Digest, int>
    var now: int

    constructor (w: World, hasElements: bool, hasSnapshots: bool)
      ensures this.hasElements == hasElements && this.hasSnapshots == hasSnapshots
      ensures tables == w.tables && store == w.store && ledger == w.ledger && now == w.now
    {
      this.hasElements, this.hasSnapshots := hasElements, hasSnapshots;
      tables, store, ledger, now := w.tables, w.store, w.ledger, w.now;
    }

    ghost function AsWorld(): World
      reads this
    {
      World(tables, store, ledger, now, Pass(Idle, {}, false, {}, {}, 0))
    }

    /** Fails closed when a reference table is absent. */
    method MarkSet() returns (r: Result<(set<Digest>, bool), string>)
      ensures r.Ok? <==> hasElements && hasSnapshots
      ensures r.Ok? ==> r.value == (Refs(tables), tables.urlMap.Some?)
      ensures r.Ok? ==> forall d :: d in r.value.0 <==> ReferencedBy(tables, d, true)
    {
      SeenExactly(tables, true);
      if !hasElements { return Err("mp_element absent"); }
      if !hasSnapshots { return Err("mp_snapshot absent"); }
      var mark := tables.elements + SnapshotRefs(tables);
      if tables.urlMap.Some? { mark := mark + tables.urlMap.value; }
      assert mark == Refs(tables);
      r := Ok((mark, tables.urlMap.Some?));
    }

    /** The listing callback for one object, whose recheck finds the tables as in
        `since`. */
    method VisitObject(d: Digest, mark: set<Digest>, hasMap: bool, since: Tables, grace: int, rep: Report) returns (rep': Report)
      modifies `store, `ledger
      ensures var v := World(since, old(store), old(ledger), now, Pass(Listing, mark, hasMap, {}, {}, now));
        && store == Dealt(v, d, grace).store && ledger == Dealt(v, d, grace).ledger
        && rep' == Tally(rep, FateIn(v, d, grace))
    {
      rep' := rep.(objects := rep.objects + 1);
      if d in mark {
        ledger := ledger - {d};
        return rep'.(referenced := rep'.referenced + 1);
      }
      if d !in ledger { ledger := ledger[d := now]; }
      if now - ledger[d] < grace {
        return rep'.(candidates := rep'.candidates + 1);
      }
      if d in Seen(since, hasMap) {
        ledger := ledger - {d};
        return rep'.(referenced := rep'.referenced + 1);
      }
      store := store - {d};
      ledger := ledger - {d};
      rep' := rep'.(swept := rep'.swept + 1);
    }

    ghost function InPass(mark: set<Digest>, hasMap: bool, since: Tables): World
      reads this
    {
      World(since, store, ledger, now, Pass(Listing, mark, hasMap, {}, {}, now))
    }

    method VisitListed(d: Digest, mark: set<Digest>, hasMap: bool, since: Tables, grace: int, rep: Report, ghost w: World, ghost visited: set<Digest>)
      returns (rep': Report)
      requires SoFar(w, since, visited, InPass(mark, hasMap, since), rep, grace) && d in w.store && d !in visited
      modifies `store, `ledger
      ensures SoFar(w, since, visited + {d}, InPass(mark, hasMap, since), rep', grace)
    {
      ghost var v := InPass(mark, hasMap, since);
      rep' := VisitObject(d, mark, hasMap, since, grace, rep);
      OneMore(w, since, visited, v, rep, d, InPass(mark, hasMap, since), grace);
    }

    method SweepListed(mark: set<Digest>, hasMap: bool, since: Tables, grace: int, ghost w: World) returns (rep: Report)
      requires SoFar(w, since, {}, InPass(mark, hasMap, since), Report(0, 0, 0, 0), grace) && store == w.store
      modifies `store, `ledger
      ensures SoFar(w, since, w.store, InPass(mark, hasMap, since), rep, grace)
    {
      var listing := store;
      rep := Report(0, 0, 0, 0);
      ghost var visited := {};
      while listing != {}
        invariant listing == w.store - visited && visited <= w.store
        invariant SoFar(w, since, visited, InPass(mark, hasMap, since), rep, grace)
        decreases listing
      {
        var d :| d in listing;
        rep := VisitListed(d, mark, hasMap, since, grace, rep, w, visited);
        visited, listing := visited + {d}, listing - {d};
      }
      SameSet(visited, w.store);
    }

    /** One pass, whose rechecks find the tables as in `since`: exactly the expired
        objects that mark and recheck find unreferenced are deleted, exactly the
        candidates keep or gain a row, and the counters add up. */
    method Sweep(grace: int, since: Tables) returns (r: Result<Report, string>)
      modifies `store, `ledger
      ensures r.Ok? <==> hasElements && hasSnapshots
      ensures r.Err? ==> store == old(store) && ledger == old(ledger)
      ensures r.Ok? ==> store == SweptStore(old(AsWorld()), since, old(store), grace)
      ensures r.Ok? ==> ledger == SweptLedger(old(AsWorld()), since, old(store), grace)
      ensures r.Ok? ==> r.value == ReportOf(old(AsWorld()), since, old(store), grace)
      ensures r.Ok? ==> r.value.objects == r.value.referenced + r.value.candidates + r.value.swept
      ensures r.Ok? ==> r.value.objects == |old(store)| && r.value.swept == |old(store) - store|
      ensures r.Ok? ==> forall d :: d in store <==> d in old(store) && !Overdue(old(AsWorld()), since, d, grace)
      ensures r.Ok? ==> forall d :: d in ledger <==> if d in old(store) then Waits(old(AsWorld()), d, grace) else d in old(ledger)
      ensures r.Ok? ==> forall d :: d in ledger ==> ledger[d] == if d in old(ledger) then old(ledger)[d] else now
    {
      SweptExactly(AsWorld(), since, grace);
      var m := MarkSet();
      if m.Err? { return Err(m.error); }
      var (mark, hasMap) := m.value;
      ReportAddsUp(AsWorld(), since, store, grace);
      NothingSwept(AsWorld(), since, grace);
      var rep := SweepListed(mark, hasMap, since, grace, AsWorld());
      r := Ok(rep);
    }
  }
}
