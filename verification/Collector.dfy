/** The mark-sweep collector as the statements it issues, interleaved with
    writers, uploads, the clock and crashes (internal/gc/gc.go,
    internal/cas/cas.go). */
module Collector {
  import opened Common

  type Digest = string

  datatype Snapshot = Snapshot(manifest: Digest, source: Option<Digest>)

  /** The reference tables; migration_url_map may not exist. */
  datatype Tables = Tables(elements: set<Digest>, snapshots: set<Snapshot>, urlMap: Option<set<Digest>>)

  function SnapshotRefs(t: Tables): set<Digest> {
    (set s | s in t.snapshots :: s.manifest) + (set s | s in t.snapshots && s.source.Some? :: s.source.value)
  }

  /** What a query over the reference tables sees; the map's clause is part of it
      only when the pass found the table at its start. */
  function Seen(t: Tables, hasMap: bool): set<Digest> {
    t.elements + SnapshotRefs(t) + if hasMap && t.urlMap.Some? then t.urlMap.value else {}
  }

  function Refs(t: Tables): set<Digest> {
    Seen(t, true)
  }

  /** On the rows themselves: an element's digest, a snapshot's manifest or its
      verbatim source document, or an entry of the url map where `mapped`. */
  ghost predicate ReferencedBy(t: Tables, d: Digest, mapped: bool) {
    || d in t.elements
    || (exists s :: s in t.snapshots && s.manifest == d)
    || (exists s :: s in t.snapshots && s.source == Some(d))
    || (mapped && t.urlMap.Some? && d in t.urlMap.value)
  }

  /** Mark and recheck look at every kind of reference row. */
  lemma {:induction false} SeenExactly(t: Tables, hasMap: bool)
    ensures forall d :: d in Seen(t, hasMap) <==> ReferencedBy(t, d, hasMap)
    ensures forall d :: d in Refs(t) <==> ReferencedBy(t, d, true)
  {
    forall d, mapped ensures d in Seen(t, mapped) <==> ReferencedBy(t, d, mapped) {
      if s :| s in t.snapshots && s.source == Some(d) { assert s.source.value in SnapshotRefs(t); }
    }
  }

  /** Where the pass stands. The object named has been listed and not yet left. */
  datatype Phase =
    | Idle
    | Listing
    | Inserting(d: Digest)
    | Reading(d: Digest)
    | Rechecking(d: Digest)
    | Deleting(d: Digest)
    | Clearing(d: Digest)
    | Sparing(d: Digest)

  /** `due` is what the listing must still yield and `visited` what it has yielded,
      each key once; `began` is when the pass did. */
  datatype Pass = Pass(phase: Phase, mark: set<Digest>, hasMap: bool, due: set<Digest>, visited: set<Digest>, began: int)

  datatype World = World(tables: Tables, store: set<Digest>, ledger: map<Digest, int>, now: int, pass: Pass)

  datatype Act =
    | Tick(n: nat)
    | Commit(t: Tables)
    | Put(d: Digest)
    | Start
    | Visit(d: Digest)
    | Proceed
    | Finish
    | Crash

  predicate Expired(w: World, d: Digest, grace: int) {
    d in w.ledger && w.now - w.ledger[d] >= grace
  }

  function At(w: World, phase: Phase): World {
    w.(pass := w.pass.(phase := phase))
  }

  /** The next statement for the object in hand. */
  function Advance(w: World, grace: int): World {
    match w.pass.phase
    case Inserting(d) => At(if d in w.ledger then w else w.(ledger := w.ledger[d := w.now]), Reading(d))
    case Reading(d) => At(w, if Expired(w, d, grace) then Rechecking(d) else Listing)
    case Rechecking(d) => At(w, if d in Seen(w.tables, w.pass.hasMap) then Sparing(d) else Deleting(d))
    case Deleting(d) => At(w.(store := w.store - {d}), Clearing(d))
    case Clearing(d) => At(w.(ledger := w.ledger - {d}), Listing)
    case Sparing(d) => At(w.(ledger := w.ledger - {d}), Listing)
    case _ => w
  }

  /** One step of anyone; a step that is not possible changes nothing. */
  function Next(w: World, a: Act, grace: int): World {
    match a
    case Tick(n) => w.(now := w.now + n)
    case Commit(t) => w.(tables := t)
    case Put(d) => w.(store := w.store + {d})
    case Start =>
      if !w.pass.phase.Idle? then w
      else w.(pass := Pass(Listing, Refs(w.tables), w.tables.urlMap.Some?, w.store, {}, w.now))
    case Visit(d) =>
      if !w.pass.phase.Listing? || d !in w.store || d in w.pass.visited then w
      else
        var pass := w.pass.(due := w.pass.due - {d}, visited := w.pass.visited + {d});
        if d in pass.mark then w.(ledger := w.ledger - {d}, pass := pass)
        else w.(pass := pass.(phase := Inserting(d)))
    case Proceed => Advance(w, grace)
    case Finish => if w.pass.phase.Listing? && w.pass.due == {} then At(w, Idle) else w
    case Crash => At(w, Idle)
  }

  function Run(w: World, acts: seq<Act>, grace: int): World
    decreases |acts|
  {
    if acts == [] then w else Run(Next(w, acts[0], grace), acts[1..], grace)
  }

  /** What every run keeps: the object in hand is in the store, its row is there
      once it is read, and past the expiry check the row has expired. */
  ghost predicate Inv(w: World, grace: int) {
    && (forall d :: d in w.ledger ==> w.ledger[d] <= w.now)
    && w.pass.began <= w.now
    && match w.pass.phase
       case Inserting(d) => d in w.store
       case Reading(d) => d in w.store && d in w.ledger
       case Rechecking(d) => d in w.store && Expired(w, d, grace)
       case Deleting(d) => d in w.store && Expired(w, d, grace)
       case _ => true
  }

  lemma {:induction false} NextKeepsInv(w: World, a: Act, grace: int)
    requires Inv(w, grace)
    ensures Inv(Next(w, a, grace), grace)
  {
  }

  lemma {:induction false} RunKeepsInv(w: World, acts: seq<Act>, grace: int)
    requires Inv(w, grace)
    ensures Inv(Run(w, acts, grace), grace) && Run(w, acts, grace).now >= w.now
    decreases |acts|
  {
    if acts != [] {
      NextKeepsInv(w, acts[0], grace);
      RunKeepsInv(Next(w, acts[0], grace), acts[1..], grace);
    }
  }

  /** `ws` is the sequence of states a run goes through. */
  ghost predicate Path(ws: seq<World>, acts: seq<Act>, grace: int) {
    |ws| == |acts| + 1 && forall i :: 0 <= i < |acts| ==> Next(ws[i], acts[i], grace) == ws[i + 1]
  }

  lemma {:induction false} PathIsRun(ws: seq<World>, acts: seq<Act>, grace: int)
    requires Path(ws, acts, grace)
    ensures Run(ws[0], acts, grace) == ws[|acts|]
    decreases |acts|
  {
    if acts != [] {
      assert Next(ws[0], acts[0], grace) == ws[1];
      assert forall i :: 0 <= i < |acts[1..]| ==> acts[1..][i] == acts[i + 1] && ws[1..][i] == ws[i + 1];
      PathIsRun(ws[1..], acts[1..], grace);
    }
  }

  lemma {:induction false} RunConcat(w: World, a: seq<Act>, b: seq<Act>, grace: int)
    ensures Run(w, a + b, grace) == Run(Run(w, a, grace), b, grace)
    decreases |a|
  {
    if a == [] {
      assert a + b == b;
    } else {
      assert (a + b)[1..] == a[1..] + b;
      RunConcat(Next(w, a[0], grace), a[1..], b, grace);
    }
  }

  // ---- no dangling reference ----

  ghost predicate NoDangling(w: World) {
    Refs(w.tables) <= w.store
  }

  /** The object is in hand and its delete may still come. */
  predicate InHand(w: World, d: Digest) {
    match w.pass.phase
    case Inserting(e) => e == d
    case Reading(e) => e == d
    case Rechecking(e) => e == d
    case Deleting(e) => e == d
    case _ => false
  }

  /** What the pass in progress, looking at `t`, will not delete: a digest its
      recheck can see, or one it will not take in hand any more, because it was
      marked at the start or has been listed. */
  predicate Spared(w: World, t: Tables, d: Digest) {
    || w.pass.phase.Idle?
    || d in Seen(t, w.pass.hasMap)
    || ((d in w.pass.mark || d in w.pass.visited) && !InHand(w, d))
  }

  /** A referenced digest is stored, past no recheck, and spared. */
  ghost predicate Covered(w: World, t: Tables) {
    forall d :: d in Refs(t) ==> d in w.store && w.pass.phase != Deleting(d) && Spared(w, t, d)
  }

  predicate NoCommits(acts: seq<Act>) {
    forall a :: a in acts ==> !a.Commit?
  }

  lemma {:induction false} NextKeepsCovered(w: World, a: Act, grace: int)
    requires Inv(w, grace) && Covered(w, w.tables) && !a.Commit?
    ensures Covered(Next(w, a, grace), w.tables) && Next(w, a, grace).tables == w.tables
  {
    var w' := Next(w, a, grace);
    forall d | d in Refs(w.tables) ensures d in w'.store && w'.pass.phase != Deleting(d) && Spared(w', w.tables, d) {
      assert Spared(w, w.tables, d);
    }
  }

  lemma {:induction false} QuietRunKeepsCovered(w: World, acts: seq<Act>, grace: int)
    requires Inv(w, grace) && Covered(w, w.tables) && NoCommits(acts)
    ensures Covered(Run(w, acts, grace), w.tables) && Run(w, acts, grace).tables == w.tables
    decreases |acts|
  {
    if acts != [] {
      assert acts[0] in acts;
      NextKeepsInv(w, acts[0], grace);
      NextKeepsCovered(w, acts[0], grace);
      QuietRunKeepsCovered(Next(w, acts[0], grace), acts[1..], grace);
    }
  }

  /** The statements for one object in hand, with a wait that lets its row expire. */
  function Finishing(d: Digest, grace: int): seq<Act> {
    [Proceed, Tick(if grace > 0 then grace else 0), Proceed, Proceed, Proceed]
  }

  lemma {:induction false} InsertedIsDeleted(w: World, d: Digest, grace: int)
    requires Inv(w, grace) && w.pass.phase == Inserting(d) && d !in Seen(w.tables, w.pass.hasMap)
    ensures d !in Run(w, Finishing(d, grace), grace).store
  {
    var acts := Finishing(d, grace);
    var w1 := Next(w, acts[0], grace);
    var w2 := Next(w1, acts[1], grace);
    var w3 := Next(w2, acts[2], grace);
    var w4 := Next(w3, acts[3], grace);
    var w5 := Next(w4, acts[4], grace);
    assert w2.pass.phase == Reading(d) && Expired(w2, d, grace);
    assert w4.pass.phase == Deleting(d) && w5.pass.phase == Clearing(d);
    PathIsRun([w, w1, w2, w3, w4, w5], acts, grace);
  }

  lemma {:induction false} InHandIsDeleted(w: World, d: Digest, grace: int) returns (acts: seq<Act>)
    requires Inv(w, grace) && InHand(w, d) && d !in Seen(w.tables, w.pass.hasMap)
    ensures NoCommits(acts) && d !in Run(w, acts, grace).store
  {
    match w.pass.phase
    case Inserting(_) =>
      InsertedIsDeleted(w, d, grace);
      acts := Finishing(d, grace);
    case Reading(_) =>
      var w1 := Next(w, Tick(if grace > 0 then grace else 0), grace);
      var w2 := Next(w1, Proceed, grace);
      var w3 := Next(w2, Proceed, grace);
      var w4 := Next(w3, Proceed, grace);
      acts := [Tick(if grace > 0 then grace else 0), Proceed, Proceed, Proceed];
      assert Expired(w1, d, grace) && w3.pass.phase == Deleting(d) && w4.pass.phase == Clearing(d);
      PathIsRun([w, w1, w2, w3, w4], acts, grace);
    case Rechecking(_) =>
      var w1 := Next(w, Proceed, grace);
      var w2 := Next(w1, Proceed, grace);
      acts := [Proceed, Proceed];
      PathIsRun([w, w1, w2], acts, grace);
    case _ =>
      acts := [Proceed];
      PathIsRun([w, Next(w, Proceed, grace)], acts, grace);
  }

  /** From any phase the pass comes back to its listing, touching nothing but the
      object in hand. */
  lemma {:induction false} BackToListing(w: World, grace: int) returns (acts: seq<Act>)
    requires Inv(w, grace) && !w.pass.phase.Idle?
    ensures var v := Run(w, acts, grace);
      && NoCommits(acts) && Inv(v, grace) && v.tables == w.tables
      && v.pass == w.pass.(phase := Listing)
      && forall d :: d in w.store && !InHand(w, d) ==> d in v.store
    decreases match w.pass.phase
      case Inserting(_) => 5
      case Reading(_) => 4
      case Rechecking(_) => 3
      case Deleting(_) => 2
      case Clearing(_) => 1
      case Sparing(_) => 1
      case _ => 0
  {
    if w.pass.phase.Listing? {
      acts := [];
    } else {
      var w' := Next(w, Proceed, grace);
      NextKeepsInv(w, Proceed, grace);
      var rest := BackToListing(w', grace);
      acts := [Proceed] + rest;
      assert acts[1..] == rest;
    }
  }

  lemma {:induction false} UnsparedIsDeleted(w: World, d: Digest, grace: int) returns (acts: seq<Act>)
    requires Inv(w, grace) && d in w.store && !Spared(w, w.tables, d)
    ensures NoCommits(acts) && d !in Run(w, acts, grace).store
  {
    if InHand(w, d) {
      acts := InHandIsDeleted(w, d, grace);
    } else {
      var back := BackToListing(w, grace);
      var v := Run(w, back, grace);
      var v1 := Next(v, Visit(d), grace);
      NextKeepsInv(v, Visit(d), grace);
      assert v1.pass.phase == Inserting(d);
      InsertedIsDeleted(v1, d, grace);
      var rest := [Visit(d)] + Finishing(d, grace);
      assert rest[1..] == Finishing(d, grace);
      RunConcat(w, back, rest, grace);
      acts := back + rest;
    }
  }

  /** The residual window, exactly, for any commit: whatever the collector does
      next nothing the commit references is lost, if and only if each digest it
      references is stored, does not stand between its recheck and its delete,
      and is visible to the pass in progress or not to be listed by it again. */
  lemma {:induction false} CommitIsSafeExactly(w: World, t: Tables, grace: int)
    requires Inv(w, grace)
    ensures (forall acts :: NoCommits(acts) ==> NoDangling(Run(Next(w, Commit(t), grace), acts, grace))) <==> Covered(w, t)
  {
    var w' := Next(w, Commit(t), grace);
    NextKeepsInv(w, Commit(t), grace);
    if Covered(w, t) {
      assert Covered(w', t) by { SameCover(w, w', t); }
      forall acts | NoCommits(acts) ensures NoDangling(Run(w', acts, grace)) {
        QuietRunKeepsCovered(w', acts, grace);
      }
    } else {
      var d :| d in Refs(t) && !(d in w.store && w.pass.phase != Deleting(d) && Spared(w, t, d));
      UncoveredDangles(w', d, grace);
    }
  }

  lemma {:induction false} SameCover(w: World, w': World, t: Tables)
    requires w' == w.(tables := t) && Covered(w, t)
    ensures Covered(w', t)
  {
    forall d | d in Refs(t) ensures Spared(w', t, d) { assert Spared(w, t, d); }
  }

  lemma {:induction false} UncoveredDangles(w: World, d: Digest, grace: int)
    requires Inv(w, grace) && d in Refs(w.tables)
    requires !(d in w.store && w.pass.phase != Deleting(d) && Spared(w, w.tables, d))
    ensures exists acts :: NoCommits(acts) && !NoDangling(Run(w, acts, grace))
  {
    var acts: seq<Act> := [];
    if d in w.store && w.pass.phase == Deleting(d) {
      acts := [Proceed];
      PathIsRun([w, Next(w, Proceed, grace)], acts, grace);
    } else if d in w.store {
      acts := UnsparedIsDeleted(w, d, grace);
      QuietRunKeepsTables(w, acts, grace);
    }
    assert NoCommits(acts) && !NoDangling(Run(w, acts, grace));
  }

  lemma {:induction false} QuietRunKeepsTables(w: World, acts: seq<Act>, grace: int)
    requires NoCommits(acts)
    ensures Run(w, acts, grace).tables == w.tables
    decreases |acts|
  {
    if acts != [] {
      assert acts[0] in acts;
      QuietRunKeepsTables(Next(w, acts[0], grace), acts[1..], grace);
    }
  }

  /** A commit references anew only stored digests whose ledger row, if any, is
      younger than the grace, and hides nothing from the pass in progress: what
      it references is visible to the recheck or not to be listed again. */
  ghost predicate Lawful(w: World, t: Tables, grace: int) {
    && (forall d :: d in Refs(t) && d !in Refs(w.tables) ==> d in w.store && !Expired(w, d, grace))
    && (forall d :: d in Refs(t) ==> Spared(w, t, d))
  }

  /** Only the url map can hide a digest, and only one created during a pass. */
  lemma {:induction false} OnlyNewMapHides(w: World, t: Tables)
    requires !w.pass.phase.Idle? && t.urlMap.Some? ==> w.pass.hasMap
    ensures forall d :: d in Refs(t) ==> Spared(w, t, d)
  {
  }

  ghost predicate LawfulRun(w: World, acts: seq<Act>, grace: int)
    decreases |acts|
  {
    acts == []
    || ((acts[0].Commit? ==> Lawful(w, acts[0].t, grace)) && LawfulRun(Next(w, acts[0], grace), acts[1..], grace))
  }

  lemma {:induction false} LawfulIsCovered(w: World, t: Tables, grace: int)
    requires Inv(w, grace) && Covered(w, w.tables) && Lawful(w, t, grace)
    ensures Covered(w, t)
  {
  }

  /** In every interleaving of lawful commits with passes, uploads and crashes,
      every referenced digest stays in the store. */
  lemma {:induction false} ReferencedNeverDeleted(w: World, acts: seq<Act>, grace: int)
    requires Inv(w, grace) && Covered(w, w.tables) && LawfulRun(w, acts, grace)
    ensures NoDangling(Run(w, acts, grace)) && Covered(Run(w, acts, grace), Run(w, acts, grace).tables)
    ensures forall d :: ReferencedBy(Run(w, acts, grace).tables, d, true) ==> d in Run(w, acts, grace).store
    decreases |acts|
  {
    SeenExactly(w.tables, true);
    if acts != [] {
      var w' := Next(w, acts[0], grace);
      NextKeepsInv(w, acts[0], grace);
      if acts[0].Commit? {
        LawfulIsCovered(w, acts[0].t, grace);
        SameCover(w, w', acts[0].t);
      } else {
        NextKeepsCovered(w, acts[0], grace);
      }
      ReferencedNeverDeleted(w', acts[1..], grace);
    }
  }

  /** From rest, deleting one unreferenced object whose row is due. */
  function Reclaim(d: Digest): seq<Act> {
    [Start, Visit(d), Proceed, Proceed, Proceed, Proceed]
  }

  lemma {:induction false} ReclaimDeletes(w: World, d: Digest, grace: int)
    requires w.pass.phase.Idle? && d in w.store && d !in Refs(w.tables) && Expired(w, d, grace)
    ensures d !in Run(w, Reclaim(d), grace).store && Run(w, Reclaim(d), grace).now == w.now
  {
    var w1 := Next(w, Start, grace);
    var w2 := Next(w1, Visit(d), grace);
    var w3 := Next(w2, Proceed, grace);
    var w4 := Next(w3, Proceed, grace);
    var w5 := Next(w4, Proceed, grace);
    var w6 := Next(w5, Proceed, grace);
    assert w6.pass.phase == Clearing(d);
    PathIsRun([w, w1, w2, w3, w4, w5, w6], Reclaim(d), grace);
  }
}
