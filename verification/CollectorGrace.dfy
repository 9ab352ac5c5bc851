/** What the grace window protects, and by when garbage is gone. */
module CollectorGrace {
  import opened Common
  import opened Collector

  // ---- kept for a grace ----

  /** No row of `d` is older than `t0`. */
  ghost predicate Fresh(w: World, d: Digest, t0: int) {
    d in w.store && (d in w.ledger ==> w.ledger[d] >= t0) && t0 <= w.now
  }

  lemma {:induction false} NextKeepsFresh(w: World, a: Act, d: Digest, t0: int, grace: int)
    requires Inv(w, grace) && Fresh(w, d, t0) && w.now < t0 + grace
    ensures Fresh(Next(w, a, grace), d, t0)
  {
  }

  lemma {:induction false} RunKeepsFresh(w: World, acts: seq<Act>, d: Digest, t0: int, grace: int)
    requires Inv(w, grace) && Fresh(w, d, t0) && Run(w, acts, grace).now < t0 + grace
    ensures Fresh(Run(w, acts, grace), d, t0)
    decreases |acts|
  {
    if acts != [] {
      RunKeepsInv(w, acts, grace);
      NextKeepsFresh(w, acts[0], d, t0, grace);
      NextKeepsInv(w, acts[0], grace);
      RunKeepsInv(Next(w, acts[0], grace), acts[1..], grace);
      RunKeepsFresh(Next(w, acts[0], grace), acts[1..], d, t0, grace);
    }
  }

  /** Whatever happens for one grace from now on - passes, crashes, commits that
      drop every reference - the object stays, and its row, if any, is too young
      for a commit that references it to be unlawful. */
  ghost predicate KeptForGrace(w: World, d: Digest, grace: int) {
    forall acts :: Run(w, acts, grace).now < w.now + grace ==>
      d in Run(w, acts, grace).store && !Expired(Run(w, acts, grace), d, grace)
  }

  const EMPTY: Tables := Tables({}, {}, None)

  /** A crash, the last reference dropped, a wait and one pass. */
  function LateReclaim(w: World, d: Digest, grace: int): seq<Act>
    requires d in w.ledger
  {
    var wait := w.ledger[d] + grace - w.now;
    [Crash, Commit(EMPTY), Tick(if wait > 0 then wait else 0)] + Reclaim(d)
  }

  lemma {:induction false} OldRowReclaims(w: World, d: Digest, grace: int)
    requires d in w.store && d in w.ledger && w.ledger[d] < w.now && grace > 0
    ensures var w' := Run(w, LateReclaim(w, d, grace), grace); d !in w'.store && w'.now < w.now + grace
  {
    var acts := LateReclaim(w, d, grace);
    var w1 := Next(w, acts[0], grace);
    var w2 := Next(w1, acts[1], grace);
    var w3 := Next(w2, acts[2], grace);
    assert Refs(w3.tables) == {};
    ReclaimDeletes(w3, d, grace);
    assert acts[1..][1..][1..] == Reclaim(d);
    assert Run(w, acts, grace) == Run(w1, acts[1..], grace) == Run(w2, acts[1..][1..], grace) == Run(w3, Reclaim(d), grace);
  }

  /** A stored object is kept for a full grace, under every interleaving and every
      crash, exactly when the ledger holds no row for it from before now. */
  lemma {:induction false} KeptForGraceExactly(w: World, d: Digest, grace: int)
    requires Inv(w, grace) && d in w.store && grace > 0
    ensures KeptForGrace(w, d, grace) <==> (d in w.ledger ==> w.ledger[d] == w.now)
  {
    if d in w.ledger && w.ledger[d] < w.now {
      OldRowReclaims(w, d, grace);
      assert Run(w, LateReclaim(w, d, grace), grace).now < w.now + grace;
    } else {
      forall acts | Run(w, acts, grace).now < w.now + grace
        ensures d in Run(w, acts, grace).store && !Expired(Run(w, acts, grace), d, grace)
      {
        RunKeepsFresh(w, acts, d, w.now, grace);
      }
    }
  }

  /** A pass that sees a listed object referenced restarts its grace: once the
      row is cleared the object is kept even if the reference goes at once. Until
      the clear after a recheck it is not: a crash there leaves the old row. */
  lemma {:induction false} SightingRestartsGrace(w: World, d: Digest, grace: int)
    requires Inv(w, grace) && d in w.store && grace > 0
    ensures w.pass.phase == Listing && d in w.pass.mark && d !in w.pass.visited ==> KeptForGrace(Next(w, Visit(d), grace), d, grace)
    ensures w.pass.phase == Sparing(d) ==> KeptForGrace(Next(w, Proceed, grace), d, grace)
    ensures w.pass.phase == Rechecking(d) && d in Seen(w.tables, w.pass.hasMap) ==>
      !KeptForGrace(Next(w, Proceed, grace), d, grace)
  {
    NextKeepsInv(w, Visit(d), grace);
    NextKeepsInv(w, Proceed, grace);
    if w.pass.phase == Listing && d in w.pass.mark && d !in w.pass.visited { KeptForGraceExactly(Next(w, Visit(d), grace), d, grace); }
    if w.pass.phase == Sparing(d) { KeptForGraceExactly(Next(w, Proceed, grace), d, grace); }
    if w.pass.phase == Rechecking(d) && d in Seen(w.tables, w.pass.hasMap) {
      KeptForGraceExactly(Next(w, Proceed, grace), d, grace);
    }
  }

  /** A ledger row without its object: only inside the delete-and-clear pair. */
  ghost predicate LedgerIsStored(w: World) {
    forall d :: d in w.ledger && d !in w.store ==> w.pass.phase == Clearing(d)
  }

  predicate PairsComplete(w: World, acts: seq<Act>, grace: int)
    decreases |acts|
  {
    acts == [] || ((acts[0].Crash? ==> !w.pass.phase.Clearing?) && PairsComplete(Next(w, acts[0], grace), acts[1..], grace))
  }

  /** While no crash falls between a delete and its clear, the ledger never
      outlives the store, so every upload outside the pair is protected. */
  lemma {:induction false} CompletePairsProtectUploads(w: World, acts: seq<Act>, d: Digest, grace: int)
    requires Inv(w, grace) && LedgerIsStored(w) && grace > 0 && PairsComplete(w, acts, grace)
    ensures LedgerIsStored(Run(w, acts, grace))
    ensures d !in Run(w, acts, grace).store && Run(w, acts, grace).pass.phase != Clearing(d) ==>
      KeptForGrace(Next(Run(w, acts, grace), Put(d), grace), d, grace)
    decreases |acts|
  {
    if acts == [] {
      NextKeepsInv(w, Put(d), grace);
      if d !in w.store && w.pass.phase != Clearing(d) { KeptForGraceExactly(Next(w, Put(d), grace), d, grace); }
    } else {
      NextKeepsInv(w, acts[0], grace);
      NextKeepsLedgerStored(w, acts[0], grace);
      CompletePairsProtectUploads(Next(w, acts[0], grace), acts[1..], d, grace);
    }
  }

  /** An absent object that is uploaded, and referenced less than one grace later,
      may be referenced, and is never deleted while it is. */
  lemma {:induction false} UploadThenReferenceIsSafe(w: World, d: Digest, before: seq<Act>, t: Tables, after: seq<Act>, grace: int)
    requires Inv(w, grace) && Covered(w, w.tables) && LedgerIsStored(w) && grace > 0
    requires d !in w.store && w.pass.phase != Clearing(d)
    requires LawfulRun(Next(w, Put(d), grace), before, grace)
    requires var u := Run(Next(w, Put(d), grace), before, grace);
      && u.now < w.now + grace
      && d in Refs(t) && Refs(t) <= Refs(u.tables) + {d} && (forall e :: e in Refs(t) ==> Spared(u, t, e))
      && LawfulRun(Next(u, Commit(t), grace), after, grace)
    ensures var u := Run(Next(w, Put(d), grace), before, grace);
      Lawful(u, t, grace) && NoDangling(Run(Next(u, Commit(t), grace), after, grace))
  {
    var w0 := Next(w, Put(d), grace);
    var u := Run(w0, before, grace);
    NextKeepsInv(w, Put(d), grace);
    NextKeepsCovered(w, Put(d), grace);
    KeptForGraceExactly(w0, d, grace);
    assert d in u.store && !Expired(u, d, grace);
    RunKeepsInv(w0, before, grace);
    ReferencedNeverDeleted(w0, before, grace);
    var commit := [Commit(t)] + after;
    assert commit[1..] == after;
    ReferencedNeverDeleted(u, commit, grace);
  }

  lemma {:induction false} NextKeepsLedgerStored(w: World, a: Act, grace: int)
    requires Inv(w, grace) && LedgerIsStored(w) && (a.Crash? ==> !w.pass.phase.Clearing?)
    ensures LedgerIsStored(Next(w, a, grace))
  {
  }

  // ---- a url map that appears during a pass ----

  const MAPPED: Tables := Tables({}, {}, Some({"d"}))

  /** One object, a candidate for 5 of the 10 units of its grace. */
  const CANDIDATE: World := World(EMPTY, {"d"}, map["d" := 0], 5, Pass(Idle, {}, false, {}, {}, 0))

  /** The recheck looks at the url map only if the table existed when the pass
      began: created during the pass, its references are not seen, though the
      commit found the object stored and its row younger than the grace. */
  lemma {:induction false} MidPassMapIsMissed()
    ensures var acts := [Start, Commit(MAPPED), Tick(5), Visit("d"), Proceed, Proceed, Proceed, Proceed];
      Inv(CANDIDATE, 10) && Covered(CANDIDATE, EMPTY) && !NoDangling(Run(CANDIDATE, acts, 10))
  {
    var w1 := World(EMPTY, {"d"}, map["d" := 0], 5, Pass(Listing, {}, false, {"d"}, {}, 5));
    var w2 := w1.(tables := MAPPED);
    var w3 := w2.(now := 10);
    MidPassStarts();
    MidPassDeletes(w3);
    var acts := [Start, Commit(MAPPED), Tick(5), Visit("d"), Proceed, Proceed, Proceed, Proceed];
    assert Next(w1, Commit(MAPPED), 10) == w2 && Next(w2, Tick(5), 10) == w3;
    assert acts[1..][1..][1..] == [Visit("d"), Proceed, Proceed, Proceed, Proceed];
    assert Run(CANDIDATE, acts, 10) == Run(w1, acts[1..], 10) == Run(w2, acts[1..][1..], 10) == Run(w3, acts[1..][1..][1..], 10);
  }

  lemma {:induction false} MidPassStarts()
    ensures Refs(EMPTY) == {} && Refs(MAPPED) == {"d"}
    ensures Next(CANDIDATE, Start, 10) == World(EMPTY, {"d"}, map["d" := 0], 5, Pass(Listing, {}, false, {"d"}, {}, 5))
  {
  }

  lemma {:induction false} MidPassDeletes(w: World)
    requires w == World(MAPPED, {"d"}, map["d" := 0], 10, Pass(Listing, {}, false, {"d"}, {}, 5))
    ensures var w' := Run(w, [Visit("d"), Proceed, Proceed, Proceed, Proceed], 10);
      w'.store == {} && w'.tables == MAPPED
  {
    var w4 := Next(w, Visit("d"), 10);
    var w5 := Next(w4, Proceed, 10);
    var w6 := Next(w5, Proceed, 10);
    var w7 := Next(w6, Proceed, 10);
    var w8 := Next(w7, Proceed, 10);
    assert "d" !in Seen(MAPPED, false);
    assert w5.pass.phase == Reading("d") && w6.pass.phase == Rechecking("d") && w7.pass.phase == Deleting("d");
    assert w8 == At(w7.(store := {}), Clearing("d"));
    PathIsRun([w, w4, w5, w6, w7, w8], [Visit("d"), Proceed, Proceed, Proceed, Proceed], 10);
  }

  // ---- bounded reclamation ----

  /** Passes start at most `gap` apart and take at most `length`. */
  predicate Timely(w: World, gap: int, length: int) {
    && w.now <= w.pass.began + gap
    && (!w.pass.phase.Idle? ==> w.now <= w.pass.began + length)
  }

  /** `d` stays in the store, unreferenced, through a run of timely passes that
      all complete. */
  ghost predicate Lingers(w: World, acts: seq<Act>, d: Digest, gap: int, length: int, grace: int)
    decreases |acts|
  {
    && d in w.store && d !in Refs(w.tables) && Timely(w, gap, length)
    && (acts == [] || (!acts[0].Crash? && Lingers(Next(w, acts[0], grace), acts[1..], d, gap, length, grace)))
  }

  /** The pass in progress will still come to `d`, or has it in hand. */
  predicate Pending(w: World, d: Digest) {
    !w.pass.phase.Idle? && d !in w.pass.mark && (d in w.pass.due || InHand(w, d))
  }

  /** How far the reclamation of `d`, garbage since `t`, has come: no pass began
      later; or the first one has yet to stamp it; or its row waits for a pass
      that begins a grace later; or that pass has it pending. */
  ghost predicate Progress(w: World, d: Digest, t: int, gap: int, length: int, grace: int) {
    && (w.pass.began <= t
        || (!w.pass.phase.Idle? ==> d !in w.pass.mark))
    && (w.pass.phase.Clearing? || w.pass.phase.Sparing? ==> w.pass.phase.d != d || w.pass.began <= t)
    && (w.pass.began <= t
        || (d !in w.ledger && Pending(w, d) && w.pass.began <= t + gap)
        || (d in w.ledger && w.ledger[d] <= t + gap + length
            && (w.pass.began < w.ledger[d] + grace
                || (Pending(w, d) && w.pass.began <= t + 2 * gap + length + grace))))
  }

  lemma {:induction false} NextKeepsProgress(w: World, a: Act, d: Digest, t: int, gap: int, length: int, grace: int)
    requires Inv(w, grace) && Progress(w, d, t, gap, length, grace) && !a.Crash?
    requires d in w.store && d !in Refs(w.tables) && Timely(w, gap, length) && gap >= 0 && length >= 0 && grace >= 0
    requires d in Next(w, a, grace).store && d !in Refs(Next(w, a, grace).tables) && Timely(Next(w, a, grace), gap, length)
    requires t <= w.now
    ensures Progress(Next(w, a, grace), d, t, gap, length, grace)
  {
  }

  /** Garbage is gone by t + 2 gap + grace + 2 length: no run of timely passes
      that complete can keep it longer. */
  lemma {:induction false} GarbageIsReclaimed(w: World, acts: seq<Act>, d: Digest, t: int, gap: int, length: int, grace: int)
    requires Inv(w, grace) && Progress(w, d, t, gap, length, grace) && t <= w.now
    requires gap >= 0 && length >= 0 && grace >= 0
    requires Lingers(w, acts, d, gap, length, grace)
    ensures Run(w, acts, grace).now <= t + 2 * gap + grace + 2 * length
    decreases |acts|
  {
    if acts != [] {
      NextKeepsInv(w, acts[0], grace);
      RunKeepsInv(w, [acts[0]], grace);
      NextKeepsProgress(w, acts[0], d, t, gap, length, grace);
      GarbageIsReclaimed(Next(w, acts[0], grace), acts[1..], d, t, gap, length, grace);
    }
  }

  /** The same from any moment at which the last reference has gone. */
  lemma {:induction false} UnreferencedIsGoneInTime(w: World, acts: seq<Act>, d: Digest, gap: int, length: int, grace: int)
    requires Inv(w, grace) && gap >= 0 && length >= 0 && grace >= 0
    requires Run(w, acts, grace).now > w.now + 2 * gap + grace + 2 * length
    ensures !Lingers(w, acts, d, gap, length, grace)
  {
    if Lingers(w, acts, d, gap, length, grace) {
      GarbageIsReclaimed(w, acts, d, w.now, gap, length, grace);
    }
  }
}
