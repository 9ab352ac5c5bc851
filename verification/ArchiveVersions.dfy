/** Archive versions and what keeps their bytes alive: every digest a retained
    manifest names must be in the collector's mark set (internal/ops/inline.go,
    internal/migrate/migrate.go, internal/mediapackage/write.go). */
module ArchiveVersions {
  import opened Common
  import opened Collector

  type MpId = string
  type ElementId = string
  type TaskId = nat

  datatype ElementRow = ElementRow(mp: MpId, flavor: string, sha: Digest)

  /** One archive version: its manifest object, the verbatim source document of a
      migrated one, and the digests the manifest names. */
  datatype Version = Version(manifest: Digest, source: Option<Digest>, names: set<Digest>)

  /** A snapshot task between its element read and its commit. */
  datatype Pending = Pending(mp: MpId, names: set<Digest>)

  datatype Archive = Archive(
    known: set<MpId>,
    live: set<MpId>,
    elements: map<ElementId, ElementRow>,
    versions: map<(MpId, nat), Version>,
    urlMap: map<string, Digest>,
    tasks: map<TaskId, Pending>)

  datatype Act =
    | Register(mp: MpId)
    | Insert(id: ElementId, row: ElementRow)
    | ReadElements(task: TaskId, mp: MpId, flavors: set<string>)
    | CommitVersion(task: TaskId, manifest: Digest, version: nat)
    | Abandon(task: TaskId)
    | RecordUrl(url: string, sha: Digest)
    | Migrate(mp: MpId, version: nat, urls: set<string>, manifest: Digest, source: Digest)
    | Tombstone(mp: MpId)

  function Selected(a: Archive, mp: MpId, flavors: set<string>): set<Digest> {
    set id | id in a.elements && a.elements[id].mp == mp && a.elements[id].flavor in flavors :: a.elements[id].sha
  }

  /** max(version) + 1 over the event's versions, 1 when there is none. */
  ghost predicate IsNextVersion(a: Archive, mp: MpId, v: nat) {
    && (forall k :: k in a.versions && k.0 == mp ==> k.1 < v)
    && (v == 1 || (v > 1 && (mp, v - 1) in a.versions))
  }

  function DropEvent(a: Archive, mp: MpId): Archive {
    a.(live := a.live - {mp},
       elements := map id | id in a.elements && a.elements[id].mp != mp :: a.elements[id],
       versions := map k | k in a.versions && k.0 != mp :: a.versions[k])
  }

  /** One transaction or read; one that is not possible changes nothing. */
  ghost function Next(a: Archive, act: Act): Archive {
    match act
    case Register(mp) => if mp in a.known then a else a.(known := a.known + {mp}, live := a.live + {mp})
    case Insert(id, row) =>
      if row.mp in a.known && id !in a.elements then a.(elements := a.elements[id := row]) else a
    case ReadElements(task, mp, flavors) =>
      if mp in a.known && Selected(a, mp, flavors) != {}
      then a.(tasks := a.tasks[task := Pending(mp, Selected(a, mp, flavors))]) else a
    case CommitVersion(task, manifest, v) =>
      if task in a.tasks && IsNextVersion(a, a.tasks[task].mp, v)
      then a.(versions := a.versions[(a.tasks[task].mp, v) := Version(manifest, None, a.tasks[task].names)], tasks := a.tasks - {task})
      else a
    case Abandon(task) => a.(tasks := a.tasks - {task})
    case RecordUrl(url, sha) => if url in a.urlMap then a else a.(urlMap := a.urlMap[url := sha])
    case Migrate(mp, v, urls, manifest, source) =>
      if mp in a.known && urls <= a.urlMap.Keys
      then a.(versions := a.versions[(mp, v) := Version(manifest, Some(source), set u | u in urls :: a.urlMap[u])])
      else a
    case Tombstone(mp) => if mp in a.live then DropEvent(a, mp) else a
  }

  ghost function Run(a: Archive, acts: seq<Act>): Archive
    decreases |acts|
  {
    if acts == [] then a else Run(Next(a, acts[0]), acts[1..])
  }

  // ---- what an action changes ----

  /** Some selected element row of the event has this digest. */
  ghost predicate Selects(a: Archive, mp: MpId, flavors: set<string>, d: Digest) {
    exists id :: id in a.elements && a.elements[id].mp == mp && a.elements[id].flavor in flavors && a.elements[id].sha == d
  }

  /** Some of these links was recorded with this content. */
  ghost predicate Recorded(a: Archive, urls: set<string>, d: Digest) {
    exists u :: u in urls && u in a.urlMap && a.urlMap[u] == d
  }

  /** A version appears by a snapshot's commit, with the digests the task read, or by
      a migration, with the content recorded for its links and its source document;
      it goes with its event. */
  lemma {:induction false} VersionsChangeExactly(a: Archive, act: Act, k: (MpId, nat))
    ensures var v, v' := a.versions, Next(a, act).versions;
      var commits := act.CommitVersion? && act.task in a.tasks && k == (a.tasks[act.task].mp, act.version) && IsNextVersion(a, k.0, k.1);
      var migrates := act.Migrate? && k == (act.mp, act.version) && act.mp in a.known && forall u :: u in act.urls ==> u in a.urlMap;
      var drops := act.Tombstone? && act.mp == k.0 && k.0 in a.live;
      && (k in v' <==> commits || migrates || (k in v && !drops))
      && (commits ==> v'[k] == Version(act.manifest, None, a.tasks[act.task].names))
      && (migrates ==> v'[k].manifest == act.manifest && v'[k].source == Some(act.source))
      && (migrates ==> forall d :: d in v'[k].names <==> Recorded(a, act.urls, d))
      && (!commits && !migrates && k in v' ==> v'[k] == v[k])
  {
  }

  /** A snapshot task holds exactly the digests of the elements it selected, from its
      read to its commit or its end. */
  lemma {:induction false} TasksChangeExactly(a: Archive, act: Act, t: TaskId)
    ensures var p, p' := a.tasks, Next(a, act).tasks;
      var reads_ := act.ReadElements? && act.task == t && act.mp in a.known && exists d :: Selects(a, act.mp, act.flavors, d);
      var ends := (act.Abandon? && act.task == t)
        || (act.CommitVersion? && act.task == t && t in a.tasks && IsNextVersion(a, a.tasks[t].mp, act.version));
      && (t in p' <==> reads_ || (t in p && !ends))
      && (reads_ ==> p'[t].mp == act.mp && forall d :: d in p'[t].names <==> Selects(a, act.mp, act.flavors, d))
      && (!reads_ && t in p' ==> p'[t] == p[t])
  {
    if act.ReadElements? {
      forall d ensures d in Selected(a, act.mp, act.flavors) <==> Selects(a, act.mp, act.flavors, d) { }
    }
  }

  /** Elements go only with their event; a link keeps its first content. */
  lemma {:induction false} RowsChangeExactly(a: Archive, act: Act, id: ElementId, url: string)
    ensures var a' := Next(a, act);
      var inserts := act.Insert? && act.id == id && id !in a.elements && act.row.mp in a.known;
      var drops := act.Tombstone? && act.mp in a.live && id in a.elements && a.elements[id].mp == act.mp;
      && (id in a'.elements <==> inserts || (id in a.elements && !drops))
      && (inserts ==> a'.elements[id] == act.row)
      && (id in a.elements && id in a'.elements ==> a'.elements[id] == a.elements[id])
      && (url in a'.urlMap <==> url in a.urlMap || (act.RecordUrl? && act.url == url))
      && (url in a.urlMap ==> a'.urlMap[url] == a.urlMap[url])
      && (url !in a.urlMap && url in a'.urlMap ==> a'.urlMap[url] == act.sha)
  {
  }

  /** An event is known from its registration on, and live until its tombstone. */
  lemma {:induction false} EventsChangeExactly(a: Archive, act: Act, mp: MpId)
    ensures var a' := Next(a, act);
      && (mp in a'.known <==> mp in a.known || act == Register(mp))
      && (mp in a'.live <==> if mp in a.live then act != Tombstone(mp) else act == Register(mp) && mp !in a.known)
  {
  }

  /** The collector's view of these rows. */
  function TablesOf(a: Archive): Tables {
    Tables(set id | id in a.elements :: a.elements[id].sha,
      set k | k in a.versions :: Snapshot(a.versions[k].manifest, a.versions[k].source),
      Some(set u | u in a.urlMap :: a.urlMap[u]))
  }

  ghost predicate Closed(a: Archive) {
    forall k :: k in a.versions ==> a.versions[k].names <= Refs(TablesOf(a))
  }

  // ---- closure over runs ----

  /** A digest is held by an element row of the event itself, or by the url map,
      from which nothing is ever removed. */
  ghost predicate Held(a: Archive, mp: MpId, d: Digest) {
    || (exists id :: id in a.elements && a.elements[id].mp == mp && a.elements[id].sha == d)
    || (exists u :: u in a.urlMap && a.urlMap[u] == d)
  }

  ghost predicate Backed(a: Archive) {
    && (forall k, d :: k in a.versions && d in a.versions[k].names ==> Held(a, k.0, d))
    && (forall t, d :: t in a.tasks && d in a.tasks[t].names ==> Held(a, a.tasks[t].mp, d))
  }

  lemma {:induction false} HeldIsMarked(a: Archive, mp: MpId, d: Digest)
    requires Held(a, mp, d)
    ensures d in Refs(TablesOf(a))
  {
    if id :| id in a.elements && a.elements[id].mp == mp && a.elements[id].sha == d {
      assert d in TablesOf(a).elements;
    } else {
      var u :| u in a.urlMap && a.urlMap[u] == d;
      assert d in TablesOf(a).urlMap.value;
    }
  }

  lemma {:induction false} BackedIsClosed(a: Archive)
    requires Backed(a)
    ensures Closed(a)
  {
    forall k, d | k in a.versions && d in a.versions[k].names ensures d in Refs(TablesOf(a)) {
      HeldIsMarked(a, k.0, d);
    }
  }

  /** No event is tombstoned while one of its snapshot tasks has read its elements
      and neither committed nor been abandoned. */
  ghost predicate TombstonesWait(a: Archive, acts: seq<Act>)
    decreases |acts|
  {
    acts == []
    || ((acts[0].Tombstone? && acts[0].mp in a.live ==> forall t :: t in a.tasks ==> a.tasks[t].mp != acts[0].mp)
        && TombstonesWait(Next(a, acts[0]), acts[1..]))
  }

  lemma {:induction false} OthersStayHeld(a: Archive, act: Act, mp: MpId, d: Digest)
    requires Held(a, mp, d) && (act.Tombstone? && act.mp in a.live ==> act.mp != mp)
    ensures Held(Next(a, act), mp, d)
  {
    var a' := Next(a, act);
    if id :| id in a.elements && a.elements[id].mp == mp && a.elements[id].sha == d {
      assert id in a'.elements && a'.elements[id] == a.elements[id];
    } else {
      var u :| u in a.urlMap && a.urlMap[u] == d;
      assert u in a'.urlMap && a'.urlMap[u] == d;
    }
  }

  lemma {:induction false} ReadIsHeld(a: Archive, mp: MpId, flavors: set<string>, d: Digest)
    requires d in Selected(a, mp, flavors)
    ensures Held(a, mp, d)
  {
    var id :| id in a.elements && a.elements[id].mp == mp && a.elements[id].flavor in flavors && a.elements[id].sha == d;
  }

  lemma {:induction false} NextKeepsBacked(a: Archive, act: Act)
    requires Backed(a)
    requires act.Tombstone? && act.mp in a.live ==> forall t :: t in a.tasks ==> a.tasks[t].mp != act.mp
    ensures Backed(Next(a, act))
  {
    var a' := Next(a, act);
    forall k, d | k in a'.versions && d in a'.versions[k].names ensures Held(a', k.0, d) {
      if act.Migrate? && a' != a && k == (act.mp, act.version) {
        var u :| u in act.urls && a.urlMap[u] == d;
        assert u in a'.urlMap;
      } else {
        assert Held(a, k.0, d);
        OthersStayHeld(a, act, k.0, d);
      }
    }
    forall t, d | t in a'.tasks && d in a'.tasks[t].names ensures Held(a', a'.tasks[t].mp, d) {
      if act.ReadElements? && a' != a && t == act.task {
        ReadIsHeld(a, act.mp, act.flavors, d);
        OthersStayHeld(a, act, act.mp, d);
      } else {
        OthersStayHeld(a, act, a.tasks[t].mp, d);
      }
    }
  }

  /** In every run in which no tombstone falls between a snapshot task's read and
      its commit, every digest named in a retained manifest, native or migrated,
      is in the mark set. */
  lemma {:induction false} ArchiveIsClosed(a: Archive, acts: seq<Act>)
    requires Backed(a) && TombstonesWait(a, acts)
    ensures Backed(Run(a, acts)) && Closed(Run(a, acts))
    decreases |acts|
  {
    if acts == [] {
      BackedIsClosed(a);
    } else {
      NextKeepsBacked(a, acts[0]);
      ArchiveIsClosed(Next(a, acts[0]), acts[1..]);
    }
  }

  /** Whatever came between, a snapshot's commit keeps the archive closed exactly
      when every digest it read is still referenced, or is the manifest itself. */
  lemma {:induction false} CommitClosesExactly(a: Archive, act: Act)
    requires Closed(a) && act.CommitVersion? && act.task in a.tasks && IsNextVersion(a, a.tasks[act.task].mp, act.version)
    ensures Closed(Next(a, act)) <==> a.tasks[act.task].names <= Refs(TablesOf(a)) + {act.manifest}
  {
    var a', key := Next(a, act), (a.tasks[act.task].mp, act.version);
    assert key !in a.versions;
    assert Refs(TablesOf(a')) == Refs(TablesOf(a)) + {act.manifest} by { CommittedRefs(a, act); }
    assert a'.versions[key].names == a.tasks[act.task].names;
    if a.tasks[act.task].names <= Refs(TablesOf(a)) + {act.manifest} {
      forall k | k in a'.versions ensures a'.versions[k].names <= Refs(TablesOf(a')) {
        if k != key { assert a'.versions[k] == a.versions[k]; }
      }
    }
  }

  lemma {:induction false} CommittedRefs(a: Archive, act: Act)
    requires act.CommitVersion? && act.task in a.tasks && IsNextVersion(a, a.tasks[act.task].mp, act.version)
    ensures Refs(TablesOf(Next(a, act))) == Refs(TablesOf(a)) + {act.manifest}
  {
    var a', key := Next(a, act), (a.tasks[act.task].mp, act.version);
    var t, t' := TablesOf(a), TablesOf(a');
    var added := Snapshot(act.manifest, None);
    assert key !in a.versions;
    assert t'.snapshots == t.snapshots + {added} by {
      forall s ensures s in t'.snapshots <==> s in t.snapshots + {added} {
        if s in t.snapshots {
          var k :| k in a.versions && s == Snapshot(a.versions[k].manifest, a.versions[k].source);
          assert k in a'.versions && a'.versions[k] == a.versions[k];
        }
        if s == added { assert key in a'.versions; }
      }
    }
    MoreSnapshotRefs(t, t', added);
  }

  lemma {:induction false} MoreSnapshotRefs(t: Tables, t': Tables, s: Snapshot)
    requires t' == t.(snapshots := t.snapshots + {s}) && s.source.None?
    ensures Refs(t') == Refs(t) + {s.manifest}
  {
    assert SnapshotRefs(t') == SnapshotRefs(t) + {s.manifest};
  }

  /** A tombstone in between leaves a version whose bytes nothing references. */
  lemma {:induction false} TombstoneBetweenOpensArchive()
    ensures var a := Archive({"mp"}, {"mp"}, map["e" := ElementRow("mp", "f", "d")], map[], map[], map[]);
      Backed(a) && !Closed(Run(a, [ReadElements(0, "mp", {"f"}), Tombstone("mp"), CommitVersion(0, "m", 1)]))
  {
    var a := Archive({"mp"}, {"mp"}, map["e" := ElementRow("mp", "f", "d")], map[], map[], map[]);
    var acts := [ReadElements(0, "mp", {"f"}), Tombstone("mp"), CommitVersion(0, "m", 1)];
    assert "d" in Selected(a, "mp", {"f"}) by { assert "e" in a.elements; }
    assert Selected(a, "mp", {"f"}) == {"d"};
    var a1 := a.(tasks := map[0 := Pending("mp", {"d"})]);
    var a2 := Archive({"mp"}, {}, map[], map[], map[], map[0 := Pending("mp", {"d"})]);
    assert Next(a, acts[0]) == a1;
    assert Next(a1, acts[1]) == a2;
    assert Refs(TablesOf(a2)) == {};
    CommitClosesExactly(a2, acts[2]);
    assert acts[1..][1..][1..] == [];
    assert Run(a, acts) == Run(a1, acts[1..]) == Run(a2, acts[1..][1..]) == Next(a2, acts[2]);
  }

  /** Closure and the collector's guarantee together: over any lawful run of the
      collector the bytes of a closed archive can be restored. */
  lemma {:induction false} ClosedArchiveIsRestorable(w: World, steps: seq<Collector.Act>, grace: int, a: Archive)
    requires Inv(w, grace) && Covered(w, w.tables) && LawfulRun(w, steps, grace)
    requires Closed(a) && Collector.Run(w, steps, grace).tables == TablesOf(a)
    ensures forall k :: k in a.versions ==>
      a.versions[k].names + {a.versions[k].manifest} <= Collector.Run(w, steps, grace).store
    ensures forall k :: k in a.versions && a.versions[k].source.Some? ==>
      a.versions[k].source.value in Collector.Run(w, steps, grace).store
  {
    ReferencedNeverDeleted(w, steps, grace);
    forall k | k in a.versions
      ensures a.versions[k].manifest in Refs(TablesOf(a))
      ensures a.versions[k].source.Some? ==> a.versions[k].source.value in Refs(TablesOf(a))
    {
      var s := Snapshot(a.versions[k].manifest, a.versions[k].source);
      assert s in TablesOf(a).snapshots;
      if s.source.Some? { assert s.source.value in SnapshotRefs(TablesOf(a)); }
    }
  }
}
