/** The snapshot operation, the migration of one version and the tombstone as they
    change the rows in place. */
module ArchiveStore {
  import opened Common
  import Collector
  import opened ArchiveVersions

  class Store {
    var rows: Archive

    /** Every digest a retained manifest or a pending snapshot names is held. */
    ghost predicate Valid()
      reads this
    {
      Backed(rows)
    }

    constructor (rows: Archive)
      ensures this.rows == rows
    {
      this.rows := rows;
    }

    /** The digests of the event's elements whose flavor the operation selects; an
        operation that selects nothing fails. */
    method ReadElements(task: TaskId, mp: MpId, flavors: set<string>) returns (ok: bool)
      modifies this
      ensures ok <==> mp in old(rows).known && Selected(old(rows), mp, flavors) != {}
      ensures rows == Next(old(rows), ArchiveVersions.ReadElements(task, mp, flavors))
      ensures ok ==> task in rows.tasks && forall d :: d in rows.tasks[task].names <==> Selects(old(rows), mp, flavors, d)
      ensures old(Valid()) ==> Valid()
    {
      StaysBacked(rows, ArchiveVersions.ReadElements(task, mp, flavors));
      TasksChangeExactly(rows, ArchiveVersions.ReadElements(task, mp, flavors), task);
      if mp !in rows.known { return false; }
      var ids, names := rows.elements.Keys, {};
      while ids != {}
        invariant rows == old(rows) && ids <= rows.elements.Keys
        invariant names == Selected(rows.(elements := rows.elements - ids), mp, flavors)
        decreases ids
      {
        var id :| id in ids;
        ghost var before := rows.elements - ids;
        ids := ids - {id};
        assert rows.elements - ids == before[id := rows.elements[id]];
        OneMoreSelected(rows, before, id, mp, flavors);
        if rows.elements[id].mp == mp && rows.elements[id].flavor in flavors {
          names := names + {rows.elements[id].sha};
        }
      }
      assert rows.elements - ids == rows.elements;
      assert rows.(elements := rows.elements - ids) == rows;
      assert names == Selected(old(rows), mp, flavors);
      if names == {} { return false; }
      rows := rows.(tasks := rows.tasks[task := Pending(mp, names)]);
      ok := true;
    }

    /** coalesce(max(version), 0) + 1 under the event's row lock. */
    method NextVersion(mp: MpId) returns (v: nat)
      ensures IsNextVersion(rows, mp, v)
      ensures forall k :: k in rows.versions && k.0 == mp ==> k.1 < v
      ensures v == 1 || (mp, v - 1) in rows.versions
    {
      var keys: set<(MpId, nat)>, max := rows.versions.Keys, 0;
      while keys != {}
        invariant keys <= rows.versions.Keys
        invariant forall k :: k in rows.versions.Keys - keys && k.0 == mp ==> k.1 <= max
        invariant max == 0 || (mp, max) in rows.versions
        decreases keys
      {
        var k: (MpId, nat) :| k in keys;
        keys := keys - {k};
        if k.0 == mp && k.1 > max { max := k.1; }
      }
      v := max + 1;
    }

    method CommitVersion(task: TaskId, manifest: Collector.Digest) returns (v: nat)
      requires task in rows.tasks
      modifies this
      ensures IsNextVersion(old(rows), old(rows).tasks[task].mp, v)
      ensures rows == Next(old(rows), ArchiveVersions.CommitVersion(task, manifest, v))
      ensures var k := (old(rows).tasks[task].mp, v);
        k in rows.versions && rows.versions[k] == Version(manifest, None, old(rows).tasks[task].names)
      ensures old(Valid()) ==> Valid()
    {
      var pending := rows.tasks[task];
      v := NextVersion(pending.mp);
      StaysBacked(rows, ArchiveVersions.CommitVersion(task, manifest, v));
      rows := rows.(versions := rows.versions[(pending.mp, v) := Version(manifest, None, pending.names)], tasks := rows.tasks - {task});
    }

    /** recordURL: the first content recorded for a link stays; a different one is
        held, not written. */
    method RecordUrl(url: string, sha: Collector.Digest) returns (held: bool)
      modifies this
      ensures held <==> url in old(rows).urlMap && old(rows).urlMap[url] != sha
      ensures rows == Next(old(rows), ArchiveVersions.RecordUrl(url, sha))
      ensures old(Valid()) ==> Valid()
    {
      StaysBacked(rows, ArchiveVersions.RecordUrl(url, sha));
      held := false;
      if url !in rows.urlMap {
        rows := rows.(urlMap := rows.urlMap[url := sha]);
      } else {
        held := rows.urlMap[url] != sha;
      }
    }

    /** One migrated version: each element's digest is read back from the url map. */
    method Migrate(mp: MpId, version: nat, urls: set<string>, manifest: Collector.Digest, source: Collector.Digest) returns (ok: bool)
      modifies this
      ensures ok <==> mp in old(rows).known && urls <= old(rows).urlMap.Keys
      ensures rows == Next(old(rows), ArchiveVersions.Migrate(mp, version, urls, manifest, source))
      ensures ok ==> (mp, version) in rows.versions && rows.versions[(mp, version)].source == Some(source)
      ensures ok ==> forall d :: d in rows.versions[(mp, version)].names <==> Recorded(old(rows), urls, d)
      ensures old(Valid()) ==> Valid()
    {
      StaysBacked(rows, ArchiveVersions.Migrate(mp, version, urls, manifest, source));
      if mp !in rows.known { return false; }
      var todo, names := urls, {};
      while todo != {}
        invariant todo <= urls && urls - todo <= rows.urlMap.Keys
        invariant names == set u | u in urls - todo :: rows.urlMap[u]
        decreases todo
      {
        var u :| u in todo;
        if u !in rows.urlMap { return false; }
        assert urls - (todo - {u}) == (urls - todo) + {u};
        assert (set x | x in (urls - todo) + {u} :: rows.urlMap[x]) == (set x | x in urls - todo :: rows.urlMap[x]) + {rows.urlMap[u]};
        todo := todo - {u};
        names := names + {rows.urlMap[u]};
      }
      assert urls - todo == urls;
      rows := rows.(versions := rows.versions[(mp, version) := Version(manifest, Some(source), names)]);
      ok := true;
    }

    /** Retracts a live event once: its element and version rows go. */
    method Tombstone(mp: MpId) returns (found: bool)
      modifies this
      ensures found <==> mp in old(rows).live
      ensures rows == Next(old(rows), ArchiveVersions.Tombstone(mp))
      ensures old(Valid()) && (forall t :: t in old(rows).tasks ==> old(rows).tasks[t].mp != mp) ==> Valid()
    {
      StaysBacked(rows, ArchiveVersions.Tombstone(mp));
      if mp !in rows.live { return false; }
      rows := rows.(live := rows.live - {mp});
      rows := rows.(elements := map id | id in rows.elements && rows.elements[id].mp != mp :: rows.elements[id]);
      rows := rows.(versions := map k | k in rows.versions && k.0 != mp :: rows.versions[k]);
      found := true;
    }
  }

  lemma {:induction false} StaysBacked(a: Archive, act: Act)
    ensures Backed(a) && (act.Tombstone? ==> forall t :: t in a.tasks ==> a.tasks[t].mp != act.mp) ==> Backed(Next(a, act))
  {
    if Backed(a) && (act.Tombstone? ==> forall t :: t in a.tasks ==> a.tasks[t].mp != act.mp) { NextKeepsBacked(a, act); }
  }

  lemma {:induction false} OneMoreSelected(a: Archive, before: map<ElementId, ElementRow>, id: ElementId, mp: MpId, flavors: set<string>)
    requires id in a.elements && id !in before
    ensures Selected(a.(elements := before[id := a.elements[id]]), mp, flavors)
      == Selected(a.(elements := before), mp, flavors)
         + if a.elements[id].mp == mp && a.elements[id].flavor in flavors then {a.elements[id].sha} else {}
  {
    var row := a.elements[id];
    var b, b' := a.(elements := before), a.(elements := before[id := row]);
    var added := if row.mp == mp && row.flavor in flavors then {row.sha} else {};
    forall d ensures d in Selected(b', mp, flavors) <==> d in Selected(b, mp, flavors) + added {
      if d in Selected(b, mp, flavors) {
        var e :| e in before && before[e].mp == mp && before[e].flavor in flavors && before[e].sha == d;
        assert e in b'.elements && b'.elements[e] == before[e];
      }
      if d in added { assert b'.elements[id] == row; }
    }
  }
}
