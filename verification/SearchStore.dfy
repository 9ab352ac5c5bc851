/** The store as the writers change it: tables and projection in place, row by
    row, each transaction committing whole or rolling back. */
module SearchStore {
  import opened Common
  import opened Acl
  import opened SearchModel
  import T = SearchTheory
  import Runs = SearchRuns

  lemma {:induction false} NothingOverridden(ps: Policies, entries: set<Entry>)
    ensures Overridden(ps, {}, entries) == ps
  {
  }

  lemma {:induction false} OneMoreOverridden(ps: Policies, ids: set<EventId>, id: EventId, entries: set<Entry>)
    ensures Overridden(ps, ids, entries)[(EventScope, id) := entries] == Overridden(ps, ids + {id}, entries)
  {
  }

  class Store {
    var base: Base
    var index: Index

    /** The series a published event was moved out of and not refreshed since. */
    ghost var stale: set<SeriesId>

    /** The projection is the rebuild but for the rows of `stale` series. */
    ghost predicate Valid()
      reads this
    {
      T.Agrees(State(), stale)
    }

    constructor (b: Base)
      requires T.ValidBase(b)
      ensures Valid() && base == b && stale == {}
    {
      base, index, stale := b, Rebuilt(b), {};
      Runs.RebuiltAgrees(b);
    }

    /** The bookkeeping of one committed transaction. */
    ghost method Committed(before: Catalog, w: Writer)
      requires T.Agrees(before, stale) && State() == Transact(before, w)
      modifies `stale
      ensures Valid() && stale == T.StaleAfter(old(stale), before.base, w)
    {
      Runs.TransactionAgrees(before, w, stale);
      stale := T.StaleAfter(stale, before.base, w);
    }

    ghost function State(): Catalog
      reads this
    {
      Catalog(base, index)
    }

    method Rollback(before: Catalog)
      modifies `base, `index
      ensures State() == before
    {
      base, index := before.base, before.index;
    }

    /** projectSeries: a tombstoned or vanished series loses its row. */
    method RefreshSeriesRow(sid: SeriesId)
      modifies `index
      ensures index == ProjectSeriesRow(base, old(index), sid)
    {
      if sid !in base.series || base.series[sid].deleted {
        index := index.(series := index.series - {sid});
        return;
      }
      index := index.(series := index.series[sid := SeriesDocOf(base, index.events, sid)]);
    }

    method RefreshEvent(id: EventId) returns (ok: bool)
      modifies `index
      ensures ok <==> id in base.events
      ensures index == if ok then ProjectEvent(base, old(index), id) else old(index)
    {
      if id !in base.events { return false; }
      var row := base.events[id];
      if row.deleted {
        index := index.(events := index.events - {id});
      } else {
        index := index.(events := index.events[id := EventDocOf(base, id)]);
      }
      if row.seriesId.Some? { RefreshSeriesRow(row.seriesId.value); }
      ok := true;
    }

    method LiveMembers(sid: SeriesId) returns (ids: set<EventId>)
      ensures ids == MembersOf(base, sid)
      ensures forall id :: id in ids <==> IsMember(base, id, sid)
    {
      ids := set id | id in base.events && IsMember(base, id, sid);
    }

    /** ProjectSeries: every live member's row, then the series' own. */
    method RefreshSeries(sid: SeriesId)
      modifies `index
      ensures index == ProjectSeries(base, old(index), sid)
    {
      var todo := LiveMembers(sid);
      ghost var was := index;
      while todo != {}
        invariant forall id :: id in todo ==> IsMember(base, id, sid)
        invariant index.series == was.series
        invariant forall id :: id in index.events <==> id in was.events || (IsMember(base, id, sid) && id !in todo)
        invariant forall id :: id in index.events ==>
          index.events[id] == if IsMember(base, id, sid) && id !in todo then EventDocOf(base, id) else was.events[id]
        decreases todo
      {
        var id :| id in todo;
        todo := todo - {id};
        index := index.(events := index.events[id := EventDocOf(base, id)]);
      }
      assert index == ProjectMembers(base, was, sid);
      RefreshSeriesRow(sid);
    }

    method WritePolicy(scope: Scope, id: string, entries: seq<Entry>) returns (ok: bool)
      modifies `base
      ensures ok <==> Writable(entries)
      ensures ok ==> base == old(base).(policies := old(base).policies[(scope, id) := SetOf(entries)])
    {
      var acl := new AclStore();
      acl.policies := base.policies;
      var r := acl.SetTx(scope, id, entries);
      base := base.(policies := acl.policies);
      ok := r.Ok?;
    }

    method SetACL(scope: Scope, target: string, entries: seq<Entry>) returns (ok: bool)
      requires Valid()
      modifies this
      ensures Valid() && stale == T.StaleAfter(old(stale), old(base), Writer.SetACL(scope, target, entries))
      ensures ok <==> !Fails(old(base), Writer.SetACL(scope, target, entries))
      ensures State() == Transact(old(State()), Writer.SetACL(scope, target, entries))
    {
      ghost var was := State();
      var before := Catalog(base, index);
      ok := WritePolicy(scope, target, entries);
      if ok {
        match scope
        case EventScope => ok := RefreshEvent(target);
        case SeriesScope => RefreshSeries(target);
      }
      if !ok { Rollback(before); }
      Committed(was, Writer.SetACL(scope, target, entries));
    }

    method OverrideMemberPolicies(sid: SeriesId, entries: seq<Entry>)
      requires Writable(entries)
      modifies `base
      ensures base == old(base).(policies := OverrideMembers(old(base), old(base).policies, sid, SetOf(entries)))
    {
      ghost var was, done := base, {};
      var todo := LiveMembers(sid);
      NothingOverridden(was.policies, SetOf(entries));
      while todo != {}
        invariant done !! todo && done + todo == MembersOf(was, sid)
        invariant base == was.(policies := Overridden(was.policies, done, SetOf(entries)))
        decreases todo
      {
        var id :| id in todo;
        OneMoreOverridden(was.policies, done, id, SetOf(entries));
        var written := WritePolicy(EventScope, id, entries);
        done, todo := done + {id}, todo - {id};
      }
      assert done == MembersOf(was, sid);
    }

    method WriteSeriesPolicies(sid: SeriesId, entries: seq<Entry>, override: bool) returns (ok: bool)
      modifies `base
      ensures ok <==> Writable(entries)
      ensures ok ==> base == WriteBase(old(base), Writer.SetSeriesACL(sid, entries, override))
    {
      ok := WritePolicy(SeriesScope, sid, entries);
      if ok && override {
        assert MembersOf(base, sid) == MembersOf(old(base), sid);
        OverrideMemberPolicies(sid, entries);
      }
    }

    /** The series policy; with `override` every live member's policy too. */
    method SetSeriesACL(sid: SeriesId, entries: seq<Entry>, override: bool) returns (ok: bool)
      requires Valid()
      modifies this
      ensures Valid() && stale == T.StaleAfter(old(stale), old(base), Writer.SetSeriesACL(sid, entries, override))
      ensures ok <==> Writable(entries)
      ensures State() == Transact(old(State()), Writer.SetSeriesACL(sid, entries, override))
    {
      ghost var was := State();
      var before := Catalog(base, index);
      ok := WriteSeriesPolicies(sid, entries, override);
      if ok {
        RefreshSeries(sid);
      } else {
        Rollback(before);
      }
      Committed(was, Writer.SetSeriesACL(sid, entries, override));
    }

    method SetMetadata(id: EventId, sid: Option<SeriesId>, md: Metadata) returns (ok: bool)
      requires Valid()
      modifies this
      ensures Valid() && stale == T.StaleAfter(old(stale), old(base), Writer.SetMetadata(id, sid, md))
      ensures ok <==> !Fails(old(base), Writer.SetMetadata(id, sid, md))
      ensures State() == Transact(old(State()), Writer.SetMetadata(id, sid, md))
    {
      ghost var was := State();
      if id !in base.events || (sid.Some? && sid.value !in base.series) {
        Committed(was, Writer.SetMetadata(id, sid, md));
        return false;
      }
      base := base.(metadata := base.metadata[id := md]);
      base := base.(events := base.events[id := base.events[id].(seriesId := sid)]);
      ok := RefreshEvent(id);
      Committed(was, Writer.SetMetadata(id, sid, md));
    }

    /** The archive row is written only while the event is live; the metadata and
        the refresh happen either way. */
    method SetEventDC(id: EventId, title: Option<string>, start: Option<int>, sid: Option<SeriesId>, md: Metadata) returns (ok: bool)
      requires Valid()
      modifies this
      ensures Valid() && stale == T.StaleAfter(old(stale), old(base), Writer.SetEventDC(id, title, start, sid, md))
      ensures ok <==> !Fails(old(base), Writer.SetEventDC(id, title, start, sid, md))
      ensures State() == Transact(old(State()), Writer.SetEventDC(id, title, start, sid, md))
    {
      ghost var was := State();
      if id in base.events && !base.events[id].deleted {
        if sid.Some? && sid.value !in base.series {
        Committed(was, Writer.SetEventDC(id, title, start, sid, md));
        return false;
      }
        base := base.(events := base.events[id := base.events[id].(title := title, start := start, seriesId := sid)]);
      }
      if id !in base.events {
        Committed(was, Writer.SetEventDC(id, title, start, sid, md));
        return false;
      }
      base := base.(metadata := base.metadata[id := md]);
      ok := RefreshEvent(id);
      Committed(was, Writer.SetEventDC(id, title, start, sid, md));
    }

    method PutSeries(sid: SeriesId, smd: SeriesMetadata)
      requires Valid()
      modifies this
      ensures Valid() && stale == T.StaleAfter(old(stale), old(base), Writer.PutSeries(sid, smd))
      ensures State() == Transact(old(State()), Writer.PutSeries(sid, smd))
    {
      ghost var was := State();
      if sid in base.series {
        base := base.(series := base.series[sid := base.series[sid].(md := smd)]);
      } else {
        base := base.(series := base.series[sid := SeriesRow(smd, false)]);
      }
      RefreshSeries(sid);
      Committed(was, Writer.PutSeries(sid, smd));
    }

    method Publish(id: EventId, channel: Channel) returns (ok: bool)
      requires Valid()
      modifies this
      ensures Valid() && stale == T.StaleAfter(old(stale), old(base), Writer.Publish(id, channel))
      ensures ok <==> id in old(base).events
      ensures State() == Transact(old(State()), Writer.Publish(id, channel))
      ensures ok ==> (id, channel) in base.pins
      ensures ok ==> Says(old(base).policies, EventScope, id, "read", base.pins[(id, channel)].aclRead)
      ensures ok ==> IsState(old(base).policies, EventScope, id, base.pins[(id, channel)].aclState)
    {
      GrantedSays(base.policies, EventScope, id, "read");
      ghost var was := State();
      if id !in base.events {
        Committed(was, Writer.Publish(id, channel));
        return false;
      }
      base := base.(pins := base.pins[(id, channel) := PinOf(base, id)]);
      ok := RefreshEvent(id);
      Committed(was, Writer.Publish(id, channel));
    }

    /** The publications of the event go with it; the row stays, dated. */
    method TombstoneEvent(id: EventId) returns (found: bool)
      requires Valid()
      modifies this
      ensures Valid() && stale == T.StaleAfter(old(stale), old(base), Writer.TombstoneEvent(id))
      ensures found <==> Live(old(base), id)
      ensures State() == Transact(old(State()), Writer.TombstoneEvent(id))
    {
      ghost var was := State();
      if id !in base.events || base.events[id].deleted {
        Committed(was, Writer.TombstoneEvent(id));
        return false;
      }
      base := base.(events := base.events[id := base.events[id].(deleted := true)]);
      base := base.(pins := map k | k in base.pins && k.0 != id :: base.pins[k]);
      found := RefreshEvent(id);
      Committed(was, Writer.TombstoneEvent(id));
    }

    method TombstoneSeries(sid: SeriesId) returns (found: bool)
      requires Valid()
      modifies this
      ensures Valid() && stale == T.StaleAfter(old(stale), old(base), Writer.TombstoneSeries(sid))
      ensures found <==> LiveSeries(old(base), sid)
      ensures State() == Transact(old(State()), Writer.TombstoneSeries(sid))
    {
      ghost var was := State();
      if sid !in base.series || base.series[sid].deleted {
        Committed(was, Writer.TombstoneSeries(sid));
        return false;
      }
      base := base.(series := base.series[sid := base.series[sid].(deleted := true)]);
      RefreshSeries(sid);
      found := true;
      Committed(was, Writer.TombstoneSeries(sid));
    }

    /** The whole projection re-derived, events first: a series row reads theirs. */
    method Rebuild()
      requires Valid()
      modifies `index, `stale
      ensures Valid() && index == Rebuilt(base) && stale == {}
    {
      index := Index(map[], map[]);
      RebuildEvents();
      RebuildSeries();
      stale := {};
      Runs.RebuiltAgrees(base);
    }

    method RebuildEvents()
      requires index == Index(map[], map[])
      modifies `index
      ensures index == Index(Rebuilt(base).events, map[])
    {
      var todo := set id | id in base.events && Live(base, id);
      while todo != {}
        invariant forall id :: id in todo ==> Live(base, id)
        invariant index.series == map[]
        invariant forall id :: id in index.events <==> Live(base, id) && id !in todo
        invariant forall id :: id in index.events ==> index.events[id] == EventDocOf(base, id)
        decreases todo
      {
        var id :| id in todo;
        todo := todo - {id};
        index := index.(events := index.events[id := EventDocOf(base, id)]);
      }
      assert index.events == Rebuilt(base).events;
    }

    method RebuildSeries()
      requires index == Index(Rebuilt(base).events, map[])
      modifies `index
      ensures index == Rebuilt(base)
    {
      var todo := set sid | sid in base.series && LiveSeries(base, sid);
      ghost var docs := index.events;
      while todo != {}
        invariant forall sid :: sid in todo ==> LiveSeries(base, sid)
        invariant index.events == docs
        invariant forall sid :: sid in index.series <==> LiveSeries(base, sid) && sid !in todo
        invariant forall sid :: sid in index.series ==> index.series[sid] == SeriesDocOf(base, docs, sid)
        decreases todo
      {
        var sid :| sid in todo;
        todo := todo - {sid};
        index := index.(series := index.series[sid := SeriesDocOf(base, index.events, sid)]);
      }
      assert index.series == Rebuilt(base).series;
    }
  }
}
