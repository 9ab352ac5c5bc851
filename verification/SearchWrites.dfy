/** What each writer changes of the tables, and what a projected row shows of
    them, both stated on the stored rows (internal/mediapackage,
    internal/search/project.go). */
module SearchWrites {
  import opened Common
  import opened Acl
  import opened SearchModel
  import opened SearchTheory
  import opened SearchRuns

  // ---- what a transaction changes ----

  predicate AllNamed(entries: seq<Entry>) {
    forall e :: e in entries ==> e.role != "" && e.action != ""
  }

  /** The entry list a committed transaction gives the policy of (scope, id): an
      ACL write for it, or a series write that overrides its live members. */
  function PolicyGiven(b: Base, w: Writer, scope: Scope, id: string): Option<seq<Entry>> {
    match w
    case SetACL(sc, target, entries) =>
      if sc == scope && target == id && AllNamed(entries) && (scope == EventScope ==> id in b.events) then Some(entries) else None
    case SetSeriesACL(sid, entries, override) =>
      if AllNamed(entries)
         && ((scope == SeriesScope && id == sid)
             || (scope == EventScope && override && id in b.events && !b.events[id].deleted && b.events[id].seriesId == Some(sid)))
      then Some(entries) else None
    case _ => None
  }

  /** The tables after a transaction, whatever it refreshes. */
  function BaseAfter(b: Base, w: Writer): (b': Base)
    ensures forall ix :: Transact(Catalog(b, ix), w).base == b'
  {
    if Fails(b, w) then b else WriteBase(b, w)
  }

  ghost predicate PolicyBecomes(p: Policies, p': Policies, scope: Scope, id: string, given: Option<seq<Entry>>) {
    && (given.Some? ==> (scope, id) in p' && forall e :: e in p'[(scope, id)] <==> e in given.value)
    && (given.None? ==> ((scope, id) in p' <==> (scope, id) in p))
    && (given.None? && (scope, id) in p ==> p'[(scope, id)] == p[(scope, id)])
  }

  lemma {:induction false} SeriesPolicyBecomes(b: Base, w: Writer, scope: Scope, id: string)
    requires w.SetSeriesACL?
    ensures PolicyBecomes(b.policies, BaseAfter(b, w).policies, scope, id, PolicyGiven(b, w, scope, id))
  {
    assert Fails(b, w) <==> !AllNamed(w.entries);
    if !Fails(b, w) {
      var ps := b.policies[(SeriesScope, w.sid) := SetOf(w.entries)];
      assert BaseAfter(b, w).policies == if w.override then OverrideMembers(b, ps, w.sid, SetOf(w.entries)) else ps;
    }
  }

  lemma {:induction false} OnePolicyBecomes(b: Base, w: Writer, scope: Scope, id: string)
    requires w.SetACL?
    ensures PolicyBecomes(b.policies, BaseAfter(b, w).policies, scope, id, PolicyGiven(b, w, scope, id))
  {
    assert Writable(w.entries) <==> AllNamed(w.entries);
  }

  /** A policy changes exactly by such a write, and then holds exactly its entries. */
  lemma {:induction false} PolicyChangesExactly(c: Catalog, w: Writer, scope: Scope, id: string)
    ensures PolicyBecomes(c.base.policies, Transact(c, w).base.policies, scope, id, PolicyGiven(c.base, w, scope, id))
  {
    assert c == Catalog(c.base, c.index);
    if w.SetSeriesACL? {
      SeriesPolicyBecomes(c.base, w, scope, id);
    } else if w.SetACL? {
      OnePolicyBecomes(c.base, w, scope, id);
    } else {
      assert BaseAfter(c.base, w).policies == c.base.policies;
    }
  }

  function MetadataGiven(b: Base, w: Writer, id: EventId): Option<Metadata> {
    match w
    case SetMetadata(i, sid, md) => if i == id && id in b.events && (sid.Some? ==> sid.value in b.series) then Some(md) else None
    case SetEventDC(i, _, _, sid, md) =>
      if i == id && id in b.events && (!b.events[id].deleted && sid.Some? ==> sid.value in b.series) then Some(md) else None
    case _ => None
  }

  lemma {:induction false} MetadataChangesExactly(c: Catalog, w: Writer, id: EventId)
    ensures var m, m', given := c.base.metadata, Transact(c, w).base.metadata, MetadataGiven(c.base, w, id);
      && (given.Some? ==> id in m' && m'[id] == given.value)
      && (given.None? ==> (id in m' <==> id in m))
      && (given.None? && id in m ==> m'[id] == m[id])
  {
    assert Transact(c, w).base == BaseAfter(c.base, w) by { assert c == Catalog(c.base, c.index); }
  }

  lemma {:induction false} NewEventRow(b: Base, w: Writer, id: EventId)
    requires id !in b.events
    ensures var e' := BaseAfter(b, w).events;
      && (id in e' <==> w.Materialise? && w.id == id)
      && (id in e' ==> e'[id] == EventRow(w.title, w.start, w.durationMs, None, false))
  {
  }

  lemma {:induction false} OldEventRow(b: Base, w: Writer, id: EventId)
    requires id in b.events
    ensures var e, e' := b.events, BaseAfter(b, w).events;
      && id in e' && e'[id].deleted == (e[id].deleted || w == TombstoneEvent(id))
      && e'[id].durationMs == if e[id].durationMs.None? && w.SetDurationIfNull? && w.id == id then Some(w.ms) else e[id].durationMs
  {
  }

  /** Event rows appear by materialisation alone and never go; a row is tombstoned
      once and for good, and its duration is set once. */
  lemma {:induction false} EventRowChangesExactly(c: Catalog, w: Writer, id: EventId)
    ensures var e, e' := c.base.events, Transact(c, w).base.events;
      && (id !in e ==> (id in e' <==> w.Materialise? && w.id == id))
      && (id !in e && id in e' ==> e'[id] == EventRow(w.title, w.start, w.durationMs, None, false))
      && (id in e ==> id in e' && e'[id].deleted == (e[id].deleted || w == TombstoneEvent(id)))
      && (id in e ==> e'[id].durationMs == if e[id].durationMs.None? && w.SetDurationIfNull? && w.id == id then Some(w.ms) else e[id].durationMs)
  {
    assert c == Catalog(c.base, c.index);
    if id in c.base.events { OldEventRow(c.base, w, id); } else { NewEventRow(c.base, w, id); }
  }

  /** The archive's own columns: title and start change by a catalog write while the
      event is live, the series by that or by a metadata write; only to a series
      that exists. */
  lemma {:induction false} CatalogColumnsChangeExactly(c: Catalog, w: Writer, id: EventId)
    requires id in c.base.events
    ensures var b, row := c.base, c.base.events[id];
      var known := (w.SetMetadata? || w.SetEventDC?) && w.id == id && (w.seriesId.Some? ==> w.seriesId.value in b.series);
      && id in Transact(c, w).base.events
      && var row' := Transact(c, w).base.events[id];
      && row'.title == (if known && w.SetEventDC? && !row.deleted then w.title else row.title)
      && row'.start == (if known && w.SetEventDC? && !row.deleted then w.start else row.start)
      && row'.seriesId == (if known && (w.SetMetadata? || !row.deleted) then w.seriesId else row.seriesId)
  {
  }

  /** Series appear by a write of their metadata, which a tombstone survives. */
  lemma {:induction false} SeriesChangesExactly(c: Catalog, w: Writer, sid: SeriesId)
    ensures var s, s' := c.base.series, Transact(c, w).base.series;
      var put, was := w.PutSeries? && w.sid == sid, sid in s && s[sid].deleted;
      && (sid in s' <==> sid in s || put)
      && (sid in s' ==> s'[sid].deleted == (was || (sid in s && w == TombstoneSeries(sid))))
      && (put ==> s'[sid].md == w.smd)
      && (!put && sid in s ==> s'[sid].md == s[sid].md)
  {
  }

  /** A publication appears by a publish or a migrated pin and goes with its event. */
  lemma {:induction false} PinsChangeExactly(c: Catalog, w: Writer, id: EventId, channel: Channel)
    ensures var b, p, p', key := c.base, c.base.pins, Transact(c, w).base.pins, (id, channel);
      var publishes := w == Publish(id, channel) && id in b.events;
      var migrates := w.MigratePin? && w.id == id && channel == "engage-player" && id in b.events;
      var retracts := w == TombstoneEvent(id) && id in b.events && !b.events[id].deleted;
      && (key in p' <==> publishes || migrates || (key in p && !retracts))
      && (publishes ==> Says(b.policies, EventScope, id, "read", p'[key].aclRead) && IsState(b.policies, EventScope, id, p'[key].aclState))
      && (migrates ==> p'[key] == w.pin)
      && (!publishes && !migrates && key in p' ==> p'[key] == p[key])
  {
    GrantedSays(c.base.policies, EventScope, id, "read");
  }

  // ---- what a row shows ----

  /** Every column of an event's row, in terms of the tables. */
  ghost predicate ShowsEvent(b: Base, id: EventId, doc: EventDoc) {
    && id in b.events
    && var row := b.events[id];
    && doc.title == row.title && doc.seriesId == row.seriesId && doc.durationMs == row.durationMs
    && (row.seriesId.Some? && row.seriesId.value in b.series ==> doc.seriesTitle == b.series[row.seriesId.value].md.title)
    && (row.seriesId.None? || row.seriesId.value !in b.series ==> doc.seriesTitle == None)
    && (id in b.metadata ==> doc.md == b.metadata[id])
    && (id !in b.metadata ==> doc.md == Metadata([], [], None, None, [], None, None, None, None))
    && doc.startDate == (if row.start.Some? then row.start else if id in b.metadata then b.metadata[id].created else None)
    && IsState(b.policies, EventScope, id, doc.aclState)
    && Says(b.policies, EventScope, id, "read", doc.aclRead)
    && Says(b.policies, EventScope, id, "write", doc.aclWrite)
    && (doc.published <==> exists k :: k in b.pins && k.0 == id)
    && (forall r :: r in doc.pubRead <==> (id, "engage-player") in b.pins && r in b.pins[(id, "engage-player")].aclRead)
  }

  /** The same for a series; its engage columns gather the published live members. */
  ghost predicate ShowsSeries(b: Base, sid: SeriesId, doc: SeriesDoc) {
    && sid in b.series && doc.md == b.series[sid].md
    && IsState(b.policies, SeriesScope, sid, doc.aclState)
    && Says(b.policies, SeriesScope, sid, "read", doc.aclRead)
    && Says(b.policies, SeriesScope, sid, "write", doc.aclWrite)
    && (doc.hasPublished <==> exists id :: Episode(b, id, sid))
    && (forall r :: r in doc.pubRead <==>
          exists id :: Episode(b, id, sid) && (id, "engage-player") in b.pins && r in b.pins[(id, "engage-player")].aclRead)
  }

  /** A live member of the series with a publication on any channel. */
  ghost predicate Episode(b: Base, id: EventId, sid: SeriesId) {
    && id in b.events && !b.events[id].deleted && b.events[id].seriesId == Some(sid)
    && exists k :: k in b.pins && k.0 == id
  }

  lemma {:induction false} EventDocShows(b: Base, id: EventId)
    requires id in b.events
    ensures ShowsEvent(b, id, EventDocOf(b, id))
  {
    GrantedSays(b.policies, EventScope, id, "read");
    GrantedSays(b.policies, EventScope, id, "write");
  }

  lemma {:induction false} SeriesDocShows(b: Base, sid: SeriesId)
    requires sid in b.series
    ensures ShowsSeries(b, sid, SeriesDocOf(b, Rebuilt(b).events, sid))
  {
    GrantedSays(b.policies, SeriesScope, sid, "read");
    GrantedSays(b.policies, SeriesScope, sid, "write");
    EngageColumns(b, sid);
    var doc := SeriesDocOf(b, Rebuilt(b).events, sid);
    forall id ensures Episode(b, id, sid) <==> id in b.events && id !in {} && SearchRuns.Shows(b, id, sid) { }
    if HasOthers(b, sid, {}) { var id :| id in b.events && id !in {} && SearchRuns.Shows(b, id, sid); assert Episode(b, id, sid); }
    forall r ensures r in doc.pubRead <==>
      exists id :: Episode(b, id, sid) && (id, "engage-player") in b.pins && r in b.pins[(id, "engage-player")].aclRead
    {
      if r in doc.pubRead {
        var id :| id in b.events && id !in {} && SearchRuns.Shows(b, id, sid) && r in EngagePin(b, id);
        assert Episode(b, id, sid);
      }
      if id :| Episode(b, id, sid) && (id, "engage-player") in b.pins && r in b.pins[(id, "engage-player")].aclRead {
        assert id !in {} && SearchRuns.Shows(b, id, sid) && r in EngagePin(b, id);
      }
    }
  }

  /** After every run of writers exactly the live events are listed, each with the
      columns the tables give it, and so are the live series but those left by a
      move and not refreshed since. */
  lemma {:induction false} RowsShowTables(c: Catalog, ws: seq<Writer>)
    requires ValidBase(c.base) && c.index == Rebuilt(c.base)
    ensures var b, ix := RunWriters(c, ws).base, RunWriters(c, ws).index;
      && (forall id :: id in ix.events <==> id in b.events && !b.events[id].deleted)
      && (forall id :: id in ix.events ==> ShowsEvent(b, id, ix.events[id]))
      && (forall sid :: sid !in StaleRun(c, ws) ==> (sid in ix.series <==> sid in b.series && !b.series[sid].deleted))
      && (forall sid :: sid !in StaleRun(c, ws) && sid in ix.series ==> ShowsSeries(b, sid, ix.series[sid]))
  {
    RunAgrees(c, ws);
    var b, ix := RunWriters(c, ws).base, RunWriters(c, ws).index;
    forall id ensures id in ix.events <==> id in b.events && !b.events[id].deleted
      ensures id in ix.events ==> ShowsEvent(b, id, ix.events[id])
    {
      RebuiltEvents(b, id);
      if id in b.events { EventDocShows(b, id); }
    }
    forall sid | sid !in StaleRun(c, ws)
      ensures sid in ix.series <==> sid in b.series && !b.series[sid].deleted
      ensures sid in ix.series ==> ShowsSeries(b, sid, ix.series[sid])
    {
      assert SeriesAgrees(b, ix, sid);
      if sid in b.series { SeriesDocShows(b, sid); }
    }
  }

  /** What is final: a tombstone, and a duration once set. */
  lemma {:induction false} TombstonesAndDurationsStay(c: Catalog, ws: seq<Writer>, id: EventId, sid: SeriesId)
    ensures var b, b' := c.base, RunWriters(c, ws).base;
      && (id in b.events ==> id in b'.events)
      && (id in b.events && b.events[id].deleted ==> b'.events[id].deleted)
      && (id in b.events && b.events[id].durationMs.Some? ==> b'.events[id].durationMs == b.events[id].durationMs)
      && (sid in b.series && b.series[sid].deleted ==> sid in b'.series && b'.series[sid].deleted)
  {
    if ws != [] {
      var before := ws[..|ws| - 1];
      TombstonesAndDurationsStay(c, before, id, sid);
      EventRowChangesExactly(RunWriters(c, before), ws[|ws| - 1], id);
      SeriesChangesExactly(RunWriters(c, before), ws[|ws| - 1], sid);
    }
  }
}
