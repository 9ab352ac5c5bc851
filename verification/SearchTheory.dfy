/** The projection equals its rebuild after every writer transaction, except for
    the series that a published event was moved out of. */
module SearchTheory {
  import opened Common
  import opened Acl
  import opened SearchModel

  /** The foreign keys. */
  ghost predicate ValidBase(b: Base) {
    && (forall id :: id in b.events && b.events[id].seriesId.Some? ==> b.events[id].seriesId.value in b.series)
    && (forall id :: id in b.metadata ==> id in b.events)
    && (forall k :: k in b.pins ==> k.0 in b.events)
  }

  /** The row of one series agrees with the rebuild. */
  ghost predicate SeriesAgrees(b: Base, ix: Index, sid: SeriesId) {
    var r := Rebuilt(b).series;
    (sid in ix.series <==> sid in r) && (sid in r ==> ix.series[sid] == r[sid])
  }

  /** Every event row agrees, and every series row outside `stale`. */
  ghost predicate Agrees(c: Catalog, stale: set<SeriesId>) {
    && ValidBase(c.base)
    && c.index.events == Rebuilt(c.base).events
    && forall sid :: sid !in stale ==> SeriesAgrees(c.base, c.index, sid)
  }

  /** The series a transaction moves a published event out of. */
  function LeftSeries(b: Base, w: Writer): set<SeriesId> {
    match w
    case SetMetadata(id, sid, _) => MovedFrom(b, id, sid)
    case SetEventDC(id, _, _, sid, _) => MovedFrom(b, id, sid)
    case _ => {}
  }

  function MovedFrom(b: Base, id: EventId, sid: Option<SeriesId>): set<SeriesId> {
    if Live(b, id) && IsPublished(b, id) && b.events[id].seriesId.Some? && b.events[id].seriesId != sid
    then {b.events[id].seriesId.value} else {}
  }

  /** The series whose row the transaction's refresh re-derives. */
  function Refreshed(b: Base, r: Refresh): set<SeriesId> {
    match r
    case RefreshEvent(id) => if id in b.events && b.events[id].seriesId.Some? then {b.events[id].seriesId.value} else {}
    case RefreshSeries(sid) => {sid}
    case _ => {}
  }

  /** Series rows that may be out of date after one more transaction. */
  function StaleAfter(stale: set<SeriesId>, b: Base, w: Writer): set<SeriesId> {
    if Fails(b, w) then stale
    else if w.Rebuild? then {}
    else (stale + LeftSeries(b, w)) - Refreshed(WriteBase(b, w), RefreshOf(b, w))
  }

  // ---- series rows depend on little ----

  /** `docs` and `docs'` show the same episodes of `sid` to the engage columns. */
  ghost predicate SameEpisodes(docs: map<EventId, EventDoc>, docs': map<EventId, EventDoc>, sid: SeriesId) {
    forall id :: Contributes(docs, id, sid) || Contributes(docs', id, sid) ==>
      Contributes(docs, id, sid) && Contributes(docs', id, sid) && docs[id].pubRead == docs'[id].pubRead
  }

  lemma {:induction false} SameEpisodesSameColumns(docs: map<EventId, EventDoc>, docs': map<EventId, EventDoc>, sid: SeriesId)
    requires SameEpisodes(docs, docs', sid)
    ensures EpisodeRoles(docs, sid) == EpisodeRoles(docs', sid)
    ensures (exists id :: id in docs && Contributes(docs, id, sid)) <==> (exists id :: id in docs' && Contributes(docs', id, sid))
  {
    forall r ensures r in EpisodeRoles(docs, sid) <==> r in EpisodeRoles(docs', sid) {
      if r in EpisodeRoles(docs, sid) {
        var id :| id in docs && Contributes(docs, id, sid) && r in docs[id].pubRead;
        assert Contributes(docs', id, sid);
      }
      if r in EpisodeRoles(docs', sid) {
        var id :| id in docs' && Contributes(docs', id, sid) && r in docs'[id].pubRead;
        assert Contributes(docs, id, sid);
      }
    }
    if id :| id in docs && Contributes(docs, id, sid) { assert Contributes(docs', id, sid); }
    if id :| id in docs' && Contributes(docs', id, sid) { assert Contributes(docs, id, sid); }
  }

  /** Nothing the row of `sid` reads has changed. */
  ghost predicate SameSeriesInputs(b: Base, b': Base, sid: SeriesId) {
    && (sid in b.series <==> sid in b'.series)
    && (sid in b.series ==> b'.series[sid] == b.series[sid])
    && StateOf(b'.policies, SeriesScope, sid) == StateOf(b.policies, SeriesScope, sid)
    && EntriesOf(b'.policies, SeriesScope, sid) == EntriesOf(b.policies, SeriesScope, sid)
    && SameEpisodes(Rebuilt(b).events, Rebuilt(b').events, sid)
  }

  lemma {:induction false} UntouchedSeriesAgrees(b: Base, b': Base, ix: Index, ix': Index, sid: SeriesId)
    requires SeriesAgrees(b, ix, sid) && SameSeriesInputs(b, b', sid)
    requires (sid in ix'.series <==> sid in ix.series) && (sid in ix.series ==> ix'.series[sid] == ix.series[sid])
    ensures SeriesAgrees(b', ix', sid)
  {
    SameEpisodesSameColumns(Rebuilt(b).events, Rebuilt(b').events, sid);
  }

  lemma {:induction false} ProjectedSeriesAgrees(b: Base, ix: Index, sid: SeriesId)
    requires ix.events == Rebuilt(b).events
    ensures SeriesAgrees(b, ProjectSeriesRow(b, ix, sid), sid)
  {
  }

  // ---- event rows ----

  /** Outside `touched`, event rows of the rebuild are the same. */
  ghost predicate SameDocsOutside(b: Base, b': Base, touched: set<EventId>) {
    forall id :: id !in touched ==>
      (Live(b', id) <==> Live(b, id)) && (Live(b, id) ==> EventDocOf(b', id) == EventDocOf(b, id))
  }

  lemma {:induction false} RebuiltEvents(b: Base, id: EventId)
    ensures id in Rebuilt(b).events <==> Live(b, id)
    ensures Live(b, id) ==> Rebuilt(b).events[id] == EventDocOf(b, id)
  {
  }

  lemma {:induction false} RefreshEventRow(b: Base, b': Base, ix: Index, id: EventId, i: EventId)
    requires ix.events == Rebuilt(b).events && SameDocsOutside(b, b', {id}) && id in b'.events
    ensures var e := ProjectEvent(b', ix, id).events;
      (i in e <==> Live(b', i)) && (Live(b', i) ==> e[i] == EventDocOf(b', i))
  {
    RebuiltEvents(b, i);
    if i != id {
      assert i !in {id};
      assert i in ProjectEvent(b', ix, id).events <==> i in ix.events;
    }
  }

  lemma {:induction false} RefreshEventAgrees(b: Base, b': Base, ix: Index, id: EventId)
    requires ix.events == Rebuilt(b).events && SameDocsOutside(b, b', {id}) && id in b'.events
    ensures ProjectEvent(b', ix, id).events == Rebuilt(b').events
  {
    var e, r := ProjectEvent(b', ix, id).events, Rebuilt(b').events;
    forall i ensures (i in e <==> i in r) && (i in r ==> e[i] == r[i]) {
      RefreshEventRow(b, b', ix, id, i);
      RebuiltEvents(b', i);
    }
  }

  lemma {:induction false} RefreshMembersAgrees(b: Base, b': Base, ix: Index, sid: SeriesId, touched: set<EventId>)
    requires ix.events == Rebuilt(b).events && SameDocsOutside(b, b', touched)
    requires forall id :: Live(b', id) <==> Live(b, id)
    requires forall id :: id in touched && Live(b', id) ==> IsMember(b', id, sid)
    ensures ProjectMembers(b', ix, sid).events == Rebuilt(b').events
  {
    var r := Rebuilt(b').events;
    var e := ProjectMembers(b', ix, sid).events;
    forall i ensures i in e <==> i in r {
    }
    forall i | i in r ensures e[i] == r[i] {
      if !IsMember(b', i, sid) { assert EventDocOf(b', i) == EventDocOf(b, i); }
    }
  }

  // ---- one event's transactions ----

  /** Everything the row of event `i` is derived from, but for its series' title. */
  ghost predicate SameEventInputs(b: Base, b': Base, i: EventId) {
    && (i in b'.events <==> i in b.events) && (i in b.events ==> b'.events[i] == b.events[i])
    && MetadataOf(b', i) == MetadataOf(b, i)
    && StateOf(b'.policies, EventScope, i) == StateOf(b.policies, EventScope, i)
    && EntriesOf(b'.policies, EventScope, i) == EntriesOf(b.policies, EventScope, i)
    && (IsPublished(b', i) <==> IsPublished(b, i))
    && ((i, ENGAGE) in b'.pins <==> (i, ENGAGE) in b.pins)
    && ((i, ENGAGE) in b.pins ==> b'.pins[(i, ENGAGE)] == b.pins[(i, ENGAGE)])
  }

  ghost predicate SameSeriesPolicy(b: Base, b': Base, sid: SeriesId) {
    && StateOf(b'.policies, SeriesScope, sid) == StateOf(b.policies, SeriesScope, sid)
    && EntriesOf(b'.policies, SeriesScope, sid) == EntriesOf(b.policies, SeriesScope, sid)
  }

  /** Writers that end by refreshing one event touch only what that event's row
      is derived from. */
  ghost predicate OnlyEvent(b: Base, b': Base, id: EventId) {
    && b'.series == b.series
    && (forall i :: i != id ==> SameEventInputs(b, b', i))
    && (forall sid :: SameSeriesPolicy(b, b', sid))
  }

  lemma {:induction false} OnlyEventSameDocs(b: Base, b': Base, id: EventId)
    requires OnlyEvent(b, b', id)
    ensures SameDocsOutside(b, b', {id})
  {
    forall i | i !in {id}
      ensures (Live(b', i) <==> Live(b, i)) && (Live(b, i) ==> EventDocOf(b', i) == EventDocOf(b, i))
    {
      assert SameEventInputs(b, b', i);
    }
  }

  lemma {:induction false} OnlyEventSameSeries(b: Base, b': Base, id: EventId, sid: SeriesId)
    requires OnlyEvent(b, b', id)
    requires id in b'.events && b'.events[id].seriesId != Some(sid)
    requires Live(b, id) && IsPublished(b, id) ==> b.events[id].seriesId != Some(sid)
    ensures SameSeriesInputs(b, b', sid)
  {
    OnlyEventSameDocs(b, b', id);
    assert SameSeriesPolicy(b, b', sid);
    var d, d' := Rebuilt(b).events, Rebuilt(b').events;
    forall i | Contributes(d, i, sid) || Contributes(d', i, sid)
      ensures Contributes(d, i, sid) && Contributes(d', i, sid) && d[i].pubRead == d'[i].pubRead
    {
      RebuiltEvents(b, i);
      RebuiltEvents(b', i);
      assert i != id && i !in {id};
      assert Live(b, i) && EventDocOf(b', i) == EventDocOf(b, i);
    }
  }

  lemma {:induction false} EventSeriesAgrees(c: Catalog, b': Base, id: EventId, stale: set<SeriesId>, sid: SeriesId)
    requires Agrees(c, stale) && OnlyEvent(c.base, b', id) && id in b'.events
    requires ProjectEvent(b', c.index, id).events == Rebuilt(b').events
    requires b'.events[id].seriesId == Some(sid) || (sid !in stale && sid !in MovedFrom(c.base, id, b'.events[id].seriesId))
    ensures SeriesAgrees(b', ProjectEvent(b', c.index, id), sid)
  {
    var ix' := ProjectEvent(b', c.index, id);
    if b'.events[id].seriesId == Some(sid) {
      ProjectedSeriesAgrees(b', Index(ix'.events, c.index.series), sid);
    } else {
      OnlyEventSameSeries(c.base, b', id, sid);
      UntouchedSeriesAgrees(c.base, b', c.index, ix', sid);
    }
  }

  /** The frame of an event transaction: which series rows can go stale. */
  lemma {:induction false} EventTransactionAgrees(c: Catalog, b': Base, id: EventId, stale: set<SeriesId>)
    requires Agrees(c, stale) && ValidBase(b') && OnlyEvent(c.base, b', id) && id in b'.events
    ensures var left := MovedFrom(c.base, id, b'.events[id].seriesId);
      Agrees(Catalog(b', ProjectEvent(b', c.index, id)), (stale + left) - Refreshed(b', RefreshEvent(id)))
  {
    OnlyEventSameDocs(c.base, b', id);
    RefreshEventAgrees(c.base, b', c.index, id);
    var left := MovedFrom(c.base, id, b'.events[id].seriesId);
    forall sid | sid !in (stale + left) - Refreshed(b', RefreshEvent(id))
      ensures SeriesAgrees(b', ProjectEvent(b', c.index, id), sid)
    {
      EventSeriesAgrees(c, b', id, stale, sid);
    }
  }

  // ---- one series' transactions ----

  /** Writers that end by refreshing a series touch its own row and policy, and
      what they change of events belongs to its members. */
  ghost predicate OnlySeries(b: Base, b': Base, sid: SeriesId, touched: set<EventId>) {
    && b'.events == b.events && b'.metadata == b.metadata && b'.pins == b.pins
    && (forall i :: i in touched && Live(b, i) ==> IsMember(b, i, sid))
    && (forall i :: i !in touched ==>
          && StateOf(b'.policies, EventScope, i) == StateOf(b.policies, EventScope, i)
          && EntriesOf(b'.policies, EventScope, i) == EntriesOf(b.policies, EventScope, i))
    && (forall i :: i in b.events && b.events[i].seriesId == Some(sid) && Live(b, i) ==> i in touched)
    && (forall s :: s != sid ==>
          && (s in b'.series <==> s in b.series) && (s in b.series ==> b'.series[s] == b.series[s])
          && StateOf(b'.policies, SeriesScope, s) == StateOf(b.policies, SeriesScope, s)
          && EntriesOf(b'.policies, SeriesScope, s) == EntriesOf(b.policies, SeriesScope, s))
  }

  lemma {:induction false} OnlySeriesSameDocs(b: Base, b': Base, sid: SeriesId, touched: set<EventId>)
    requires OnlySeries(b, b', sid, touched)
    ensures SameDocsOutside(b, b', touched)
    ensures forall id :: Live(b', id) <==> Live(b, id)
  {
    forall id | id !in touched && Live(b, id) ensures EventDocOf(b', id) == EventDocOf(b, id) {
      assert b.events[id].seriesId != Some(sid);
    }
  }

  lemma {:induction false} OnlySeriesSameEpisodes(b: Base, b': Base, sid: SeriesId, touched: set<EventId>, other: SeriesId)
    requires OnlySeries(b, b', sid, touched)
    ensures SameEpisodes(Rebuilt(b).events, Rebuilt(b').events, other)
  {
    var d, d' := Rebuilt(b).events, Rebuilt(b').events;
    forall i | Contributes(d, i, other) || Contributes(d', i, other)
      ensures Contributes(d, i, other) && Contributes(d', i, other) && d[i].pubRead == d'[i].pubRead
    {
      assert Live(b, i) && Live(b', i);
      assert EventDocOf(b, i).seriesId == EventDocOf(b', i).seriesId;
      assert EventDocOf(b, i).published == EventDocOf(b', i).published;
    }
  }

  lemma {:induction false} SeriesTransactionAgrees(c: Catalog, b': Base, sid: SeriesId, touched: set<EventId>, stale: set<SeriesId>)
    requires Agrees(c, stale) && ValidBase(b') && OnlySeries(c.base, b', sid, touched)
    ensures Agrees(Catalog(b', ProjectSeries(b', c.index, sid)), stale - {sid})
  {
    var b, ix := c.base, c.index;
    var ix' := ProjectSeries(b', ix, sid);
    OnlySeriesSameDocs(b, b', sid, touched);
    RefreshMembersAgrees(b, b', ix, sid, touched);
    forall s | s !in stale - {sid} ensures SeriesAgrees(b', ix', s) {
      if s == sid {
        ProjectedSeriesAgrees(b', ProjectMembers(b', ix, sid), sid);
      } else {
        OnlySeriesSameEpisodes(b, b', sid, touched, s);
        UntouchedSeriesAgrees(b, b', ix, ix', s);
      }
    }
  }
}
