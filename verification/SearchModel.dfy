/** The authoritative tables, the search projection derived from them, and each
    writer transaction as a function (internal/search/project.go,
    internal/mediapackage). */
module SearchModel {
  import opened Common
  import opened Acl

  type EventId = string
  type SeriesId = string
  type Channel = string

  datatype EventRow = EventRow(title: Option<string>, start: Option<int>, durationMs: Option<int>, seriesId: Option<SeriesId>, deleted: bool)

  datatype Metadata = Metadata(
    creators: seq<string>, contributors: seq<string>, language: Option<string>, description: Option<string>,
    subjects: seq<string>, location: Option<string>, license: Option<string>, created: Option<int>, status: Option<string>)

  datatype SeriesMetadata = SeriesMetadata(
    title: Option<string>, contributors: seq<string>, organizers: seq<string>, language: Option<string>,
    description: Option<string>, subjects: seq<string>, created: Option<int>)

  datatype SeriesRow = SeriesRow(md: SeriesMetadata, deleted: bool)

  /** The publish-time pin of one (event, channel). */
  datatype Pin = Pin(aclRead: set<Role>, aclState: AclState)

  datatype Base = Base(
    events: map<EventId, EventRow>,
    metadata: map<EventId, Metadata>,
    series: map<SeriesId, SeriesRow>,
    policies: Policies,
    pins: map<(EventId, Channel), Pin>)

  datatype EventDoc = EventDoc(
    title: Option<string>, seriesId: Option<SeriesId>, seriesTitle: Option<string>, md: Metadata,
    startDate: Option<int>, durationMs: Option<int>,
    aclState: AclState, aclRead: set<Role>, aclWrite: set<Role>, published: bool, pubRead: set<Role>)

  datatype SeriesDoc = SeriesDoc(
    md: SeriesMetadata, aclState: AclState, aclRead: set<Role>, aclWrite: set<Role>,
    pubRead: set<Role>, hasPublished: bool)

  datatype Index = Index(events: map<EventId, EventDoc>, series: map<SeriesId, SeriesDoc>)

  datatype Catalog = Catalog(base: Base, index: Index)

  const ENGAGE: Channel := "engage-player"

  predicate Live(b: Base, id: EventId) {
    id in b.events && !b.events[id].deleted
  }

  predicate LiveSeries(b: Base, sid: SeriesId) {
    sid in b.series && !b.series[sid].deleted
  }

  predicate IsMember(b: Base, id: EventId, sid: SeriesId) {
    Live(b, id) && b.events[id].seriesId == Some(sid)
  }

  function MetadataOf(b: Base, id: EventId): Metadata {
    if id in b.metadata then b.metadata[id] else Metadata([], [], None, None, [], None, None, None, None)
  }

  predicate IsPublished(b: Base, id: EventId) {
    exists k :: k in b.pins && k.0 == id
  }

  /** projectEventSQL: one row re-derived from the tables, nothing carried over. */
  function EventDocOf(b: Base, id: EventId): EventDoc
    requires id in b.events
  {
    var row, md := b.events[id], MetadataOf(b, id);
    EventDoc(row.title, row.seriesId,
      if row.seriesId.Some? && row.seriesId.value in b.series then b.series[row.seriesId.value].md.title else None,
      md, if row.start.Some? then row.start else md.created, row.durationMs,
      StateOf(b.policies, EventScope, id),
      Granted(EntriesOf(b.policies, EventScope, id), "read"),
      Granted(EntriesOf(b.policies, EventScope, id), "write"),
      IsPublished(b, id),
      if (id, ENGAGE) in b.pins then b.pins[(id, ENGAGE)].aclRead else {})
  }

  /** A row of search_event that counts for the series' engage columns. */
  predicate Contributes(docs: map<EventId, EventDoc>, id: EventId, sid: SeriesId) {
    id in docs && docs[id].seriesId == Some(sid) && docs[id].published
  }

  function EpisodeRoles(docs: map<EventId, EventDoc>, sid: SeriesId): set<Role> {
    set id, r | id in docs && Contributes(docs, id, sid) && r in docs[id].pubRead :: r
  }

  /** projectSeriesSQL: the engage columns come from the event rows of the
      projection, not from the tables. */
  function SeriesDocOf(b: Base, docs: map<EventId, EventDoc>, sid: SeriesId): SeriesDoc
    requires sid in b.series
  {
    SeriesDoc(b.series[sid].md,
      StateOf(b.policies, SeriesScope, sid),
      Granted(EntriesOf(b.policies, SeriesScope, sid), "read"),
      Granted(EntriesOf(b.policies, SeriesScope, sid), "write"),
      EpisodeRoles(docs, sid),
      exists id :: id in docs && Contributes(docs, id, sid))
  }

  /** The whole projection re-derived: the specification of every refresh. */
  function Rebuilt(b: Base): Index {
    var docs := map id | id in b.events && Live(b, id) :: EventDocOf(b, id);
    Index(docs, map sid | sid in b.series && LiveSeries(b, sid) :: SeriesDocOf(b, docs, sid))
  }

  // ---- refreshes ----

  function ProjectSeriesRow(b: Base, ix: Index, sid: SeriesId): Index {
    if LiveSeries(b, sid) then ix.(series := ix.series[sid := SeriesDocOf(b, ix.events, sid)])
    else ix.(series := ix.series - {sid})
  }

  /** The event's row, then the row of the series it is in now. */
  function ProjectEvent(b: Base, ix: Index, id: EventId): Index
    requires id in b.events
  {
    var ix1 := if b.events[id].deleted then ix.(events := ix.events - {id})
               else ix.(events := ix.events[id := EventDocOf(b, id)]);
    if b.events[id].seriesId.Some? then ProjectSeriesRow(b, ix1, b.events[id].seriesId.value) else ix1
  }

  function ProjectMembers(b: Base, ix: Index, sid: SeriesId): Index {
    ix.(events := map id | id in ix.events.Keys + b.events.Keys && (id in ix.events || IsMember(b, id, sid)) ::
      if IsMember(b, id, sid) then EventDocOf(b, id) else ix.events[id])
  }

  function ProjectSeries(b: Base, ix: Index, sid: SeriesId): Index {
    ProjectSeriesRow(b, ProjectMembers(b, ix, sid), sid)
  }

  // ---- writers ----

  datatype Writer =
    | Materialise(id: EventId, title: Option<string>, start: Option<int>, durationMs: Option<int>)
    | SetMetadata(id: EventId, seriesId: Option<SeriesId>, md: Metadata)
    | SetEventDC(id: EventId, title: Option<string>, start: Option<int>, seriesId: Option<SeriesId>, md: Metadata)
    | SetDurationIfNull(id: EventId, ms: int)
    | PutSeries(sid: SeriesId, smd: SeriesMetadata)
    | SetACL(scope: Scope, target: string, entries: seq<Entry>)
    | SetSeriesACL(sid: SeriesId, entries: seq<Entry>, override: bool)
    | Publish(id: EventId, channel: Channel)
    | MigratePin(id: EventId, pin: Pin)
    | TombstoneEvent(id: EventId)
    | TombstoneSeries(sid: SeriesId)
    | Rebuild

  /** The pin is evaluated at this instant: read-granted roles and the state. */
  function PinOf(b: Base, id: EventId): Pin {
    Pin(Granted(EntriesOf(b.policies, EventScope, id), "read"), StateOf(b.policies, EventScope, id))
  }

  /** A transaction fails, and rolls back, on a missing event row, a foreign key
      or an unwritable entry. */
  predicate Fails(b: Base, w: Writer) {
    match w
    case SetMetadata(id, sid, _) => id !in b.events || (sid.Some? && sid.value !in b.series)
    case SetEventDC(id, _, _, sid, _) => id !in b.events || (Live(b, id) && sid.Some? && sid.value !in b.series)
    case SetDurationIfNull(id, _) => id !in b.events
    case SetACL(scope, target, entries) => !Writable(entries) || (scope == EventScope && target !in b.events)
    case SetSeriesACL(_, entries, _) => !Writable(entries)
    case Publish(id, _) => id !in b.events
    case MigratePin(id, _) => id !in b.events
    case _ => false
  }

  /** What the transaction writes to the authoritative tables. */
  function WriteBase(b: Base, w: Writer): Base
    requires !Fails(b, w)
  {
    match w
    case Materialise(id, title, start, ms) =>
      if id in b.events then b else b.(events := b.events[id := EventRow(title, start, ms, None, false)])
    case SetMetadata(id, sid, md) =>
      b.(metadata := b.metadata[id := md], events := b.events[id := b.events[id].(seriesId := sid)])
    case SetEventDC(id, title, start, sid, md) =>
      b.(metadata := b.metadata[id := md],
         events := if Live(b, id) then b.events[id := b.events[id].(title := title, start := start, seriesId := sid)] else b.events)
    case SetDurationIfNull(id, ms) =>
      if b.events[id].durationMs.Some? then b else b.(events := b.events[id := b.events[id].(durationMs := Some(ms))])
    case PutSeries(sid, smd) =>
      b.(series := b.series[sid := SeriesRow(smd, sid in b.series && b.series[sid].deleted)])
    case SetACL(scope, target, entries) => b.(policies := b.policies[(scope, target) := SetOf(entries)])
    case SetSeriesACL(sid, entries, override) =>
      var ps := b.policies[(SeriesScope, sid) := SetOf(entries)];
      b.(policies := if override then OverrideMembers(b, ps, sid, SetOf(entries)) else ps)
    case Publish(id, channel) => b.(pins := b.pins[(id, channel) := PinOf(b, id)])
    case MigratePin(id, pin) => b.(pins := b.pins[(id, ENGAGE) := pin])
    case TombstoneEvent(id) =>
      if !Live(b, id) then b else
        b.(events := b.events[id := b.events[id].(deleted := true)],
           pins := map k | k in b.pins && k.0 != id :: b.pins[k])
    case TombstoneSeries(sid) =>
      if !LiveSeries(b, sid) then b else b.(series := b.series[sid := b.series[sid].(deleted := true)])
    case Rebuild => b
  }

  /** The live events of a series. */
  function MembersOf(b: Base, sid: SeriesId): set<EventId> {
    set id | id in b.events && IsMember(b, id, sid)
  }

  function OverrideMembers(b: Base, ps: Policies, sid: SeriesId, entries: set<Entry>): Policies {
    Overridden(ps, MembersOf(b, sid), entries)
  }

  function Overridden(ps: Policies, ids: set<EventId>, entries: set<Entry>): Policies {
    ps + map id | id in ids :: (EventScope, id) := entries
  }

  /** Which refresh the transaction ends with. */
  datatype Refresh = RefreshNone | RefreshEvent(id: EventId) | RefreshSeries(sid: SeriesId) | RefreshAll

  function RefreshOf(b: Base, w: Writer): Refresh {
    match w
    case Materialise(id, _, _, _) => RefreshEvent(id)
    case SetMetadata(id, _, _) => RefreshEvent(id)
    case SetEventDC(id, _, _, _, _) => RefreshEvent(id)
    case SetDurationIfNull(id, _) => RefreshEvent(id)
    case PutSeries(sid, _) => RefreshSeries(sid)
    case SetACL(scope, target, _) => if scope == EventScope then RefreshEvent(target) else RefreshSeries(target)
    case SetSeriesACL(sid, _, _) => RefreshSeries(sid)
    case Publish(id, _) => RefreshEvent(id)
    case MigratePin(id, _) => RefreshEvent(id)
    case TombstoneEvent(id) => if Live(b, id) then RefreshEvent(id) else RefreshNone
    case TombstoneSeries(sid) => if LiveSeries(b, sid) then RefreshSeries(sid) else RefreshNone
    case Rebuild => RefreshAll
  }

  function DoRefresh(b: Base, ix: Index, r: Refresh): Index
    requires r.RefreshEvent? ==> r.id in b.events
  {
    match r
    case RefreshNone => ix
    case RefreshEvent(id) => ProjectEvent(b, ix, id)
    case RefreshSeries(sid) => ProjectSeries(b, ix, sid)
    case RefreshAll => Rebuilt(b)
  }

  /** One writer transaction. */
  function Transact(c: Catalog, w: Writer): Catalog {
    if Fails(c.base, w) then c
    else
      var b := WriteBase(c.base, w);
      Catalog(b, DoRefresh(b, c.index, RefreshOf(c.base, w)))
  }

  function RunWriters(c: Catalog, ws: seq<Writer>): Catalog {
    if ws == [] then c else Transact(RunWriters(c, ws[..|ws| - 1]), ws[|ws| - 1])
  }
}
