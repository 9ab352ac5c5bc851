/** Runs of writer transactions: the projection stays the rebuild, moves are the
    one exception, and the pin remembers the last publish. */
module SearchRuns {
  import opened Common
  import opened Acl
  import opened SearchModel
  import opened SearchTheory

  lemma {:induction false} SparesRow(b: Base, w: Writer, id: EventId, i: EventId)
    requires !Fails(b, w) && RefreshOf(b, w) == RefreshEvent(id) && i != id
    ensures var b' := WriteBase(b, w);
      (i in b'.events <==> i in b.events) && (i in b.events ==> b'.events[i] == b.events[i]) && MetadataOf(b', i) == MetadataOf(b, i)
  {
  }

  lemma {:induction false} SparesPolicy(b: Base, w: Writer, id: EventId, i: EventId)
    requires !Fails(b, w) && RefreshOf(b, w) == RefreshEvent(id) && i != id
    ensures var b' := WriteBase(b, w);
      && StateOf(b'.policies, EventScope, i) == StateOf(b.policies, EventScope, i)
      && EntriesOf(b'.policies, EventScope, i) == EntriesOf(b.policies, EventScope, i)
  {
  }

  lemma {:induction false} SparesPins(b: Base, w: Writer, id: EventId, k: (EventId, Channel))
    requires !Fails(b, w) && RefreshOf(b, w) == RefreshEvent(id) && k.0 != id
    ensures var b' := WriteBase(b, w);
      (k in b'.pins <==> k in b.pins) && (k in b.pins ==> b'.pins[k] == b.pins[k])
  {
  }

  lemma {:induction false} EventWriterSpares(b: Base, w: Writer, id: EventId, i: EventId)
    requires !Fails(b, w) && RefreshOf(b, w) == RefreshEvent(id) && i != id
    ensures SameEventInputs(b, WriteBase(b, w), i)
  {
    SparesRow(b, w, id, i);
    SparesPolicy(b, w, id, i);
    SparesPins(b, w, id, (i, ENGAGE));
    forall k: (EventId, Channel) | k.0 == i ensures k in WriteBase(b, w).pins <==> k in b.pins {
      SparesPins(b, w, id, k);
    }
  }

  lemma {:induction false} EventWriterTouchesOneEvent(b: Base, w: Writer, id: EventId)
    requires ValidBase(b) && !Fails(b, w) && RefreshOf(b, w) == RefreshEvent(id)
    ensures id in WriteBase(b, w).events && OnlyEvent(b, WriteBase(b, w), id)
  {
    forall i | i != id ensures SameEventInputs(b, WriteBase(b, w), i) {
      EventWriterSpares(b, w, id, i);
    }
  }

  lemma {:induction false} WritesKeepForeignKeys(b: Base, w: Writer)
    requires ValidBase(b) && !Fails(b, w)
    ensures ValidBase(WriteBase(b, w))
  {
  }

  lemma {:induction false} EventWriterLeaves(b: Base, w: Writer, id: EventId)
    requires ValidBase(b) && !Fails(b, w) && RefreshOf(b, w) == RefreshEvent(id)
    requires id in WriteBase(b, w).events
    ensures LeftSeries(b, w) == MovedFrom(b, id, WriteBase(b, w).events[id].seriesId)
  {
  }

  lemma {:induction false} SeriesWriterTouchesOneSeries(b: Base, w: Writer, sid: SeriesId)
    requires ValidBase(b) && !Fails(b, w) && RefreshOf(b, w) == RefreshSeries(sid)
    ensures OnlySeries(b, WriteBase(b, w), sid, MembersOf(b, sid))
  {
  }

  lemma {:induction false} RebuiltAgrees(b: Base)
    requires ValidBase(b)
    ensures Agrees(Catalog(b, Rebuilt(b)), {})
  {
  }

  /** One transaction leaves every event row right, and every series row right
      outside the series it moves a published event out of. */
  lemma {:induction false} TransactionAgrees(c: Catalog, w: Writer, stale: set<SeriesId>)
    requires Agrees(c, stale)
    ensures Agrees(Transact(c, w), StaleAfter(stale, c.base, w))
  {
    if !Fails(c.base, w) {
      var b' := WriteBase(c.base, w);
      WritesKeepForeignKeys(c.base, w);
      match RefreshOf(c.base, w)
      case RefreshNone =>
      case RefreshAll => RebuiltAgrees(b');
      case RefreshEvent(id) =>
        EventWriterTouchesOneEvent(c.base, w, id);
        EventWriterLeaves(c.base, w, id);
        EventTransactionAgrees(c, b', id, stale);
      case RefreshSeries(sid) =>
        SeriesWriterTouchesOneSeries(c.base, w, sid);
        SeriesTransactionAgrees(c, b', sid, MembersOf(c.base, sid), stale);
    }
  }

  /** The series rows that may be out of date at the end of a run. */
  function StaleRun(c: Catalog, ws: seq<Writer>): set<SeriesId> {
    if ws == [] then {}
    else StaleAfter(StaleRun(c, ws[..|ws| - 1]), RunWriters(c, ws[..|ws| - 1]).base, ws[|ws| - 1])
  }

  lemma {:induction false} AgreesIsRebuilt(c: Catalog)
    requires ValidBase(c.base)
    ensures Agrees(c, {}) <==> c.index == Rebuilt(c.base)
  {
    if Agrees(c, {}) {
      var r := Rebuilt(c.base).series;
      forall sid ensures (sid in c.index.series <==> sid in r) && (sid in r ==> c.index.series[sid] == r[sid]) {
        assert SeriesAgrees(c.base, c.index, sid);
      }
      assert c.index.series == r;
    }
  }

  /** The projection over every run: event rows always equal the rebuild, and so
      does every series row but those left by a move and not refreshed since. */
  lemma {:induction false} RunAgrees(c: Catalog, ws: seq<Writer>)
    requires ValidBase(c.base) && c.index == Rebuilt(c.base)
    ensures Agrees(RunWriters(c, ws), StaleRun(c, ws))
  {
    if ws == [] {
      RebuiltAgrees(c.base);
    } else {
      var before := ws[..|ws| - 1];
      RunAgrees(c, before);
      TransactionAgrees(RunWriters(c, before), ws[|ws| - 1], StaleRun(c, before));
    }
  }

  /** No transaction of the run moves a published event out of a series. */
  ghost predicate NeverMoves(c: Catalog, ws: seq<Writer>) {
    forall k {:trigger ws[k]} :: 0 <= k < |ws| ==>
      Fails(RunWriters(c, ws[..k]).base, ws[k]) || LeftSeries(RunWriters(c, ws[..k]).base, ws[k]) == {}
  }

  lemma {:induction false} NeverStale(c: Catalog, ws: seq<Writer>)
    requires NeverMoves(c, ws)
    ensures StaleRun(c, ws) == {}
  {
    if ws != [] {
      var before := ws[..|ws| - 1];
      forall k | 0 <= k < |before|
        ensures Fails(RunWriters(c, before[..k]).base, before[k]) || LeftSeries(RunWriters(c, before[..k]).base, before[k]) == {}
      {
        assert before[..k] == ws[..k] && before[k] == ws[k];
      }
      NeverStale(c, before);
      assert ws[..|ws| - 1] == before && ws[|ws| - 1] == ws[|ws| - 1];
    }
  }

  /** Without such a move the projection is the rebuild after every run, and a
      rebuild makes it so whatever came before. */
  lemma {:induction false} ProjectionIsRebuilt(c: Catalog, ws: seq<Writer>)
    requires ValidBase(c.base) && c.index == Rebuilt(c.base)
    ensures NeverMoves(c, ws) ==> RunWriters(c, ws).index == Rebuilt(RunWriters(c, ws).base)
    ensures RunWriters(c, ws + [Rebuild]).index == Rebuilt(RunWriters(c, ws).base)
  {
    RunAgrees(c, ws);
    if NeverMoves(c, ws) {
      NeverStale(c, ws);
      AgreesIsRebuilt(RunWriters(c, ws));
    }
    assert (ws + [Rebuild])[..|ws|] == ws;
  }

  // ---- what a move does to the series it leaves ----

  /** Event `i` shows up in the engage columns of series `sid`. */
  predicate Shows(b: Base, i: EventId, sid: SeriesId) {
    IsMember(b, i, sid) && IsPublished(b, i)
  }

  function EngagePin(b: Base, i: EventId): set<Role> {
    if (i, ENGAGE) in b.pins then b.pins[(i, ENGAGE)].aclRead else {}
  }

  predicate HasOthers(b: Base, sid: SeriesId, left: set<EventId>) {
    exists i :: i in b.events && i !in left && Shows(b, i, sid)
  }

  function OthersRead(b: Base, sid: SeriesId, left: set<EventId>): set<Role> {
    set i, r | i in b.events && i !in left && Shows(b, i, sid) && r in EngagePin(b, i) :: r
  }

  lemma {:induction false} EngageColumns(b: Base, sid: SeriesId)
    ensures EpisodeRoles(Rebuilt(b).events, sid) == OthersRead(b, sid, {})
    ensures (exists i :: i in Rebuilt(b).events && Contributes(Rebuilt(b).events, i, sid)) <==> HasOthers(b, sid, {})
  {
    var d := Rebuilt(b).events;
    forall i ensures Contributes(d, i, sid) <==> i in b.events && Shows(b, i, sid)
      ensures Contributes(d, i, sid) ==> d[i].pubRead == EngagePin(b, i)
    {
      RebuiltEvents(b, i);
    }
    if i :| i in d && Contributes(d, i, sid) { assert i !in {} && Shows(b, i, sid); }
    if HasOthers(b, sid, {}) {
      var i :| i in b.events && i !in {} && Shows(b, i, sid);
      assert Contributes(d, i, sid);
    }
    forall r ensures r in EpisodeRoles(d, sid) <==> r in OthersRead(b, sid, {}) {
      if r in EpisodeRoles(d, sid) {
        var i :| i in d && Contributes(d, i, sid) && r in d[i].pubRead;
        assert i !in {} && Shows(b, i, sid);
      }
      if r in OthersRead(b, sid, {}) {
        var i :| i in b.events && i !in {} && Shows(b, i, sid) && r in EngagePin(b, i);
        assert Contributes(d, i, sid);
      }
    }
  }

  lemma {:induction false} ColumnsAfterMove(b: Base, b': Base, id: EventId, sid: SeriesId)
    requires OnlyEvent(b, b', id) && id in b'.events && b'.events[id].seriesId != Some(sid)
    ensures OthersRead(b', sid, {}) == OthersRead(b, sid, {id})
    ensures HasOthers(b', sid, {}) <==> HasOthers(b, sid, {id})
  {
    forall i ensures i !in {} && Shows(b', i, sid) <==> i !in {id} && Shows(b, i, sid)
      ensures Shows(b', i, sid) ==> EngagePin(b', i) == EngagePin(b, i)
      ensures i != id ==> (i in b.events <==> i in b'.events)
    {
      if i != id { assert SameEventInputs(b, b', i); }
    }
    if HasOthers(b', sid, {}) {
      var i :| i in b'.events && i !in {} && Shows(b', i, sid);
      assert i !in {id};
    }
    if HasOthers(b, sid, {id}) {
      var i :| i in b.events && i !in {id} && Shows(b, i, sid);
      assert i !in {};
    }
    forall r ensures r in OthersRead(b', sid, {}) <==> r in OthersRead(b, sid, {id}) {
      if r in OthersRead(b', sid, {}) {
        var i :| i in b'.events && i !in {} && Shows(b', i, sid) && r in EngagePin(b', i);
        assert i !in {id};
      }
      if r in OthersRead(b, sid, {id}) {
        var i :| i in b.events && i !in {id} && Shows(b, i, sid) && r in EngagePin(b, i);
        assert i !in {};
      }
    }
  }

  /** The row of a live series is the same without event `id`: another published
      episode stays, and the others' pins cover its pin. */
  predicate RowSurvives(b: Base, id: EventId, sid: SeriesId) {
    !LiveSeries(b, sid) || (HasOthers(b, sid, {id}) && EngagePin(b, id) <= OthersRead(b, sid, {id}))
  }

  lemma {:induction false} SplitRead(b: Base, id: EventId, sid: SeriesId)
    requires id in b.events && Shows(b, id, sid)
    ensures OthersRead(b, sid, {}) == OthersRead(b, sid, {id}) + EngagePin(b, id) && HasOthers(b, sid, {})
  {
    assert id !in {};
    forall r ensures r in OthersRead(b, sid, {}) <==> r in OthersRead(b, sid, {id}) + EngagePin(b, id) {
      if r in OthersRead(b, sid, {}) {
        var i :| i in b.events && i !in {} && Shows(b, i, sid) && r in EngagePin(b, i);
        assert i !in {id} || i == id;
      }
      if r in OthersRead(b, sid, {id}) {
        var i :| i in b.events && i !in {id} && Shows(b, i, sid) && r in EngagePin(b, i);
        assert i !in {};
      }
    }
  }

  /** The row of a series that a live series' engage columns would give. */
  lemma {:induction false} SameRowExactly(b: Base, b': Base, id: EventId, sid: SeriesId)
    requires OnlyEvent(b, b', id) && id in b'.events && b'.events[id].seriesId != Some(sid)
    requires id in b.events && Shows(b, id, sid) && LiveSeries(b, sid)
    ensures SeriesDocOf(b', Rebuilt(b').events, sid) == SeriesDocOf(b, Rebuilt(b).events, sid) <==> RowSurvives(b, id, sid)
  {
    EngageColumns(b, sid);
    EngageColumns(b', sid);
    ColumnsAfterMove(b, b', id, sid);
    SplitRead(b, id, sid);
    assert SameSeriesPolicy(b, b', sid);
  }

  lemma {:induction false} LeftRowAgreesExactly(b: Base, b': Base, ix: Index, ix': Index, id: EventId, sid: SeriesId)
    requires OnlyEvent(b, b', id) && id in b'.events && b'.events[id].seriesId != Some(sid)
    requires Shows(b, id, sid) && SeriesAgrees(b, ix, sid)
    requires (sid in ix'.series <==> sid in ix.series) && (sid in ix.series ==> ix'.series[sid] == ix.series[sid])
    ensures SeriesAgrees(b', ix', sid) <==> RowSurvives(b, id, sid)
  {
    if LiveSeries(b, sid) { SameRowExactly(b, b', id, sid); }
  }

  lemma {:induction false} OthersAgree(c: Catalog, stale: SeriesId)
    requires Agrees(c, {stale})
    ensures Agrees(c, {}) <==> SeriesAgrees(c.base, c.index, stale)
  {
    forall sid | SeriesAgrees(c.base, c.index, stale) ensures SeriesAgrees(c.base, c.index, sid) {
      assert sid == stale || sid !in {stale};
    }
  }

  /** A move into another series, or into none, does not refresh the one it leaves. */
  lemma {:induction false} LeftRowStays(c: Catalog, w: Writer, sid: SeriesId)
    requires (w.SetMetadata? || w.SetEventDC?) && !Fails(c.base, w)
    requires w.id in WriteBase(c.base, w).events && WriteBase(c.base, w).events[w.id].seriesId != Some(sid)
    ensures var ix' := Transact(c, w).index;
      (sid in ix'.series <==> sid in c.index.series) && (sid in c.index.series ==> ix'.series[sid] == c.index.series[sid])
  {
  }

  /** Moving an event leaves the projection equal to the rebuild exactly when the
      row of the series it leaves does not depend on it. */
  lemma {:induction false} MoveAgreesExactly(c: Catalog, w: Writer)
    requires ValidBase(c.base) && c.index == Rebuilt(c.base)
    requires (w.SetMetadata? || w.SetEventDC?) && !Fails(c.base, w)
    ensures Transact(c, w).index == Rebuilt(Transact(c, w).base)
      <==> forall sid :: sid in LeftSeries(c.base, w) ==> RowSurvives(c.base, w.id, sid)
  {
    var c' := Transact(c, w);
    RebuiltAgrees(c.base);
    TransactionAgrees(c, w, {});
    AgreesIsRebuilt(c');
    if sid :| sid in LeftSeries(c.base, w) {
      EventWriterTouchesOneEvent(c.base, w, w.id);
      MovedWholly(c.base, w, sid);
      LeftRowStays(c, w, sid);
      LeftRowAgreesExactly(c.base, c'.base, c.index, c'.index, w.id, sid);
      OthersAgree(c', sid);
    }
  }

  lemma {:induction false} MovedWholly(b: Base, w: Writer, sid: SeriesId)
    requires (w.SetMetadata? || w.SetEventDC?) && !Fails(b, w) && sid in LeftSeries(b, w)
    ensures LeftSeries(b, w) == {sid} && Shows(b, w.id, sid) && RefreshOf(b, w) == RefreshEvent(w.id)
    ensures var b' := WriteBase(b, w);
      w.id in b'.events && b'.events[w.id].seriesId != Some(sid) && StaleAfter({}, b, w) == {sid}
  {
  }

  // ---- the move that shows it ----

  const MOVED: Writer := SetMetadata("event", None, Metadata([], [], None, None, [], None, None, None, None))

  /** One published event in one live series. */
  function OneEpisode(): Base {
    Base(map["event" := EventRow(None, None, None, Some("series"), false)], map[],
      map["series" := SeriesRow(SeriesMetadata(None, [], [], None, None, [], None), false)], map[],
      map[("event", ENGAGE) := Pin({"ROLE_USER"}, Populated)])
  }

  /** Taking the only published event out of its series leaves that series listed
      as having episodes it no longer has. */
  lemma {:induction false} MovedEventLeavesStaleSeries()
    ensures var c := Catalog(OneEpisode(), Rebuilt(OneEpisode()));
      ValidBase(c.base) && !Fails(c.base, MOVED) && Transact(c, MOVED).index != Rebuilt(Transact(c, MOVED).base)
  {
    var b := OneEpisode();
    assert ("event", ENGAGE) in b.pins && IsPublished(b, "event");
    assert !HasOthers(b, "series", {"event"});
    assert "series" in LeftSeries(b, MOVED) && !RowSurvives(b, "event", "series");
    MoveAgreesExactly(Catalog(b, Rebuilt(b)), MOVED);
  }
}
