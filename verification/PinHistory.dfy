/** The publish-time pin over whole runs: it is the archive policy at the last
    publish, whatever was edited since (internal/mediapackage/metadata.go). */
module PinHistory {
  import opened Acl
  import opened SearchModel
  import opened SearchTheory
  import opened SearchRuns

  /** The tables after the first k transactions of the run. */
  function BaseAt(c: Catalog, ws: seq<Writer>, k: nat): Base
    requires k <= |ws|
  {
    RunWriters(c, ws[..k]).base
  }

  /** Migration writes pins of its own; every other writer is native. */
  predicate Native(ws: seq<Writer>) {
    forall w :: w in ws ==> !w.MigratePin?
  }

  /** What one transaction does to one publication. */
  datatype Touch = Pins | Retracts | Leaves

  function TouchOf(b: Base, w: Writer, id: EventId, channel: Channel): Touch {
    if w == Publish(id, channel) && id in b.events then Pins
    else if w == TombstoneEvent(id) && id in b.events && !b.events[id].deleted then Retracts
    else Leaves
  }

  function Touches(c: Catalog, ws: seq<Writer>, id: EventId, channel: Channel): (ts: seq<Touch>)
    ensures |ts| == |ws|
  {
    if ws == [] then [] else
      var n := |ws| - 1;
      Touches(c, ws[..n], id, channel) + [TouchOf(RunWriters(c, ws[..n]).base, ws[n], id, channel)]
  }

  predicate LastPins(ts: seq<Touch>, j: nat) {
    j < |ts| && ts[j] == Pins && forall m :: j < m < |ts| ==> ts[m] == Leaves
  }

  lemma {:induction false} LastPinsExtends(ts: seq<Touch>, t: Touch, j: nat)
    ensures LastPins(ts + [t], j) <==> if j == |ts| then t == Pins else LastPins(ts, j) && t == Leaves
  {
    var all := ts + [t];
    if j < |ts| && LastPins(all, j) {
      assert all[|ts|] == Leaves;
      assert forall m :: j < m < |ts| ==> ts[m] == all[m];
    }
  }

  /** Transaction j publishes (id, channel), and nothing later republishes it or
      retracts the event. */
  predicate LastPublish(c: Catalog, ws: seq<Writer>, id: EventId, channel: Channel, j: nat) {
    LastPins(Touches(c, ws, id, channel), j)
  }

  /** The pin holds the roles with a read allow and no read deny in the event's
      policy, and whether there is a policy and whether it has entries. */
  ghost predicate PinnedFrom(pin: Pin, b: Base, id: EventId) {
    Says(b.policies, EventScope, id, "read", pin.aclRead) && IsState(b.policies, EventScope, id, pin.aclState)
  }

  lemma {:induction false} WriteMovesPin(b: Base, w: Writer, id: EventId, channel: Channel)
    requires !w.MigratePin? && !Fails(b, w)
    ensures var pins := WriteBase(b, w).pins;
      match TouchOf(b, w, id, channel)
      case Pins => (id, channel) in pins && PinnedFrom(pins[(id, channel)], b, id)
      case Retracts => (id, channel) !in pins
      case Leaves =>
        && ((id, channel) in pins <==> (id, channel) in b.pins)
        && ((id, channel) in b.pins ==> pins[(id, channel)] == b.pins[(id, channel)])
  {
    GrantedSays(b.policies, EventScope, id, "read");
  }

  ghost predicate PinIsLastPublish(c: Catalog, ws: seq<Writer>, id: EventId, channel: Channel) {
    var pins := RunWriters(c, ws).base.pins;
    && ((id, channel) in pins <==> exists j :: LastPublish(c, ws, id, channel, j))
    && forall j: nat :: LastPublish(c, ws, id, channel, j) ==>
         (id, channel) in pins && PinnedFrom(pins[(id, channel)], BaseAt(c, ws, j), id)
  }

  lemma {:induction false} PinStep(c: Catalog, ws: seq<Writer>, w: Writer, id: EventId, channel: Channel)
    requires !w.MigratePin? && PinIsLastPublish(c, ws, id, channel)
    ensures PinIsLastPublish(c, ws + [w], id, channel)
  {
    var n, b, ts := |ws|, RunWriters(c, ws).base, Touches(c, ws, id, channel);
    var t := TouchOf(b, w, id, channel);
    assert (ws + [w])[..n] == ws;
    assert Touches(c, ws + [w], id, channel) == ts + [t];
    var pins := RunWriters(c, ws + [w]).base.pins;
    assert Fails(b, w) ==> t == Leaves && pins == b.pins;
    if !Fails(b, w) { WriteMovesPin(b, w, id, channel); }
    forall j: nat
      ensures LastPublish(c, ws + [w], id, channel, j) <==> if j == n then t == Pins else LastPublish(c, ws, id, channel, j) && t == Leaves
      ensures j <= n ==> BaseAt(c, ws + [w], j) == RunWriters(c, ws[..j]).base
    {
      LastPinsExtends(ts, t, j);
      if j <= n { assert (ws + [w])[..j] == ws[..j]; }
    }
    if t == Pins { assert ws[..n] == ws && LastPublish(c, ws + [w], id, channel, n); }
    if t == Leaves && (id, channel) in b.pins {
      var j :| LastPublish(c, ws, id, channel, j);
      assert LastPublish(c, ws + [w], id, channel, j);
    }
  }

  /** Over every run of native writers a publication exists exactly when its last
      publish was not retracted, and holds the roles with a read allow and no read
      deny of that instant, and the policy's state of that instant. */
  lemma {:induction false} PinRemembersLastPublish(c: Catalog, ws: seq<Writer>, id: EventId, channel: Channel)
    requires (id, channel) !in c.base.pins && Native(ws)
    ensures PinIsLastPublish(c, ws, id, channel)
  {
    if ws != [] {
      var before, w := ws[..|ws| - 1], ws[|ws| - 1];
      PinRemembersLastPublish(c, before, id, channel);
      assert w in ws && before + [w] == ws;
      PinStep(c, before, w, id, channel);
    }
  }

  /** The list surface shows the same thing: the projected pub_read of every
      listed event is the roles with a read allow and no read deny at its last
      engage publish, and is empty when there is none. */
  lemma {:induction false} ListedRolesAreLastPublish(c: Catalog, ws: seq<Writer>, id: EventId)
    requires ValidBase(c.base) && c.index == Rebuilt(c.base)
    requires (id, ENGAGE) !in c.base.pins && Native(ws)
    requires id in RunWriters(c, ws).index.events
    ensures forall j :: LastPublish(c, ws, id, ENGAGE, j) ==>
      Says(BaseAt(c, ws, j).policies, EventScope, id, "read", RunWriters(c, ws).index.events[id].pubRead)
    ensures (forall j :: !LastPublish(c, ws, id, ENGAGE, j)) ==> RunWriters(c, ws).index.events[id].pubRead == {}
  {
    RunAgrees(c, ws);
    RebuiltEvents(RunWriters(c, ws).base, id);
    PinRemembersLastPublish(c, ws, id, ENGAGE);
  }

  /** An ACL edit reaches no publication and no listed pub_read. */
  lemma {:induction false} AclEditsDoNotLeak(c: Catalog, w: Writer, stale: set<SeriesId>, id: EventId)
    requires Agrees(c, stale) && (w.SetACL? || w.SetSeriesACL?)
    ensures Transact(c, w).base.pins == c.base.pins
    ensures id in c.index.events <==> id in Transact(c, w).index.events
    ensures id in c.index.events ==> Transact(c, w).index.events[id].pubRead == c.index.events[id].pubRead
  {
    TransactionAgrees(c, w, stale);
    RebuiltEvents(c.base, id);
    RebuiltEvents(Transact(c, w).base, id);
  }
}
