/** Which rows a principal's listing shows, and how that relates to delivery
    (internal/search/query.go, internal/serve/authz.go). */
module Visibility {
  import opened Acl
  import opened SearchModel
  import opened SearchTheory

  /** A role of the form ROLE_EPISODE_<id>_READ or _WRITE is a direct grant. */
  datatype RoleShape = Plain | EpisodeRead(id: string) | EpisodeWrite(id: string)

  const PREFIX: string := "ROLE_EPISODE_"

  predicate Matches(r: Role, suffix: string) {
    && |r| > |PREFIX| + |suffix| && r[..|PREFIX|] == PREFIX && r[|r| - |suffix|..] == suffix
    && '\n' !in r[|PREFIX|..|r| - |suffix|]
  }

  function Shape(r: Role): RoleShape {
    if Matches(r, "_READ") then EpisodeRead(r[|PREFIX|..|r| - 5])
    else if Matches(r, "_WRITE") then EpisodeWrite(r[|PREFIX|..|r| - 6])
    else Plain
  }

  /** What the pattern's wildcard accepts: not empty, no line break. */
  predicate Named(id: string) {
    id != "" && '\n' !in id
  }

  lemma {:induction false} MatchesExactly(r: Role, id: string, suffix: string)
    requires Named(id)
    ensures r == PREFIX + id + suffix <==> Matches(r, suffix) && r[|PREFIX|..|r| - |suffix|] == id
  {
    if r == PREFIX + id + suffix {
      assert r[|PREFIX|..|r| - |suffix|] == id;
      assert r[|r| - |suffix|..] == suffix;
    }
    if Matches(r, suffix) {
      assert r == r[..|PREFIX|] + r[|PREFIX|..|r| - |suffix|] + r[|r| - |suffix|..];
    }
  }

  /** The query side parses exactly the roles the grant side mints. */
  lemma {:induction false} GrantsParseExactly(r: Role, id: string)
    requires Named(id)
    ensures Shape(r) == EpisodeRead(id) <==> r == ReadGrant(id)
    ensures Shape(r) == EpisodeWrite(id) <==> r == WriteGrant(id)
  {
    MatchesExactly(r, id, "_READ");
    MatchesExactly(r, id, "_WRITE");
    if Matches(r, "_READ") && Matches(r, "_WRITE") {
      assert r[|r| - 5..][0] == r[|r| - 5] == r[|r| - 6..][1];
    }
    assert PREFIX + id + "_READ" == ReadGrant(id);
    assert PREFIX + id + "_WRITE" == WriteGrant(id);
  }

  /** A role is plain exactly when it is nobody's direct grant. */
  lemma {:induction false} PlainExactly(r: Role)
    ensures Shape(r).Plain? <==> forall id :: Named(id) ==> r != ReadGrant(id) && r != WriteGrant(id)
  {
    forall id | Named(id) ensures Shape(r) == EpisodeRead(id) <==> r == ReadGrant(id)
      ensures Shape(r) == EpisodeWrite(id) <==> r == WriteGrant(id)
    {
      GrantsParseExactly(r, id);
    }
    if !Shape(r).Plain? { assert Named(Shape(r).id); }
  }

  function PlainRoles(roles: seq<Role>): seq<Role> {
    if roles == [] then []
    else PlainRoles(roles[..|roles| - 1]) + if Shape(roles[|roles| - 1]).Plain? then [roles[|roles| - 1]] else []
  }

  function GrantedReads(roles: seq<Role>): seq<string> {
    if roles == [] then []
    else GrantedReads(roles[..|roles| - 1]) + match Shape(roles[|roles| - 1]) case EpisodeRead(id) => [id] case _ => []
  }

  function GrantedWrites(roles: seq<Role>): seq<string> {
    if roles == [] then []
    else GrantedWrites(roles[..|roles| - 1]) + match Shape(roles[|roles| - 1]) case EpisodeWrite(id) => [id] case _ => []
  }

  lemma {:induction false} SplitMeaning(roles: seq<Role>)
    ensures forall r :: r in PlainRoles(roles) <==> r in roles && Shape(r).Plain?
    ensures forall id :: Named(id) ==> (id in GrantedReads(roles) <==> ReadGrant(id) in roles)
    ensures forall id :: Named(id) ==> (id in GrantedWrites(roles) <==> WriteGrant(id) in roles)
  {
    if roles != [] {
      var before, last := roles[..|roles| - 1], roles[|roles| - 1];
      SplitMeaning(before);
      assert roles == before + [last];
      forall id | Named(id)
        ensures Shape(last) == EpisodeRead(id) <==> last == ReadGrant(id)
        ensures Shape(last) == EpisodeWrite(id) <==> last == WriteGrant(id)
      {
        GrantsParseExactly(last, id);
      }
    }
  }

  method Split(roles: seq<Role>) returns (plain: seq<Role>, reads_: seq<string>, writes: seq<string>)
    ensures plain == PlainRoles(roles) && reads_ == GrantedReads(roles) && writes == GrantedWrites(roles)
  {
    plain, reads_, writes := [], [], [];
    for i := 0 to |roles|
      invariant plain == PlainRoles(roles[..i])
      invariant reads_ == GrantedReads(roles[..i])
      invariant writes == GrantedWrites(roles[..i])
    {
      assert roles[..i + 1][..i] == roles[..i];
      match Shape(roles[i])
      case EpisodeRead(id) => reads_ := reads_ + [id];
      case EpisodeWrite(id) => writes := writes + [id];
      case Plain => plain := plain + [roles[i]];
    }
    assert roles[..|roles|] == roles;
  }

  /** Every role some stored entry names, of any scope and action. */
  function Vocabulary(p: Policies): set<Role> {
    set k, e | k in p && e in p[k] :: e.role
  }

  /** Some stored entry, allow or deny, of any scope and action, names the role. */
  ghost predicate Known(p: Policies, r: Role) {
    exists k, e :: k in p && e in p[k] && e.role == r
  }

  lemma {:induction false} VocabularyIsKnown(p: Policies, r: Role)
    ensures r in Vocabulary(p) <==> Known(p, r)
  {
    if r in Vocabulary(p) { var k, e :| k in p && e in p[k] && e.role == r; }
  }

  /** The distinct roles of the list that the vocabulary knows. */
  method Prune(p: Policies, roles: seq<Role>) returns (kept: seq<Role>)
    ensures SetOf(kept) == SetOf(roles) * Vocabulary(p) && |kept| == |SetOf(kept)|
    ensures forall r :: r in kept <==> r in roles && Known(p, r)
  {
    kept := [];
    for i := 0 to |roles|
      invariant SetOf(kept) == SetOf(roles[..i]) * Vocabulary(p) && |kept| == |SetOf(kept)|
    {
      assert roles[..i + 1] == roles[..i] + [roles[i]];
      if roles[i] in Vocabulary(p) && roles[i] !in kept {
        assert SetOf(kept + [roles[i]]) == SetOf(kept) + {roles[i]};
        kept := kept + [roles[i]];
      }
    }
    assert roles[..|roles|] == roles;
    forall r ensures r in kept <==> r in roles && Known(p, r) {
      assert r in kept <==> r in SetOf(kept);
      VocabularyIsKnown(p, r);
    }
  }

  datatype Surface = AdminEvents | ApiEvents | EngageEpisode

  /** The visibility clauses of an event listing, on one projected row. */
  predicate Listed(p: Policies, surface: Surface, roles: seq<Role>, id: EventId, doc: EventDoc) {
    var pruned := SetOf(PlainRoles(roles)) * Vocabulary(p);
    && (IsAdmin(roles) || match surface
        case AdminEvents =>
          && (Meets(doc.aclRead, pruned) || id in GrantedReads(roles))
          && (Meets(doc.aclWrite, pruned) || id in GrantedWrites(roles))
        case ApiEvents => Meets(doc.aclRead, pruned) || id in GrantedReads(roles)
        case EngageEpisode => Meets(doc.pubRead, pruned) || id in GrantedReads(roles))
    && (surface == EngageEpisode ==> doc.published)
  }

  method Overlaps(a: set<Role>, b: seq<Role>) returns (ok: bool)
    ensures ok == Meets(a, SetOf(b))
  {
    for i := 0 to |b|
      invariant forall k :: 0 <= k < i ==> b[k] !in a
    {
      if b[i] in a {
        assert b[i] in SetOf(b);
        return true;
      }
    }
    return false;
  }

  /** The listing query's decision on one row, clause by clause. */
  method Lists(p: Policies, surface: Surface, roles: seq<Role>, id: EventId, doc: EventDoc) returns (ok: bool)
    ensures ok == Listed(p, surface, roles, id, doc)
  {
    ok := true;
    if !IsAdmin(roles) {
      var plain, reads_, writes := Split(roles);
      var pruned := Prune(p, plain);
      match surface {
        case AdminEvents =>
          var r := Overlaps(doc.aclRead, pruned);
          var w := Overlaps(doc.aclWrite, pruned);
          ok := (r || id in reads_) && (w || id in writes);
        case ApiEvents =>
          var r := Overlaps(doc.aclRead, pruned);
          ok := r || id in reads_;
        case EngageEpisode =>
          var r := Overlaps(doc.pubRead, pruned);
          ok := r || id in reads_;
      }
    }
    if surface == EngageEpisode { ok := ok && doc.published; }
  }

  // ---- pruning ----

  lemma {:induction false} PruningIsLossless(granted: set<Role>, roles: set<Role>, vocabulary: set<Role>)
    requires granted <= vocabulary
    ensures Meets(granted, roles * vocabulary) == Meets(granted, roles)
  {
    if r :| r in granted && r in roles { assert r in roles * vocabulary; }
    if Meets(granted, roles * vocabulary) {
      var r :| r in granted && r in roles * vocabulary;
      assert r in roles;
    }
  }

  lemma {:induction false} StoredRolesAreVocabulary(p: Policies, scope: Scope, id: string, action: ActionName)
    ensures Granted(EntriesOf(p, scope, id), action) <= Vocabulary(p)
  {
    forall r | r in Granted(EntriesOf(p, scope, id), action) ensures r in Vocabulary(p) {
      var e :| e in EntriesOf(p, scope, id) && e.role == r;
      assert (scope, id) in p && e in p[(scope, id)];
    }
  }

  /** The archive listings, pruned or not, are the granted roles and the direct
      grants: pruning never hides a row while the projection is up to date. */
  lemma {:induction false} ArchiveListingMeaning(c: Catalog, stale: set<SeriesId>, roles: seq<Role>, id: EventId)
    requires Agrees(c, stale) && id in c.index.events && !IsAdmin(roles) && Named(id)
    ensures var entries, plain := EntriesOf(c.base.policies, EventScope, id), SetOf(PlainRoles(roles));
      var canRead := Meets(Granted(entries, "read"), plain) || ReadGrant(id) in roles;
      var canWrite := Meets(Granted(entries, "write"), plain) || WriteGrant(id) in roles;
      && Listed(c.base.policies, ApiEvents, roles, id, c.index.events[id]) == canRead
      && Listed(c.base.policies, AdminEvents, roles, id, c.index.events[id]) == (canRead && canWrite)
  {
    var p, plain := c.base.policies, SetOf(PlainRoles(roles));
    RebuiltEvents(c.base, id);
    SplitMeaning(roles);
    StoredRolesAreVocabulary(p, EventScope, id, "read");
    StoredRolesAreVocabulary(p, EventScope, id, "write");
    PruningIsLossless(Granted(EntriesOf(p, EventScope, id), "read"), plain, Vocabulary(p));
    PruningIsLossless(Granted(EntriesOf(p, EventScope, id), "write"), plain, Vocabulary(p));
  }

  // ---- listing and delivery ----

  /** What delivery reads for an element whose containing publications are all
      the engage publication of this event. */
  ghost predicate ServedFromEngage(b: Base, id: EventId, pins: seq<PublicationPin>) {
    && (id, ENGAGE) in b.pins && pins != []
    && forall p :: p in pins ==> p.event == id && SetOf(p.aclRead) == b.pins[(id, ENGAGE)].aclRead
  }

  ghost predicate Delivered(pins: seq<PublicationPin>, roles: seq<Role>) {
    IsAdmin(roles) || exists p :: p in pins && PinAdmits(p, roles)
  }

  /** A pinned role that listing honours as delivery does. */
  predicate Honoured(p: Policies, id: EventId, r: Role) {
    IsAdmin([r]) || r == ReadGrant(id) || (Shape(r).Plain? && r in Vocabulary(p))
  }

  lemma {:induction false} EngageListingMeaning(c: Catalog, stale: set<SeriesId>, id: EventId, roles: seq<Role>)
    requires Agrees(c, stale) && id in c.index.events && Named(id) && (id, ENGAGE) in c.base.pins && !IsAdmin(roles)
    ensures var pinned := c.base.pins[(id, ENGAGE)].aclRead;
      Listed(c.base.policies, EngageEpisode, roles, id, c.index.events[id])
      <==> (ReadGrant(id) in roles
            || exists r :: r in pinned && r in roles && Shape(r).Plain? && r in Vocabulary(c.base.policies))
  {
    var pruned := SetOf(PlainRoles(roles)) * Vocabulary(c.base.policies);
    var pinned := c.base.pins[(id, ENGAGE)].aclRead;
    RebuiltEvents(c.base, id);
    SplitMeaning(roles);
    assert (id, ENGAGE) in c.base.pins && IsPublished(c.base, id);
    assert c.index.events[id].pubRead == pinned;
    if r :| r in pinned && r in roles && Shape(r).Plain? && r in Vocabulary(c.base.policies) {
      assert r in pruned;
    }
  }

  /** The engage listing in full: an event with a publication on any channel, for an
      admin, the holder of its direct grant, or the holder of a plain role that its
      engage publication pinned and some stored entry still names. */
  lemma {:induction false} EngageListingExactly(c: Catalog, stale: set<SeriesId>, id: EventId, roles: seq<Role>)
    requires Agrees(c, stale) && id in c.index.events && Named(id)
    ensures Listed(c.base.policies, EngageEpisode, roles, id, c.index.events[id]) <==> (
      && (exists k :: k in c.base.pins && k.0 == id)
      && (|| "ROLE_ADMIN" in roles || "ROLE_GLOBAL_ADMIN" in roles || "ROLE_EPISODE_" + id + "_READ" in roles
          || exists r :: (id, "engage-player") in c.base.pins && r in c.base.pins[(id, "engage-player")].aclRead
               && r in roles && Shape(r).Plain? && Known(c.base.policies, r)))
  {
    RebuiltEvents(c.base, id);
    SplitMeaning(roles);
    if (id, ENGAGE) in c.base.pins {
      if !IsAdmin(roles) { EngageListingMeaning(c, stale, id, roles); }
      forall r ensures Known(c.base.policies, r) <==> r in Vocabulary(c.base.policies) {
        VocabularyIsKnown(c.base.policies, r);
      }
    }
  }

  /** An admin's archive listings leave nothing out. */
  lemma {:induction false} AdminsSeeEverything(p: Policies, surface: Surface, roles: seq<Role>, id: EventId, doc: EventDoc)
    requires "ROLE_ADMIN" in roles || "ROLE_GLOBAL_ADMIN" in roles
    ensures Listed(p, surface, roles, id, doc) <==> (surface == EngageEpisode ==> doc.published)
  {
  }

  lemma {:induction false} DeliveryMeaning(b: Base, id: EventId, pins: seq<PublicationPin>, roles: seq<Role>)
    requires ServedFromEngage(b, id, pins) && !IsAdmin(roles)
    ensures Delivered(pins, roles)
      <==> (ReadGrant(id) in roles || exists r :: r in b.pins[(id, ENGAGE)].aclRead && r in roles)
  {
    assert pins[0] in pins;
    if r :| r in b.pins[(id, ENGAGE)].aclRead && r in roles {
      assert r in SetOf(roles) && r in SetOf(pins[0].aclRead);
      assert PinAdmits(pins[0], roles);
    }
    if ReadGrant(id) in roles { assert PinAdmits(pins[0], roles); }
  }

  lemma {:induction false} HonouredPinAgrees(c: Catalog, stale: set<SeriesId>, id: EventId, pins: seq<PublicationPin>, roles: seq<Role>)
    requires Agrees(c, stale) && id in c.index.events && Named(id) && ServedFromEngage(c.base, id, pins) && !IsAdmin(roles)
    requires forall r :: r in c.base.pins[(id, ENGAGE)].aclRead ==> Honoured(c.base.policies, id, r)
    ensures Listed(c.base.policies, EngageEpisode, roles, id, c.index.events[id]) == Delivered(pins, roles)
  {
    EngageListingMeaning(c, stale, id, roles);
    DeliveryMeaning(c.base, id, pins, roles);
    if r :| r in c.base.pins[(id, ENGAGE)].aclRead && r in roles {
      assert !IsAdmin([r]) by { assert r != "ROLE_ADMIN" && r != "ROLE_GLOBAL_ADMIN"; }
    }
  }

  lemma {:induction false} UnhonouredPinDiffers(c: Catalog, stale: set<SeriesId>, id: EventId, pins: seq<PublicationPin>, r: Role)
    requires Agrees(c, stale) && id in c.index.events && Named(id) && ServedFromEngage(c.base, id, pins)
    requires r in c.base.pins[(id, ENGAGE)].aclRead && !Honoured(c.base.policies, id, r)
    ensures !IsAdmin([r]) && Delivered(pins, [r])
    ensures !Listed(c.base.policies, EngageEpisode, [r], id, c.index.events[id])
  {
    assert r in [r];
    EngageListingMeaning(c, stale, id, [r]);
    DeliveryMeaning(c.base, id, pins, [r]);
  }

  /** Seeing an event on engage and fetching what it serves are the same for
      every non-admin exactly when every pinned role is still honoured by the
      listing: known to the live vocabulary and not shaped like a direct grant
      of another event. */
  lemma {:induction false} ListingMeetsDeliveryExactly(c: Catalog, stale: set<SeriesId>, id: EventId, pins: seq<PublicationPin>)
    requires Agrees(c, stale) && id in c.index.events && Named(id) && ServedFromEngage(c.base, id, pins)
    ensures (forall roles :: !IsAdmin(roles) ==>
          Listed(c.base.policies, EngageEpisode, roles, id, c.index.events[id]) == Delivered(pins, roles))
      <==> forall r :: r in c.base.pins[(id, ENGAGE)].aclRead ==> Honoured(c.base.policies, id, r)
  {
    if forall r :: r in c.base.pins[(id, ENGAGE)].aclRead ==> Honoured(c.base.policies, id, r) {
      forall roles | !IsAdmin(roles)
        ensures Listed(c.base.policies, EngageEpisode, roles, id, c.index.events[id]) == Delivered(pins, roles)
      {
        HonouredPinAgrees(c, stale, id, pins, roles);
      }
    } else {
      var r :| r in c.base.pins[(id, ENGAGE)].aclRead && !Honoured(c.base.policies, id, r);
      UnhonouredPinDiffers(c, stale, id, pins, r);
    }
  }
}
