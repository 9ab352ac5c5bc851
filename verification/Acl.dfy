/** Access control lists: what is stored, and the one deny rule behind every
    decision (internal/acl, internal/serve/authz.go, internal/adminapi). */
module Acl {
  import opened Common

  type Role = string
  type ActionName = string

  datatype Scope = EventScope | SeriesScope

  datatype Entry = Entry(role: Role, action: ActionName, allow: bool)

  datatype AclState = Absent | Empty | Populated

  /** acl_policy and acl_entry: no key is ABSENT, no entries is EMPTY. */
  type Policies = map<(Scope, string), set<Entry>>

  function StateOf(p: Policies, scope: Scope, id: string): AclState {
    if (scope, id) !in p then Absent else if p[(scope, id)] == {} then Empty else Populated
  }

  function EntriesOf(p: Policies, scope: Scope, id: string): set<Entry> {
    if (scope, id) in p then p[(scope, id)] else {}
  }

  /** The roles a policy grants `action`: allowed and not denied, role by role.
      The projection's arrays and the publish pin are this set. */
  function Granted(entries: set<Entry>, action: ActionName): set<Role> {
    set e | e in entries && e.action == action && e.allow && Entry(e.role, action, false) !in entries :: e.role
  }

  function Denied(entries: set<Entry>, action: ActionName): set<Role> {
    set e | e in entries && e.action == action && !e.allow :: e.role
  }

  /** On the stored rows: `roles` are those with an allow and no deny of `action`. */
  ghost predicate Says(p: Policies, scope: Scope, id: string, action: ActionName, roles: set<Role>) {
    forall r :: r in roles <==>
      (scope, id) in p && Entry(r, action, true) in p[(scope, id)] && Entry(r, action, false) !in p[(scope, id)]
  }

  /** On the stored rows: no policy, a policy without entries, or one with entries. */
  ghost predicate IsState(p: Policies, scope: Scope, id: string, state: AclState) {
    match state
    case Absent => (scope, id) !in p
    case Empty => (scope, id) in p && forall e :: e !in p[(scope, id)]
    case Populated => (scope, id) in p && exists e :: e in p[(scope, id)]
  }

  /** What the projection and the pin evaluate is what the stored rows say. */
  lemma {:induction false} GrantedSays(p: Policies, scope: Scope, id: string, action: ActionName)
    ensures Says(p, scope, id, action, Granted(EntriesOf(p, scope, id), action))
    ensures IsState(p, scope, id, StateOf(p, scope, id))
  {
    if (scope, id) in p && p[(scope, id)] != {} { var e :| e in p[(scope, id)]; }
    forall r | r in Granted(EntriesOf(p, scope, id), action)
      ensures Entry(r, action, true) in EntriesOf(p, scope, id)
    {
      var e :| e in EntriesOf(p, scope, id) && e.action == action && e.allow && e.role == r;
      assert e == Entry(r, action, true);
    }
  }

  function SetOf<T>(s: seq<T>): set<T> {
    set x | x in s
  }

  predicate Meets(a: set<Role>, b: set<Role>) {
    exists r :: r in a && r in b
  }

  /** The decision rule: a held role is granted and no held role is denied. */
  predicate Allows(entries: set<Entry>, held: set<Role>, action: ActionName) {
    Meets(Granted(entries, action), held) && !Meets(Denied(entries, action), held)
  }

  /** The overlap of held roles with a projected array decides like the rule for
      every principal exactly when the policy does not both grant and deny. */
  lemma {:induction false} OverlapDecidesExactlyWithoutVeto(entries: set<Entry>, action: ActionName)
    ensures (forall held: set<Role> :: Allows(entries, held, action) == Meets(Granted(entries, action), held))
      <==> Granted(entries, action) == {} || Denied(entries, action) == {}
  {
    if Granted(entries, action) != {} && Denied(entries, action) != {} {
      var g, d :| g in Granted(entries, action) && d in Denied(entries, action);
      var held := {g, d};
      assert Meets(Granted(entries, action), held) && Meets(Denied(entries, action), held);
    }
  }

  /** A write of an entry list is refused when a role or action is empty. */
  predicate Writable(entries: seq<Entry>) {
    forall e :: e in entries ==> e.role != "" && e.action != ""
  }

  class AclStore {
    var policies: Policies

    constructor ()
      ensures policies == map[]
    {
      policies := map[];
    }

    /** Full replace inside the caller's transaction; on an error the caller
        rolls back, so only success is a statement about what is stored. */
    method SetTx(scope: Scope, id: string, entries: seq<Entry>) returns (r: Result<(), string>)
      modifies this
      ensures r.Ok? <==> forall i :: 0 <= i < |entries| ==> entries[i].role != "" && entries[i].action != ""
      ensures r.Ok? <==> Writable(entries)
      ensures r.Ok? ==> policies == old(policies)[(scope, id) := SetOf(entries)]
      ensures r.Ok? ==> forall e :: e in policies[(scope, id)] <==> e in entries
    {
      policies := policies[(scope, id) := {}];
      assert SetOf(entries[..0]) == {};
      for i := 0 to |entries|
        invariant policies == old(policies)[(scope, id) := SetOf(entries[..i])]
        invariant Writable(entries[..i])
      {
        var e := entries[i];
        if e.role == "" || e.action == "" {
          assert e in entries;
          return Err("empty role or action");
        }
        assert entries[..i + 1] == entries[..i] + [e];
        assert SetOf(entries[..i + 1]) == SetOf(entries[..i]) + {e};
        policies := policies[(scope, id) := policies[(scope, id)] + {e}];
      }
      assert entries[..|entries|] == entries;
      r := Ok(());
    }

    /** Returns exactly what is stored, denies included, each entry once. */
    method Get(scope: Scope, id: string) returns (entries: seq<Entry>, state: AclState)
      ensures state == StateOf(policies, scope, id) && IsState(policies, scope, id, state)
      ensures SetOf(entries) == EntriesOf(policies, scope, id) && |entries| == |EntriesOf(policies, scope, id)|
      ensures forall e :: e in entries <==> (scope, id) in policies && e in policies[(scope, id)]
    {
      GrantedSays(policies, scope, id, "");
      if (scope, id) !in policies {
        return [], Absent;
      }
      var todo := policies[(scope, id)];
      entries := [];
      while todo != {}
        invariant todo <= policies[(scope, id)]
        invariant SetOf(entries) == policies[(scope, id)] - todo
        invariant |entries| == |policies[(scope, id)]| - |todo|
        decreases todo
      {
        var e :| e in todo;
        assert SetOf(entries + [e]) == SetOf(entries) + {e};
        entries := entries + [e];
        todo := todo - {e};
      }
      assert |entries| == 0 ==> policies[(scope, id)] == {};
      state := if |entries| == 0 then Empty else Populated;
    }
  }

  method Held(roles: seq<Role>) returns (held: set<Role>)
    ensures held == SetOf(roles)
  {
    held := {};
    for i := 0 to |roles|
      invariant held == SetOf(roles[..i])
    {
      assert roles[..i + 1] == roles[..i] + [roles[i]];
      held := held + {roles[i]};
    }
    assert roles[..|roles|] == roles;
  }

  /** The authorization decision: a populated policy whose granted roles meet
      the held ones, and no held role is denied. The veto ranges over all held
      roles, the granted set subtracts role by role. */
  method Evaluate(entries: seq<Entry>, state: AclState, roles: seq<Role>, action: ActionName) returns (ok: bool)
    ensures ok == (state == Populated && Allows(SetOf(entries), SetOf(roles), action))
    ensures ok <==> (
      && state == Populated
      && (exists e :: e in entries && e.action == action && e.allow && e.role in roles)
      && (forall e :: e in entries && e.action == action && e.role in roles ==> e.allow))
  {
    if state != Populated {
      return false;
    }
    var held := Held(roles);
    var allowed := false;
    for i := 0 to |entries|
      invariant forall j :: 0 <= j < i && entries[j].action == action && entries[j].role in held ==> entries[j].allow
      invariant allowed <==> exists j :: 0 <= j < i && entries[j].action == action && entries[j].role in held
    {
      var e := entries[i];
      if e.action != action || e.role !in held {
        continue;
      }
      if !e.allow {
        assert e.role in Denied(SetOf(entries), action);
        return false;
      }
      allowed := true;
    }
    EvaluateMeaning(entries, roles, action);
    return allowed;
  }

  /** Without a held deny, any held allow is a granted role. */
  lemma EvaluateMeaning(entries: seq<Entry>, roles: seq<Role>, action: ActionName)
    requires forall j :: 0 <= j < |entries| && entries[j].action == action && entries[j].role in roles ==> entries[j].allow
    ensures !Meets(Denied(SetOf(entries), action), SetOf(roles))
    ensures Meets(Granted(SetOf(entries), action), SetOf(roles))
      <==> exists j :: 0 <= j < |entries| && entries[j].action == action && entries[j].role in roles
  {
    if j :| 0 <= j < |entries| && entries[j].action == action && entries[j].role in roles {
      var r := entries[j].role;
      assert Entry(r, action, false) !in entries;
      assert entries[j] in SetOf(entries) && entries[j].allow;
      assert r in Granted(SetOf(entries), action) && r in SetOf(roles);
    }
  }

  /** One role's row in the rendered access block. */
  datatype Privileges = Privileges(read: bool, write: bool, readSet: bool, writeSet: bool)

  predicate Mentions(entries: seq<Entry>, r: Role, action: ActionName) {
    exists j :: 0 <= j < |entries| && entries[j].role == r && entries[j].action == action
  }

  predicate AllAllow(entries: seq<Entry>, r: Role, action: ActionName) {
    forall j :: 0 <= j < |entries| && entries[j].role == r && entries[j].action == action ==> entries[j].allow
  }

  function Fold(p: Privileges, e: Entry): Privileges {
    if e.action == "read" then p.(read := if p.readSet then p.read && e.allow else e.allow, readSet := true)
    else if e.action == "write" then p.(write := if p.writeSet then p.write && e.allow else e.allow, writeSet := true)
    else p
  }

  ghost predicate Folded(p: Privileges, entries: seq<Entry>, r: Role) {
    && (p.readSet <==> Mentions(entries, r, "read"))
    && (p.writeSet <==> Mentions(entries, r, "write"))
    && (p.read <==> Mentions(entries, r, "read") && AllAllow(entries, r, "read"))
    && (p.write <==> Mentions(entries, r, "write") && AllAllow(entries, r, "write"))
  }

  lemma FoldOne(p: Privileges, entries: seq<Entry>, e: Entry)
    requires Folded(p, entries, e.role)
    ensures Folded(Fold(p, e), entries + [e], e.role)
    ensures forall r, a :: r != e.role ==> Mentions(entries + [e], r, a) == Mentions(entries, r, a)
    ensures forall r, a :: r != e.role ==> AllAllow(entries + [e], r, a) == AllAllow(entries, r, a)
  {
    var all := entries + [e];
    assert all[|entries|] == e;
    forall r, a ensures Mentions(all, r, a) <==> Mentions(entries, r, a) || (r == e.role && a == e.action)
      ensures AllAllow(all, r, a) <==> AllAllow(entries, r, a) && (r == e.role && a == e.action ==> e.allow)
    {
      assert forall j :: 0 <= j < |entries| ==> all[j] == entries[j];
    }
  }

  lemma GrantedIsAllAllow(entries: seq<Entry>, r: Role, action: ActionName)
    ensures r in Granted(SetOf(entries), action) <==> Mentions(entries, r, action) && AllAllow(entries, r, action)
  {
    if Mentions(entries, r, action) && AllAllow(entries, r, action) {
      var j :| 0 <= j < |entries| && entries[j].role == r && entries[j].action == action;
      assert entries[j] in SetOf(entries);
    }
    if r in Granted(SetOf(entries), action) {
      assert Entry(r, action, true) in entries;
      forall j | 0 <= j < |entries| && entries[j].role == r && entries[j].action == action ensures entries[j].allow {
        assert entries[j] in SetOf(entries);
      }
    }
  }

  /** The deny-sticky fold: whatever the order of the entries, a role shows as
      readable (writable) exactly when the policy grants it. */
  method AccessBlock(entries: seq<Entry>) returns (byRole: map<Role, Privileges>)
    ensures forall r :: r in byRole <==> exists e :: e in entries && e.role == r
    ensures forall r :: r in byRole ==>
      && (byRole[r].read <==> r in Granted(SetOf(entries), "read"))
      && (byRole[r].write <==> r in Granted(SetOf(entries), "write"))
      && (byRole[r].readSet <==> Mentions(entries, r, "read"))
      && (byRole[r].writeSet <==> Mentions(entries, r, "write"))
    ensures (set r | r in byRole && byRole[r].read) == Granted(SetOf(entries), "read")
    ensures (set r | r in byRole && byRole[r].write) == Granted(SetOf(entries), "write")
  {
    byRole := map[];
    for i := 0 to |entries|
      invariant forall r :: r in byRole <==> exists j :: 0 <= j < i && entries[j].role == r
      invariant forall r :: r in byRole ==> Folded(byRole[r], entries[..i], r)
    {
      var e := entries[i];
      var p := if e.role in byRole then byRole[e.role] else Privileges(false, false, false, false);
      if e.role !in byRole {
        assert forall a :: !Mentions(entries[..i], e.role, a);
      }
      FoldOne(p, entries[..i], e);
      assert entries[..i + 1] == entries[..i] + [e];
      byRole := byRole[e.role := Fold(p, e)];
    }
    assert entries[..|entries|] == entries;
    forall r ensures r in Granted(SetOf(entries), "read") <==> r in byRole && byRole[r].read
      ensures r in Granted(SetOf(entries), "write") <==> r in byRole && byRole[r].write
    {
      GrantedIsAllAllow(entries, r, "read");
      GrantedIsAllAllow(entries, r, "write");
    }
    forall r | r in byRole ensures exists e :: e in entries && e.role == r {
      var j :| 0 <= j < |entries| && entries[j].role == r;
      assert entries[j] in entries;
    }
  }

  method WriteDenied(entries: seq<Entry>, roles: seq<Role>) returns (denied: bool)
    ensures denied <==> Meets(Denied(SetOf(entries), "write"), SetOf(roles))
    ensures denied <==> exists e :: e in entries && e.action == "write" && !e.allow && e.role in roles
  {
    var held := Held(roles);
    for i := 0 to |entries|
      invariant forall j :: 0 <= j < i ==> !(entries[j].action == "write" && !entries[j].allow && entries[j].role in held)
    {
      if entries[i].action == "write" && !entries[i].allow && entries[i].role in held {
        assert entries[i].role in Denied(SetOf(entries), "write");
        return true;
      }
    }
    return false;
  }

  predicate IsAdmin(roles: seq<Role>) {
    "ROLE_ADMIN" in roles || "ROLE_GLOBAL_ADMIN" in roles
  }

  function WriteGrant(id: string): Role {
    "ROLE_EPISODE_" + id + "_WRITE"
  }

  predicate MayWrite(entries: set<Entry>, roles: seq<Role>, id: string) {
    && !Meets(Denied(entries, "write"), SetOf(roles))
    && (Meets(Granted(entries, "write"), SetOf(roles)) || WriteGrant(id) in roles)
  }

  /** Write access to an event, on entries and state as Get returned them: for a
      non-admin, no held role is denied and some held role is granted, or the
      principal holds the event's direct grant. */
  method CanWriteEvent(entries: seq<Entry>, state: AclState, roles: seq<Role>, id: string) returns (ok: bool)
    requires state == Populated <==> entries != []
    ensures ok == (IsAdmin(roles) || MayWrite(SetOf(entries), roles, id))
    ensures "ROLE_ADMIN" in roles || "ROLE_GLOBAL_ADMIN" in roles ==> ok
    ensures "ROLE_ADMIN" !in roles && "ROLE_GLOBAL_ADMIN" !in roles ==> (ok <==>
      && (forall e :: e in entries && e.action == "write" && e.role in roles ==> e.allow)
      && ((exists e :: e in entries && e.action == "write" && e.role in roles) || "ROLE_EPISODE_" + id + "_WRITE" in roles))
  {
    if IsAdmin(roles) {
      return true;
    }
    var evaluated := Evaluate(entries, state, roles, "write");
    if evaluated {
      return true;
    }
    for i := 0 to |roles|
      invariant WriteGrant(id) !in roles[..i]
    {
      if roles[i] == "ROLE_EPISODE_" + id + "_WRITE" {
        var denied := WriteDenied(entries, roles);
        return !denied;
      }
      assert roles[..i + 1] == roles[..i] + [roles[i]];
    }
    assert roles[..|roles|] == roles;
    assert entries == [] ==> SetOf(entries) == {};
    return false;
  }

  /** One containing publication as delivery reads it. */
  datatype PublicationPin = PublicationPin(event: string, channel: string, aclRead: seq<Role>, aclState: AclState)

  function ReadGrant(id: string): Role {
    "ROLE_EPISODE_" + id + "_READ"
  }

  predicate PinAdmits(p: PublicationPin, roles: seq<Role>) {
    ReadGrant(p.event) in roles || Meets(SetOf(p.aclRead), SetOf(roles))
  }

  /** The delivery decision, on the publish-time pins only. */
  method Authorized(pins: seq<PublicationPin>, roles: seq<Role>) returns (ok: bool)
    ensures ok == (IsAdmin(roles) || exists p :: p in pins && PinAdmits(p, roles))
    ensures "ROLE_ADMIN" in roles || "ROLE_GLOBAL_ADMIN" in roles ==> ok
    ensures "ROLE_ADMIN" !in roles && "ROLE_GLOBAL_ADMIN" !in roles ==> (ok <==>
      exists p :: p in pins && ("ROLE_EPISODE_" + p.event + "_READ" in roles || exists r :: r in p.aclRead && r in roles))
  {
    if IsAdmin(roles) {
      return true;
    }
    var held := Held(roles);
    for i := 0 to |pins|
      invariant forall k :: 0 <= k < i ==> !PinAdmits(pins[k], roles) && ReadGrant(pins[k].event) !in roles
      invariant forall k, r :: 0 <= k < i && r in pins[k].aclRead ==> r !in roles
    {
      var pin := pins[i];
      if "ROLE_EPISODE_" + pin.event + "_READ" in held {
        assert pin in pins;
        return true;
      }
      for j := 0 to |pin.aclRead|
        invariant forall k :: 0 <= k < j ==> pin.aclRead[k] !in held
      {
        if pin.aclRead[j] in held {
          assert pin in pins && pin.aclRead[j] in SetOf(pin.aclRead) && pin.aclRead[j] in roles;
          return true;
        }
      }
    }
    return false;
  }
}
