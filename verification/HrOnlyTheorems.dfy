/** The roles during a reconciliation (apps/api/src/hr-only-access.ts, lines 127-169). */
module HrRoles {
  import opened Options
  import opened HrPolicy
  import opened HrAccess

  ghost predicate SameKeySet(a: seq<string>, b: seq<string>) {
    forall k :: k in a <==> k in b
  }

  ghost predicate DistinctRoles(s: Rbac) {
    && (forall i, j :: 0 <= i < j < |s.roles| ==> s.roles[i].id != s.roles[j].id)
    && (forall i, j :: 0 <= i < j < |s.roles| && s.roles[i].key.Some? ==> s.roles[i].key != s.roles[j].key)
    && (forall i :: 0 <= i < |s.roles| ==> s.roles[i].id < s.nextId)
    && (forall i :: 0 <= i < |s.assignments| ==> s.assignments[i].roleId < s.nextId && s.assignments[i].id < s.nextId)
  }

  ghost predicate DistinctGrants(s: Rbac) {
    forall i, j :: 0 <= i < j < |s.assignments| ==> s.assignments[i].id != s.assignments[j].id
  }

  /** `ux_userId_roleId_scope_department`: one grant per role, scope and company-wide department. */
  ghost predicate OneGrantEach(assignments: seq<Assignment>) {
    forall i, j :: 0 <= i < j < |assignments| ==> !SameClaim(assignments[i], assignments[j])
  }

  predicate SameClaim(a: Assignment, b: Assignment) {
    a.roleId == b.roleId && a.scope == b.scope && a.terms.place.catalog == b.terms.place.catalog
  }

  /** A derivative grants the HR part of its source and is an ordinary role. */
  ghost predicate Faithful(hr: string -> bool, sources: seq<Role>, d: Role) {
    IsDerivedKey(d.key) ==>
      && !d.isSystem && AllHr(hr, d.permissionKeys)
      && forall i :: 0 <= i < |sources| && d.key == Some(DerivedKey(sources[i].id)) ==>
           SameKeySet(d.permissionKeys, HrKeysOf(hr, sources[i].permissionKeys))
  }

  ghost predicate AllFaithful(hr: string -> bool, sources: seq<Role>, roles: seq<Role>) {
    forall i :: 0 <= i < |roles| ==> Faithful(hr, sources, roles[i])
  }

  /** What a role may turn into: itself, with its keys listed anew if it is a derivative. */
  ghost predicate Refreshed(a: Role, b: Role) {
    && a.id == b.id && a.key == b.key && a.isSystem == b.isSystem
    && (if IsDerivedKey(a.key) then SameKeySet(a.permissionKeys, b.permissionKeys) else a == b)
  }

  /** The roles of `t` are those of `s`, and derivatives made since. */
  ghost predicate RolesGrow(s: Rbac, t: Rbac) {
    && |s.roles| <= |t.roles| && s.nextId <= t.nextId
    && (forall i :: 0 <= i < |s.roles| ==> Refreshed(s.roles[i], t.roles[i]))
    && (forall i :: |s.roles| <= i < |t.roles| ==> IsDerivedKey(t.roles[i].key) && t.roles[i].id >= s.nextId)
  }

  lemma {:induction false} RefreshedTrans(a: Role, b: Role, c: Role)
    requires Refreshed(a, b) && Refreshed(b, c)
    ensures Refreshed(a, c)
  {
  }

  lemma {:induction false} RolesGrowTrans(s: Rbac, t: Rbac, u: Rbac)
    requires RolesGrow(s, t) && RolesGrow(t, u)
    ensures RolesGrow(s, u)
  {
    hide Refreshed;
    forall i | 0 <= i < |s.roles| ensures Refreshed(s.roles[i], u.roles[i]) {
      RefreshedTrans(s.roles[i], t.roles[i], u.roles[i]);
    }
    forall i | |s.roles| <= i < |u.roles| ensures IsDerivedKey(u.roles[i].key) && u.roles[i].id >= s.nextId {
      if i < |t.roles| {
        RefreshedKey(t.roles[i], u.roles[i]);
      }
    }
  }

  lemma {:induction false} RefreshedKey(a: Role, b: Role)
    requires Refreshed(a, b)
    ensures a.id == b.id && a.key == b.key && a.isSystem == b.isSystem
  {
    hide SameKeySet;
  }

  lemma {:induction false} RoleWithIdIs(roles: seq<Role>, id: nat)
    ensures RoleWithId(roles, id).Some? ==>
              exists i :: 0 <= i < |roles| && roles[i] == RoleWithId(roles, id).value && roles[i].id == id
    ensures RoleWithId(roles, id).None? ==> forall i :: 0 <= i < |roles| ==> roles[i].id != id
  {
    if roles != [] && roles[0].id != id {
      RoleWithIdIs(roles[1..], id);
      assert forall i :: 1 <= i < |roles| ==> roles[i] == roles[1..][i - 1];
    }
  }

  lemma {:induction false} RoleWithKeyIs(roles: seq<Role>, key: string)
    ensures RoleWithKey(roles, key).Some? ==>
      exists i :: 0 <= i < |roles| && roles[i] == RoleWithKey(roles, key).value && roles[i].key == Some(key)
    ensures RoleWithKey(roles, key).None? ==> forall i :: 0 <= i < |roles| ==> roles[i].key != Some(key)
  {
    if roles != [] && roles[0].key != Some(key) {
      RoleWithKeyIs(roles[1..], key);
      assert forall i :: 1 <= i < |roles| ==> roles[i] == roles[1..][i - 1];
    }
  }

  lemma {:induction false} RoleAt(s: Rbac, i: nat)
    requires DistinctRoles(s) && i < |s.roles|
    ensures RoleWithId(s.roles, s.roles[i].id) == Some(s.roles[i])
  {
    hide RoleWithId;
    RoleWithIdIs(s.roles, s.roles[i].id);
    var j :| 0 <= j < |s.roles| && Some(s.roles[j]) == RoleWithId(s.roles, s.roles[i].id) &&
      s.roles[j].id == s.roles[i].id;
  }

  /** A role that is looked up again is the same role, refreshed. */
  lemma {:induction false} RoleLater(s: Rbac, t: Rbac, id: nat)
    requires DistinctRoles(s) && DistinctRoles(t) && RolesGrow(s, t) && id < s.nextId
    ensures RoleWithId(s.roles, id).Some? <==> RoleWithId(t.roles, id).Some?
    ensures RoleWithId(s.roles, id).Some? ==> Refreshed(RoleWithId(s.roles, id).value, RoleWithId(t.roles, id).value)
  {
    hide RoleWithId;
    RoleWithIdIs(s.roles, id);
    RoleWithIdIs(t.roles, id);
    if RoleWithId(s.roles, id).Some? {
      var i :| 0 <= i < |s.roles| && s.roles[i] == RoleWithId(s.roles, id).value && s.roles[i].id == id;
      assert Refreshed(s.roles[i], t.roles[i]);
      RoleAt(t, i);
    } else {
      forall i | 0 <= i < |t.roles| ensures t.roles[i].id != id {
        if i < |s.roles| {
          assert Refreshed(s.roles[i], t.roles[i]);
        }
      }
    }
  }

  /** A state on the way from `s0`: derivatives are faithful to the roles the run began with. */
  ghost predicate OnTheWay(hr: string -> bool, s0: Rbac, s: Rbac) {
    DistinctRoles(s) && RolesGrow(s0, s) && AllFaithful(hr, s0.roles, s.roles)
  }

  /** What `ensureManagedRole` leaves: the derivative under its key, faithful, and every grant as it was. */
  lemma {:induction false} EnsureKeeps(hr: string -> bool, s0: Rbac, s: Rbac, i: nat)
    requires OnTheWay(hr, s0, s) && DistinctRoles(s0) && i < |s0.roles|
    requires HrKeysOf(hr, s0.roles[i].permissionKeys) != []
    ensures var role := s0.roles[i];
            var (t, id) := EnsureRole(s, DerivedKey(role.id), HrKeysOf(hr, role.permissionKeys));
            && OnTheWay(hr, s0, t) && RolesGrow(s, t) && t.assignments == s.assignments && id < t.nextId
            && RoleWithId(t.roles, id).Some? && RoleWithId(t.roles, id).value.key == Some(DerivedKey(role.id))
            && SameKeySet(RoleWithId(t.roles, id).value.permissionKeys, HrKeysOf(hr, role.permissionKeys))
            && (id < s.nextId ==>
              RoleWithId(s.roles, id).Some? && RoleWithId(s.roles, id).value.key == Some(DerivedKey(role.id)))
  {
    hide RoleWithId, RoleWithKey, DerivedKey, SetKeys;
    var role := s0.roles[i];
    var key, keys := DerivedKey(role.id), HrKeysOf(hr, role.permissionKeys);
    DerivedKeyIsDerived(role.id);
    RoleWithKeyIs(s.roles, key);
    if RoleWithKey(s.roles, key).Some? {
      var k :| 0 <= k < |s.roles| && s.roles[k] == RoleWithKey(s.roles, key).value && s.roles[k].key == Some(key);
      EnsureExisting(hr, s0, s, i, k);
    } else {
      EnsureNew(hr, s0, s, i);
    }
  }

  lemma {:induction false} DerivedKeyIsDerived(id: nat)
    ensures IsDerivedKey(Some(DerivedKey(id)))
  {
  }

  lemma {:induction false} EnsureExisting(hr: string -> bool, s0: Rbac, s: Rbac, i: nat, k: nat)
    requires OnTheWay(hr, s0, s) && i < |s0.roles| && k < |s.roles| &&
             s.roles[k].key == Some(DerivedKey(s0.roles[i].id))
    ensures var keys := HrKeysOf(hr, s0.roles[i].permissionKeys);
            var t := s.(roles := SetKeys(s.roles, s.roles[k].id, keys));
            && OnTheWay(hr, s0, t) && RolesGrow(s, t)
            && RoleWithId(t.roles, s.roles[k].id) == Some(s.roles[k].(permissionKeys := keys))
            && RoleWithId(s.roles, s.roles[k].id) == Some(s.roles[k])
  {
    hide RoleWithId, DerivedKey, HrKeysOf;
    var keys := HrKeysOf(hr, s0.roles[i].permissionKeys);
    var id := s.roles[k].id;
    var t := s.(roles := SetKeys(s.roles, id, keys));
    DerivedKeyIsDerived(s0.roles[i].id);
    assert Faithful(hr, s0.roles, s.roles[k]);
    assert SameKeySet(s.roles[k].permissionKeys, keys);
    HrKeysAreHr(hr, s0.roles[i].permissionKeys);
    assert DistinctRoles(t);
    assert forall j :: 0 <= j < |s.roles| && j != k ==> t.roles[j] == s.roles[j];
    assert t.roles[k] == s.roles[k].(permissionKeys := keys);
    assert Refreshed(s.roles[k], t.roles[k]);
    forall j | 0 <= j < |s.roles| ensures Refreshed(s.roles[j], t.roles[j]) {
    }
    RolesGrowTrans(s0, s, t);
    FaithfulRefreshed(hr, s0.roles, s.roles[k], t.roles[k]);
    RoleAt(t, k);
    RoleAt(s, k);
  }

  lemma {:induction false} HrKeysAreHr(hr: string -> bool, keys: seq<string>)
    ensures AllHr(hr, HrKeysOf(hr, keys))
  {
    var r := HrKeysOf(hr, keys);
    forall i | 0 <= i < |r| ensures hr(r[i]) {
      assert r[i] in r;
    }
  }

  lemma {:induction false} FaithfulRefreshed(hr: string -> bool, sources: seq<Role>, a: Role, b: Role)
    requires Faithful(hr, sources, a) && Refreshed(a, b) && AllHr(hr, b.permissionKeys)
    ensures Faithful(hr, sources, b)
  {
    hide HrKeysOf, DerivedKey, AllHr;
  }

  lemma {:induction false} EnsureNew(hr: string -> bool, s0: Rbac, s: Rbac, i: nat)
    requires OnTheWay(hr, s0, s) && DistinctRoles(s0) && i < |s0.roles|
    requires forall j :: 0 <= j < |s.roles| ==> s.roles[j].key != Some(DerivedKey(s0.roles[i].id))
    ensures var keys := HrKeysOf(hr, s0.roles[i].permissionKeys);
            var role := Role(s.nextId, Some(DerivedKey(s0.roles[i].id)), false, keys);
            var t := s.(roles := s.roles + [role], nextId := s.nextId + 1);
            OnTheWay(hr, s0, t) && RolesGrow(s, t) && RoleWithId(t.roles, s.nextId) == Some(role)
  {
    hide RoleWithId, DerivedKey, HrKeysOf;
    var keys := HrKeysOf(hr, s0.roles[i].permissionKeys);
    var role := Role(s.nextId, Some(DerivedKey(s0.roles[i].id)), false, keys);
    var t := s.(roles := s.roles + [role], nextId := s.nextId + 1);
    DerivedKeyIsDerived(s0.roles[i].id);
    HrKeysAreHr(hr, s0.roles[i].permissionKeys);
    assert DistinctRoles(t);
    RolesGrowTrans(s0, s, t);
    forall j | 0 <= j < |s0.roles| && role.key == Some(DerivedKey(s0.roles[j].id))
      ensures SameKeySet(role.permissionKeys, HrKeysOf(hr, s0.roles[j].permissionKeys))
    {
      DerivedKeysApart(s0.roles[i].id, s0.roles[j].id);
      assert i == j;
    }
    assert Faithful(hr, s0.roles, role);
    assert t.roles[|s.roles|] == role;
    RoleAt(t, |s.roles|);
  }
}

/** What the user may do, step by step (apps/api/src/hr-only-access.ts, lines 127-176). */
module HrGrants {
  import opened Options
  import opened HrPolicy
  import opened HrAccess
  import opened HrRoles

  predicate ActiveAt(w: Window, now: int) {
    (w.validFrom.Some? ==> w.validFrom.value <= now) && (w.validTo.Some? ==> now < w.validTo.value)
  }

  /** The assignment grants the key at the scope, at that time. */
  predicate Gives(roles: seq<Role>, a: Assignment, now: int, key: string, scope: nat, place: Place) {
    var role := RoleWithId(roles, a.roleId);
    && a.scope == scope && a.terms.place == place && ActiveAt(a.terms.window, now)
    && role.Some? && key in role.value.permissionKeys
  }

  ghost predicate Granted(s: Rbac, now: int, key: string, scope: nat, place: Place) {
    exists i :: 0 <= i < |s.assignments| && Gives(s.roles, s.assignments[i], now, key, scope, place)
  }

  lemma {:induction false} GivesLater(s: Rbac, t: Rbac, a: Assignment, now: int, key: string, scope: nat, place: Place)
    requires DistinctRoles(s) && DistinctRoles(t) && RolesGrow(s, t) && a.roleId < s.nextId
    ensures Gives(s.roles, a, now, key, scope, place) <==> Gives(t.roles, a, now, key, scope, place)
  {
    hide RoleWithId;
    RoleLater(s, t, a.roleId);
  }

  /** The user holds a derivative of role `r` at the scope, on the terms. */
  ghost predicate DerivedHeld(s: Rbac, r: nat, scope: nat, w: Terms) {
    exists i :: 0 <= i < |s.assignments| && IsDerivative(s.roles, s.assignments[i], r) &&
      s.assignments[i].scope == scope && s.assignments[i].terms == w
  }

  predicate IsDerivative(roles: seq<Role>, a: Assignment, r: nat) {
    var role := RoleWithId(roles, a.roleId);
    role.Some? && role.value.key == Some(DerivedKey(r))
  }

  lemma {:induction false} DerivativeLater(s: Rbac, t: Rbac, a: Assignment, r: nat)
    requires DistinctRoles(s) && DistinctRoles(t) && RolesGrow(s, t) && a.roleId < s.nextId
    ensures IsDerivative(s.roles, a, r) <==> IsDerivative(t.roles, a, r)
  {
    hide RoleWithId, SameKeySet, DerivedKey;
    RoleLater(s, t, a.roleId);
  }

  /** The role carrying a key is one role, so holding the derivative is holding its id. */
  lemma {:induction false} DerivativeId(s: Rbac, a: Assignment, b: Assignment, r: nat)
    requires DistinctRoles(s) && IsDerivative(s.roles, a, r) && IsDerivative(s.roles, b, r)
    ensures a.roleId == b.roleId
  {
    hide RoleWithId, DerivedKey;
    RoleWithIdIs(s.roles, a.roleId);
    RoleWithIdIs(s.roles, b.roleId);
    var i :| 0 <= i < |s.roles| && s.roles[i] == RoleWithId(s.roles, a.roleId).value && s.roles[i].id == a.roleId;
    var j :| 0 <= j < |s.roles| && s.roles[j] == RoleWithId(s.roles, b.roleId).value && s.roles[j].id == b.roleId;
    assert i == j;
  }

  // ---------------------------------------------------------------- mirroring

  ghost predicate AnyDerived(s: Rbac, r: nat, scope: nat) {
    exists w :: DerivedHeld(s, r, scope, w)
  }

  /** Everything that is known of a state in the middle of a run. */
  ghost predicate Midway(hr: string -> bool, s0: Rbac, s: Rbac) {
    OnTheWay(hr, s0, s) && DistinctGrants(s) && DistinctRoles(s0)
  }

  /** The derivative's role is there; the grants are those of before. */
  lemma {:induction false} AfterEnsure(
    hr: string -> bool, s0: Rbac, s: Rbac, i: nat, now: int, key: string, scope: nat, place: Place)
    requires Midway(hr, s0, s) && i < |s0.roles| && HrKeysOf(hr, s0.roles[i].permissionKeys) != []
    ensures var t := EnsureRole(s, DerivedKey(s0.roles[i].id), HrKeysOf(hr, s0.roles[i].permissionKeys)).0;
            Midway(hr, s0, t) && (Granted(t, now, key, scope, place) <==> Granted(s, now, key, scope, place))
  {
    hide EnsureRole, RolesGrow, AllFaithful, HrKeysOf, DerivedKey;
    var t := EnsureRole(s, DerivedKey(s0.roles[i].id), HrKeysOf(hr, s0.roles[i].permissionKeys)).0;
    EnsureKeeps(hr, s0, s, i);
    forall j | 0 <= j < |s.assignments|
      ensures Gives(s.roles, s.assignments[j], now, key, scope, place) <==>
                Gives(t.roles, s.assignments[j], now, key, scope, place)
    {
      GivesLater(s, t, s.assignments[j], now, key, scope, place);
    }
  }

  lemma {:induction false} EnsureDerived(hr: string -> bool, s0: Rbac, s: Rbac, i: nat, r: nat, scope: nat, w: Terms)
    requires Midway(hr, s0, s) && i < |s0.roles| && HrKeysOf(hr, s0.roles[i].permissionKeys) != []
    ensures var t := EnsureRole(s, DerivedKey(s0.roles[i].id), HrKeysOf(hr, s0.roles[i].permissionKeys)).0;
            DerivedHeld(t, r, scope, w) <==> DerivedHeld(s, r, scope, w)
  {
    hide EnsureRole, RolesGrow, AllFaithful, HrKeysOf, DerivedKey, IsDerivative;
    var t := EnsureRole(s, DerivedKey(s0.roles[i].id), HrKeysOf(hr, s0.roles[i].permissionKeys)).0;
    EnsureKeeps(hr, s0, s, i);
    forall j | 0 <= j < |s.assignments|
      ensures IsDerivative(s.roles, s.assignments[j], r) <==> IsDerivative(t.roles, s.assignments[j], r)
    {
      DerivativeLater(s, t, s.assignments[j], r);
    }
  }

  /** One more assignment of a role that is known. */
  lemma {:induction false} MirrorSteps(hr: string -> bool, s0: Rbac, t: Rbac, a: Assignment, id: nat)
    requires Midway(hr, s0, t) && id < t.nextId
    ensures Midway(hr, s0, Mirror(t, a, id)) && Mirror(t, a, id).roles == t.roles
    ensures a in t.assignments ==> a in Mirror(t, a, id).assignments
  {
    hide AllFaithful, Refreshed;
    if !Holds(t.assignments, id, a.scope) {
      var u := Mirror(t, a, id);
      assert DistinctRoles(u);
      assert DistinctGrants(u);
    }
  }

  /** What a new mirror grants: the role's keys at the home units. */
  predicate MirrorAdds(t: Rbac, a: Assignment, id: nat, now: int, key: string, scope: nat, place: Place) {
    var role := RoleWithId(t.roles, id);
    && !Holds(t.assignments, id, a.scope) && scope == a.scope && place == Home(a.terms.place)
    && ActiveAt(a.terms.window, now)
    && role.Some? && key in role.value.permissionKeys
  }

  lemma {:induction false} MirrorGrants(
    t: Rbac, a: Assignment, id: nat, now: int, key: string, scope: nat, place: Place)
    ensures Granted(Mirror(t, a, id), now, key, scope, place) <==>
      Granted(t, now, key, scope, place) || MirrorAdds(t, a, id, now, key, scope, place)
  {
    hide RoleWithId;
    var u := Mirror(t, a, id);
    if !Holds(t.assignments, id, a.scope) {
      var n := |t.assignments|;
      assert forall j :: 0 <= j < n ==> u.assignments[j] == t.assignments[j];
      assert u.assignments[n] == Assignment(t.nextId, id, a.scope, Carried(a.terms));
      assert Gives(u.roles, u.assignments[n], now, key, scope, place) <==> MirrorAdds(t, a, id, now, key, scope, place);
      if j :| 0 <= j < n && Gives(t.roles, t.assignments[j], now, key, scope, place) {
        assert Gives(u.roles, u.assignments[j], now, key, scope, place);
      }
    }
  }

  /** The mirror adds the assignment's home and window exactly when the derivative was not held at its scope. */
  lemma {:induction false} MirrorDerived(t: Rbac, a: Assignment, id: nat, r: nat, q: nat, scope: nat, w: Terms)
    requires DistinctRoles(t) && RoleWithId(t.roles, id).Some? &&
             RoleWithId(t.roles, id).value.key == Some(DerivedKey(r))
    ensures DerivedHeld(Mirror(t, a, id), q, scope, w) <==>
      DerivedHeld(t, q, scope, w) || (q == r && scope == a.scope && w == Carried(a.terms) && !AnyDerived(t, r, a.scope))
  {
    hide RoleWithId, DerivedKey;
    var u := Mirror(t, a, id);
    HoldsIff(t, id, r, a.scope);
    if Holds(t.assignments, id, a.scope) {
      assert u == t;
    } else {
      var b := Assignment(t.nextId, id, a.scope, Carried(a.terms));
      assert u.assignments == t.assignments + [b];
      if DerivedHeld(u, q, scope, w) {
        var j :| 0 <= j < |u.assignments| && IsDerivative(u.roles, u.assignments[j], q) &&
          u.assignments[j].scope == scope && u.assignments[j].terms == w;
        if j < |t.assignments| {
          assert IsDerivative(t.roles, t.assignments[j], q);
        } else {
          OneSource(r, q);
        }
      }
      if DerivedHeld(t, q, scope, w) {
        var j :| 0 <= j < |t.assignments| && IsDerivative(t.roles, t.assignments[j], q) &&
          t.assignments[j].scope == scope && t.assignments[j].terms == w;
        assert u.assignments[j] == t.assignments[j];
      }
      if q == r && scope == a.scope && w == Carried(a.terms) {
        assert IsDerivative(u.roles, u.assignments[|t.assignments|], q);
      }
    }
  }

  lemma {:induction false} OneSource(r: nat, q: nat)
    ensures DerivedKey(r) == DerivedKey(q) ==> r == q
  {
    if DerivedKey(r) == DerivedKey(q) {
      DerivedKeysApart(r, q);
    }
  }

  lemma {:induction false} HoldsIff(t: Rbac, id: nat, r: nat, scope: nat)
    requires DistinctRoles(t) && RoleWithId(t.roles, id).Some? &&
             RoleWithId(t.roles, id).value.key == Some(DerivedKey(r))
    ensures Holds(t.assignments, id, scope) <==> AnyDerived(t, r, scope)
  {
    hide RoleWithId, DerivedKey;
    if Holds(t.assignments, id, scope) {
      var i :| 0 <= i < |t.assignments| && t.assignments[i].roleId == id && t.assignments[i].scope == scope;
      assert IsDerivative(t.roles, t.assignments[i], r);
      assert DerivedHeld(t, r, scope, t.assignments[i].terms);
    }
    if AnyDerived(t, r, scope) {
      var w :| DerivedHeld(t, r, scope, w);
      var i :| 0 <= i < |t.assignments| && IsDerivative(t.roles, t.assignments[i], r) &&
        t.assignments[i].scope == scope && t.assignments[i].terms == w;
      var b := Assignment(0, id, scope, w);
      DerivativeId(t, t.assignments[i], b, r);
    }
  }

  // ---------------------------------------------------------------- revoking

  lemma {:induction false} RevokeMember(assignments: seq<Assignment>, id: nat, b: Assignment)
    ensures b in Revoke(assignments, id) <==> b in assignments && b.id != id
  {
    if assignments != [] {
      var n := |assignments| - 1;
      RevokeMember(assignments[..n], id, b);
      assert assignments == assignments[..n] + [assignments[n]];
    }
  }

  ghost predicate DistinctIds(assignments: seq<Assignment>) {
    forall i, j :: 0 <= i < j < |assignments| ==> assignments[i].id != assignments[j].id
  }

  lemma {:induction false} RevokeDistinct(assignments: seq<Assignment>, id: nat)
    requires DistinctIds(assignments)
    ensures DistinctIds(Revoke(assignments, id))
  {
    if assignments != [] {
      var n := |assignments| - 1;
      assert DistinctIds(assignments[..n]);
      RevokeDistinct(assignments[..n], id);
      var rest := Revoke(assignments[..n], id);
      forall i | 0 <= i < |rest| ensures rest[i].id != assignments[n].id {
        assert rest[i] in rest;
        RevokeMember(assignments[..n], id, rest[i]);
        var j :| 0 <= j < n && assignments[..n][j] == rest[i];
      }
    }
  }

  function Without(t: Rbac, a: Assignment): Rbac {
    t.(assignments := Revoke(t.assignments, a.id))
  }

  lemma {:induction false} RevokeSteps(hr: string -> bool, s0: Rbac, t: Rbac, a: Assignment)
    requires Midway(hr, s0, t)
    ensures Midway(hr, s0, Without(t, a))
  {
    hide AllFaithful, Refreshed;
    var u := Without(t, a);
    RevokeDistinct(t.assignments, a.id);
    forall i | 0 <= i < |u.assignments| ensures u.assignments[i].roleId < u.nextId && u.assignments[i].id < u.nextId {
      assert u.assignments[i] in u.assignments;
      RevokeMember(t.assignments, a.id, u.assignments[i]);
      var j :| 0 <= j < |t.assignments| && t.assignments[j] == u.assignments[i];
    }
  }

  lemma {:induction false} SameAssignment(t: Rbac, a: Assignment, i: nat)
    requires DistinctGrants(t) && a in t.assignments && i < |t.assignments|
    ensures t.assignments[i].id == a.id <==> t.assignments[i] == a
  {
    var k :| 0 <= k < |t.assignments| && t.assignments[k] == a;
  }

  lemma {:induction false} RevokeDerived(t: Rbac, a: Assignment, r: nat, scope: nat, w: Terms)
    requires DistinctGrants(t) && a in t.assignments && !IsDerivative(t.roles, a, r)
    ensures DerivedHeld(Without(t, a), r, scope, w) <==> DerivedHeld(t, r, scope, w)
  {
    hide IsDerivative;
    var u := Without(t, a);
    if DerivedHeld(u, r, scope, w) {
      var j :| 0 <= j < |u.assignments| && IsDerivative(u.roles, u.assignments[j], r) &&
        u.assignments[j].scope == scope && u.assignments[j].terms == w;
      assert u.assignments[j] in u.assignments;
      RevokeMember(t.assignments, a.id, u.assignments[j]);
    }
    if DerivedHeld(t, r, scope, w) {
      var i :| 0 <= i < |t.assignments| && IsDerivative(t.roles, t.assignments[i], r) &&
        t.assignments[i].scope == scope && t.assignments[i].terms == w;
      SameAssignment(t, a, i);
      RevokeMember(t.assignments, a.id, t.assignments[i]);
    }
  }
}

/** What the whole reconciliation leaves (apps/api/src/hr-only-access.ts, lines 115-176). */
module HrOnlyTheorems {
  import opened Options
  import opened HrPolicy
  import opened HrAccess
  import opened HrRoles
  import opened HrGrants

  /** The state a run may start from: derivatives that exist are faithful to their sources. */
  ghost predicate Start(hr: string -> bool, s: Rbac) {
    DistinctRoles(s) && DistinctGrants(s) && OneGrantEach(s.assignments) && AllFaithful(hr, s.roles, s.roles)
  }

  /** The assignment stays: nothing is known of its role, or the role stays. */
  predicate AtRest(hr: string -> bool, roles: seq<Role>, b: Assignment) {
    var role := RoleWithId(roles, b.roleId);
    role.Some? ==> Stays(hr, role.value)
  }

  lemma {:induction false} AtRestLater(hr: string -> bool, s: Rbac, t: Rbac, b: Assignment)
    requires DistinctRoles(s) && DistinctRoles(t) && RolesGrow(s, t) && b.roleId < s.nextId && AtRest(hr, s.roles, b)
    ensures AtRest(hr, t.roles, b)
  {
    hide RoleWithId, SameKeySet;
    RoleLater(s, t, b.roleId);
  }

  // ---------------------------------------------------------------- one assignment

  /** The role of an assignment that must go, in the middle of a run: what it was at the start. */
  lemma {:induction false} RoleStillThere(hr: string -> bool, s0: Rbac, s: Rbac, a: Assignment) returns (i: nat)
    requires Midway(hr, s0, s) && IsReplaced(hr, s0.roles, a) && a.roleId < s0.nextId
    ensures i < |s0.roles| && RoleWithId(s0.roles, a.roleId) == Some(s0.roles[i]) && s0.roles[i].id == a.roleId
    ensures RoleWithId(s.roles, a.roleId) == Some(s0.roles[i]) && !IsDerivedKey(s0.roles[i].key)
  {
    hide RoleWithId, AllHr;
    RoleWithIdIs(s0.roles, a.roleId);
    i :| 0 <= i < |s0.roles| && s0.roles[i] == RoleWithId(s0.roles, a.roleId).value && s0.roles[i].id == a.roleId;
    RoleLater(s0, s, a.roleId);
  }

  lemma {:induction false} MirroredSteps(hr: string -> bool, s0: Rbac, s: Rbac, a: Assignment, i: nat)
    requires Midway(hr, s0, s) && a in s.assignments && i < |s0.roles| && s0.roles[i].id == a.roleId
    requires RoleWithId(s.roles, a.roleId) == Some(s0.roles[i])
    ensures var t := Mirrored(hr, s, a, s0.roles[i]);
            && Midway(hr, s0, t) && RolesGrow(s, t) && s.assignments <= t.assignments
            && forall j :: |s.assignments| <= j < |t.assignments| ==> IsDerivative(t.roles, t.assignments[j], a.roleId)
  {
    hide EnsureRole, HrKeysOf, DerivedKey, RoleWithId, AllFaithful, Refreshed;
    var role := s0.roles[i];
    if HrKeysOf(hr, role.permissionKeys) != [] {
      EnsureKeeps(hr, s0, s, i);
      AfterEnsure(hr, s0, s, i, 0, "", 0, a.terms.place);
      var (t, id) := EnsureRole(s, DerivedKey(role.id), HrKeysOf(hr, role.permissionKeys));
      MirrorSteps(hr, s0, t, a, id);
    } else {
      SameRoles(s);
    }
  }

  lemma {:induction false} SameRoles(s: Rbac)
    ensures RolesGrow(s, s)
  {
  }

  /** What replacing an assignment grants anew: its HR keys at its home units. */
  ghost predicate HomeAdded(
    hr: string -> bool, s: Rbac, a: Assignment, role: Role, now: int, key: string, scope: nat, place: Place)
  {
    && !AnyDerived(s, a.roleId, a.scope) && scope == a.scope && place == Home(a.terms.place)
    && ActiveAt(a.terms.window, now) && key in HrKeysOf(hr, role.permissionKeys)
  }

  /** Mirroring takes nothing away, and adds the HR keys at the home units at most. */
  lemma {:induction false} MirroredGrants(
    hr: string -> bool, s0: Rbac, s: Rbac, a: Assignment, i: nat, now: int, key: string, scope: nat, place: Place)
    requires Midway(hr, s0, s) && a in s.assignments && i < |s0.roles| && s0.roles[i].id == a.roleId
    ensures Granted(Mirrored(hr, s, a, s0.roles[i]), now, key, scope, place) <==>
      Granted(s, now, key, scope, place) || HomeAdded(hr, s, a, s0.roles[i], now, key, scope, place)
  {
    hide EnsureRole, HrKeysOf, DerivedKey, RoleWithId, AllFaithful, Granted, Mirror, Holds, AnyDerived;
    var role := s0.roles[i];
    if HrKeysOf(hr, role.permissionKeys) != [] {
      EnsureKeeps(hr, s0, s, i);
      AfterEnsure(hr, s0, s, i, now, key, scope, place);
      var (t, id) := EnsureRole(s, DerivedKey(role.id), HrKeysOf(hr, role.permissionKeys));
      MirrorGrants(t, a, id, now, key, scope, place);
      HoldsIff(t, id, role.id, a.scope);
      EnsureAny(hr, s0, s, i, a.scope);
    }
  }

  lemma {:induction false} RoleKnown(s: Rbac, a: Assignment)
    requires DistinctRoles(s) && a in s.assignments
    ensures a.roleId < s.nextId
  {
    var k :| 0 <= k < |s.assignments| && s.assignments[k] == a;
  }

  lemma {:induction false} HrKeysWithin(hr: string -> bool, keys: seq<string>)
    ensures forall k :: k in HrKeysOf(hr, keys) <==> k in keys && hr(k)
  {
  }

  lemma {:induction false} MirroredDerived(
    hr: string -> bool, s0: Rbac, s: Rbac, a: Assignment, i: nat, q: nat, scope: nat, w: Terms)
    requires Midway(hr, s0, s) && i < |s0.roles| && s0.roles[i].id == a.roleId
    ensures DerivedHeld(Mirrored(hr, s, a, s0.roles[i]), q, scope, w) <==>
      DerivedHeld(s, q, scope, w)
      || (HrKeysOf(hr, s0.roles[i].permissionKeys) != [] && q == a.roleId && scope == a.scope &&
        w == Carried(a.terms) && !AnyDerived(s, a.roleId, a.scope))
  {
    hide EnsureRole, HrKeysOf, DerivedKey, RoleWithId, AllFaithful, DerivedHeld, Mirror;
    var role := s0.roles[i];
    if HrKeysOf(hr, role.permissionKeys) != [] {
      EnsureKeeps(hr, s0, s, i);
      AfterEnsure(hr, s0, s, i, 0, "", 0, a.terms.place);
      var (t, id) := EnsureRole(s, DerivedKey(role.id), HrKeysOf(hr, role.permissionKeys));
      EnsureDerived(hr, s0, s, i, q, scope, w);
      EnsureAny(hr, s0, s, i, a.scope);
      MirrorDerived(t, a, id, role.id, q, scope, w);
    }
  }

  lemma {:induction false} EnsureAny(hr: string -> bool, s0: Rbac, s: Rbac, i: nat, scope: nat)
    requires Midway(hr, s0, s) && i < |s0.roles| && HrKeysOf(hr, s0.roles[i].permissionKeys) != []
    ensures var t := EnsureRole(s, DerivedKey(s0.roles[i].id), HrKeysOf(hr, s0.roles[i].permissionKeys)).0;
            AnyDerived(t, s0.roles[i].id, scope) <==> AnyDerived(s, s0.roles[i].id, scope)
  {
    hide EnsureRole, HrKeysOf, DerivedKey, DerivedHeld, Midway;
    var r := s0.roles[i].id;
    var t := EnsureRole(s, DerivedKey(r), HrKeysOf(hr, s0.roles[i].permissionKeys)).0;
    forall w ensures DerivedHeld(t, r, scope, w) <==> DerivedHeld(s, r, scope, w) {
      EnsureDerived(hr, s0, s, i, r, scope, w);
    }
  }

  // ---------------------------------------------------------------- every step of a run

  /** After `n` assignments: the rest are still there, and whatever else is there is at rest. */
  ghost predicate Reached(hr: string -> bool, s0: Rbac, n: nat, s: Rbac)
    requires n <= |s0.assignments|
  {
    && Midway(hr, s0, s)
    && (forall j :: n <= j < |s0.assignments| ==> s0.assignments[j] in s.assignments)
    && (forall b :: b in s.assignments ==> b in s0.assignments[n..] || AtRest(hr, s.roles, b))
  }

  lemma {:induction false} StepReaches(hr: string -> bool, s0: Rbac, n: nat, s: Rbac)
    requires DistinctGrants(s0) && DistinctRoles(s0) && n < |s0.assignments| && Reached(hr, s0, n, s)
    ensures Reached(hr, s0, n + 1, ReconcileOne(hr, s0.roles, s, s0.assignments[n]))
  {
    hide Mirrored, Midway, Revoke, AtRest;
    var a := s0.assignments[n];
    var rest := s0.assignments[n + 1..];
    assert s0.assignments[n..] == [a] + rest;
    if IsReplaced(hr, s0.roles, a) {
      var i := RoleStillThere(hr, s0, s, a);
      var t := Mirrored(hr, s, a, s0.roles[i]);
      MirroredSteps(hr, s0, s, a, i);
      RevokeSteps(hr, s0, t, a);
      var u := Without(t, a);
      forall j | n + 1 <= j < |s0.assignments| ensures s0.assignments[j] in u.assignments {
        RevokeMember(t.assignments, a.id, s0.assignments[j]);
      }
      forall b | b in u.assignments ensures b in rest || AtRest(hr, u.roles, b) {
        RevokeMember(t.assignments, a.id, b);
        RestAfterMirror(hr, s0, s, t, a, b);
      }
    } else {
      assert AtRest(hr, s.roles, a) by {
        RestFromStart(hr, s0, s, a);
      }
    }
  }

  lemma {:induction false} RestFromStart(hr: string -> bool, s0: Rbac, s: Rbac, a: Assignment)
    requires Midway(hr, s0, s) && !IsReplaced(hr, s0.roles, a) && a in s0.assignments
    ensures AtRest(hr, s.roles, a)
  {
    hide RoleWithId, AllFaithful, RolesGrow;
    RoleKnown(s0, a);
    AtRestLater(hr, s0, s, a);
  }

  lemma {:induction false} RestAfterMirror(hr: string -> bool, s0: Rbac, s: Rbac, t: Rbac, a: Assignment, b: Assignment)
    requires Midway(hr, s0, s) && Midway(hr, s0, t) && RolesGrow(s, t) && s.assignments <= t.assignments
    requires b in t.assignments
    requires forall j :: |s.assignments| <= j < |t.assignments| ==> IsDerivative(t.roles, t.assignments[j], a.roleId)
    ensures b in s.assignments || AtRest(hr, t.roles, b)
    ensures b in s.assignments && AtRest(hr, s.roles, b) ==> AtRest(hr, t.roles, b)
  {
    hide RoleWithId, AllFaithful, RolesGrow, DerivedKey;
    var j :| 0 <= j < |t.assignments| && t.assignments[j] == b;
    if j < |s.assignments| {
      assert s.assignments[j] == b;
    } else {
      DerivedKeyIsDerived(a.roleId);
    }
    if b in s.assignments && AtRest(hr, s.roles, b) {
      RoleKnown(s, b);
      AtRestLater(hr, s, t, b);
    }
  }

  lemma {:induction false} RunReaches(hr: string -> bool, s0: Rbac, n: nat)
    requires Start(hr, s0) && n <= |s0.assignments|
    ensures Reached(hr, s0, n, ReconcileFirst(hr, s0, n))
  {
    hide ReconcileOne, AtRest, Midway;
    if n == 0 {
      StartIsMidway(hr, s0);
      assert s0.assignments[0..] == s0.assignments;
    } else {
      RunReaches(hr, s0, n - 1);
      StepReaches(hr, s0, n - 1, ReconcileFirst(hr, s0, n - 1));
    }
  }

  lemma {:induction false} StartIsMidway(hr: string -> bool, s0: Rbac)
    requires Start(hr, s0)
    ensures Midway(hr, s0, s0)
  {
    hide AllFaithful;
    SameRoles(s0);
  }

  // ---------------------------------------------------------------- the unique index

  lemma {:induction false} MirrorKeepsIndex(t: Rbac, a: Assignment, id: nat)
    requires OneGrantEach(t.assignments)
    ensures OneGrantEach(Mirror(t, a, id).assignments)
  {
    var u := Mirror(t, a, id);
    if !Holds(t.assignments, id, a.scope) {
      forall i, j | 0 <= i < j < |u.assignments| ensures !SameClaim(u.assignments[i], u.assignments[j]) {
        if j < |t.assignments| {
          assert !SameClaim(t.assignments[i], t.assignments[j]);
        } else {
          assert u.assignments[i] == t.assignments[i];
        }
      }
    }
  }

  lemma {:induction false} RevokeKeepsIndex(assignments: seq<Assignment>, id: nat)
    requires OneGrantEach(assignments)
    ensures OneGrantEach(Revoke(assignments, id))
  {
    hide SameClaim;
    if assignments != [] {
      var n := |assignments| - 1;
      var rest := Revoke(assignments[..n], id);
      assert forall i, j :: 0 <= i < j < n ==> !SameClaim(assignments[..n][i], assignments[..n][j]);
      RevokeKeepsIndex(assignments[..n], id);
      forall i | 0 <= i < |rest| ensures !SameClaim(rest[i], assignments[n]) {
        assert rest[i] in rest;
        RevokeMember(assignments[..n], id, rest[i]);
        var j :| 0 <= j < n && assignments[..n][j] == rest[i];
        assert !SameClaim(assignments[j], assignments[n]);
      }
    }
  }

  /** No mirror of a run ever duplicates the unique index: `create` cannot fail on it. */
  lemma {:induction false} RunKeepsIndex(hr: string -> bool, s0: Rbac, n: nat)
    requires OneGrantEach(s0.assignments) && n <= |s0.assignments|
    ensures OneGrantEach(ReconcileFirst(hr, s0, n).assignments)
  {
    hide OneGrantEach, Mirror, Revoke, HrKeysOf, RoleWithId;
    if n > 0 {
      RunKeepsIndex(hr, s0, n - 1);
      var s, a := ReconcileFirst(hr, s0, n - 1), s0.assignments[n - 1];
      var role := RoleWithId(s0.roles, a.roleId);
      if role.Some? && !Stays(hr, role.value) {
        var keys := HrKeysOf(hr, role.value.permissionKeys);
        var (t, id) := EnsureRole(s, DerivedKey(role.value.id), keys);
        MirrorKeepsIndex(t, a, id);
        RevokeKeepsIndex(Mirrored(hr, s, a, role.value).assignments, a.id);
      }
    }
  }

  // ---------------------------------------------------------------- what lives on

  /** The assignment is replaced by a derivative. */
  predicate HasHr(hr: string -> bool, s0: Rbac, j: nat)
    requires j < |s0.assignments|
  {
    var role := RoleWithId(s0.roles, s0.assignments[j].roleId);
    IsReplaced(hr, s0.roles, s0.assignments[j]) && HrKeysOf(hr, role.value.permissionKeys) != []
  }

  predicate For(s0: Rbac, j: nat, r: nat, scope: nat)
    requires j < |s0.assignments|
  {
    s0.assignments[j].roleId == r && s0.assignments[j].scope == scope
  }

  /** The first assignment of the role at the scope that is replaced by a derivative. */
  ghost predicate FirstFor(hr: string -> bool, s0: Rbac, j: nat, r: nat, scope: nat) {
    && j < |s0.assignments| && HasHr(hr, s0, j) && For(s0, j, r, scope)
    && forall i :: 0 <= i < j ==> !(HasHr(hr, s0, i) && For(s0, i, r, scope))
  }

  lemma {:induction false} FirstExists(hr: string -> bool, s0: Rbac, j: nat, r: nat, scope: nat)
    requires j < |s0.assignments| && HasHr(hr, s0, j) && For(s0, j, r, scope)
    ensures exists i :: 0 <= i <= j && FirstFor(hr, s0, i, r, scope)
  {
    hide HasHr, For;
    if i :| 0 <= i < j && HasHr(hr, s0, i) && For(s0, i, r, scope) {
      FirstExists(hr, s0, i, r, scope);
    } else {
      assert FirstFor(hr, s0, j, r, scope);
    }
  }

  ghost predicate FirstTerms(hr: string -> bool, s0: Rbac, n: nat, r: nat, scope: nat, w: Terms) {
    exists j :: 0 <= j < n && FirstFor(hr, s0, j, r, scope) && Carried(s0.assignments[j].terms) == w
  }

  /** What one step adds to the terms a derivative is held on. */
  lemma {:induction false} StepDerived(hr: string -> bool, s0: Rbac, n: nat, s: Rbac, r: nat, scope: nat, w: Terms)
    requires n < |s0.assignments| && Reached(hr, s0, n, s)
    ensures var a := s0.assignments[n];
            DerivedHeld(ReconcileOne(hr, s0.roles, s, a), r, scope, w) <==>
              DerivedHeld(s, r, scope, w) ||
                (HasHr(hr, s0, n) && For(s0, n, r, scope) && w == Carried(a.terms) && !AnyDerived(s, r, scope))
  {
    hide Mirrored, Midway, Revoke, AtRest, DerivedHeld, HrKeysOf;
    var a := s0.assignments[n];
    if IsReplaced(hr, s0.roles, a) {
      assert a in s.assignments;
      assert a.roleId < s0.nextId by {
        MidwayKnown(hr, s0, s, n);
      }
      var i := RoleStillThere(hr, s0, s, a);
      var t := Mirrored(hr, s, a, s0.roles[i]);
      MirroredSteps(hr, s0, s, a, i);
      MirroredDerived(hr, s0, s, a, i, r, scope, w);
      NotDerivative(hr, s0, s, t, a, i, r);
      RevokeDerived(t, a, r, scope, w);
    }
  }

  lemma {:induction false} MidwayKnown(hr: string -> bool, s0: Rbac, s: Rbac, n: nat)
    requires Midway(hr, s0, s) && n < |s0.assignments|
    ensures s0.assignments[n].roleId < s0.nextId
  {
  }

  lemma {:induction false} NotDerivative(hr: string -> bool, s0: Rbac, s: Rbac, t: Rbac, a: Assignment, i: nat, r: nat)
    requires Midway(hr, s0, s) && Midway(hr, s0, t) && RolesGrow(s, t) && a in s.assignments
    requires s.assignments <= t.assignments
    requires i < |s0.roles| && RoleWithId(s.roles, a.roleId) == Some(s0.roles[i]) && !IsDerivedKey(s0.roles[i].key)
    ensures a in t.assignments && !IsDerivative(t.roles, a, r) && DistinctGrants(t) &&
            RoleWithId(t.roles, a.roleId) == Some(s0.roles[i])
  {
    hide RoleWithId, AllFaithful, DerivedKey;
    RoleKnown(s, a);
    RoleLater(s, t, a.roleId);
    DerivedKeyIsDerived(r);
    var k :| 0 <= k < |s.assignments| && s.assignments[k] == a;
    assert t.assignments[k] == a;
  }

  /** The terms a derivative is held on: those of before the run, or else what its first source carries over. */
  lemma {:induction false} DerivedTerms(hr: string -> bool, s0: Rbac, n: nat, r: nat, scope: nat, w: Terms)
    requires Start(hr, s0) && n <= |s0.assignments|
    ensures DerivedHeld(ReconcileFirst(hr, s0, n), r, scope, w) <==>
      DerivedHeld(s0, r, scope, w) || (!AnyDerived(s0, r, scope) && FirstTerms(hr, s0, n, r, scope, w))
    decreases n, 0
  {
    hide ReconcileOne, DerivedHeld, Reached, HasHr, For;
    if n > 0 {
      var s := ReconcileFirst(hr, s0, n - 1);
      RunReaches(hr, s0, n - 1);
      StepDerived(hr, s0, n - 1, s, r, scope, w);
      DerivedTerms(hr, s0, n - 1, r, scope, w);
      AnyDerivedIff(hr, s0, n - 1, r, scope);
      if FirstFor(hr, s0, n - 1, r, scope) && Carried(s0.assignments[n - 1].terms) == w {
        assert FirstTerms(hr, s0, n, r, scope, w);
      }
    }
  }

  lemma {:induction false} AnyDerivedIff(hr: string -> bool, s0: Rbac, n: nat, r: nat, scope: nat)
    requires Start(hr, s0) && n <= |s0.assignments|
    ensures AnyDerived(ReconcileFirst(hr, s0, n), r, scope) <==>
      AnyDerived(s0, r, scope) || exists j :: 0 <= j < n && HasHr(hr, s0, j) && For(s0, j, r, scope)
    decreases n, 1
  {
    hide ReconcileOne, DerivedHeld, Reached, HasHr, For, Start;
    var s := ReconcileFirst(hr, s0, n);
    if AnyDerived(s, r, scope) {
      var w :| DerivedHeld(s, r, scope, w);
      DerivedTerms(hr, s0, n, r, scope, w);
    }
    if AnyDerived(s0, r, scope) {
      var w :| DerivedHeld(s0, r, scope, w);
      DerivedTerms(hr, s0, n, r, scope, w);
    } else if j :| 0 <= j < n && HasHr(hr, s0, j) && For(s0, j, r, scope) {
      FirstExists(hr, s0, j, r, scope);
      var i :| 0 <= i <= j && FirstFor(hr, s0, i, r, scope);
      DerivedTerms(hr, s0, n, r, scope, Carried(s0.assignments[i].terms));
    }
  }

  /** A replaced assignment's terms are ones its derivative is held on, or will be. */
  ghost predicate TermsFit(hr: string -> bool, s0: Rbac, j: nat)
    requires j < |s0.assignments|
  {
    var a := s0.assignments[j];
    if AnyDerived(s0, a.roleId, a.scope) then DerivedHeld(s0, a.roleId, a.scope, a.terms)
    else FirstTerms(hr, s0, |s0.assignments|, a.roleId, a.scope, a.terms)
  }

  /**
   * Every assignment to be replaced stays at home, with no branch added, no company-wide department and not
   * everywhere; or, where its derivative is held already, it is held on those very terms.
   */
  ghost predicate TermsAgree(hr: string -> bool, s0: Rbac) {
    forall j :: 0 <= j < |s0.assignments| && HasHr(hr, s0, j) ==> TermsKept(s0, s0.assignments[j])
  }

  ghost predicate TermsKept(s0: Rbac, a: Assignment) {
    if AnyDerived(s0, a.roleId, a.scope) then DerivedHeld(s0, a.roleId, a.scope, a.terms) else StaysHome(a.terms.place)
  }

  /** The derivative is held on the terms of the assignment it replaced. */
  ghost predicate LivesOn(s0: Rbac, s: Rbac, j: nat)
    requires j < |s0.assignments|
  {
    DerivedHeld(s, s0.assignments[j].roleId, s0.assignments[j].scope, s0.assignments[j].terms)
  }

  /**
   * One replaced assignment lives on exactly when its derivative was held on its terms before, or was not held
   * at its scope and the first of its role and scope has its home units and window, and it has no reach.
   */
  lemma {:induction false} LivesOnIff(hr: string -> bool, s0: Rbac, j: nat)
    requires Start(hr, s0) && j < |s0.assignments| && HasHr(hr, s0, j)
    ensures LivesOn(s0, Reconciled(hr, s0), j) <==> TermsFit(hr, s0, j)
  {
    hide ReconcileFirst, DerivedHeld, HasHr, FirstFor, Start;
    var a := s0.assignments[j];
    DerivedTerms(hr, s0, |s0.assignments|, a.roleId, a.scope, a.terms);
  }

  /** Among assignments that stay home the index leaves one per role and scope, so each is the first of its kind. */
  lemma {:induction false} AgreeingFits(hr: string -> bool, s0: Rbac, j: nat)
    requires Start(hr, s0) && TermsAgree(hr, s0) && j < |s0.assignments| && HasHr(hr, s0, j)
    ensures TermsFit(hr, s0, j)
  {
    hide HasHr, AnyDerived, DerivedHeld, DistinctRoles, AllFaithful;
    var a := s0.assignments[j];
    assert TermsKept(s0, a);
    if !AnyDerived(s0, a.roleId, a.scope) {
      FirstExists(hr, s0, j, a.roleId, a.scope);
      var i :| 0 <= i <= j && FirstFor(hr, s0, i, a.roleId, a.scope);
      assert TermsKept(s0, s0.assignments[i]);
      assert i < j ==> !SameClaim(s0.assignments[i], s0.assignments[j]);
      assert Carried(s0.assignments[i].terms) == a.terms;
    }
  }

  lemma {:induction false} FittingAgrees(hr: string -> bool, s0: Rbac, j: nat)
    requires j < |s0.assignments| && TermsFit(hr, s0, j)
    ensures TermsKept(s0, s0.assignments[j])
  {
    hide HasHr, AnyDerived, DerivedHeld, FirstFor;
  }

  /** Every replaced assignment lives on, its terms alike, exactly when none of them reaches beyond home. */
  lemma {:induction false} AllLiveOnIff(hr: string -> bool, s0: Rbac)
    requires Start(hr, s0)
    ensures TermsAgree(hr, s0) <==>
      forall j :: 0 <= j < |s0.assignments| && HasHr(hr, s0, j) ==> LivesOn(s0, Reconciled(hr, s0), j)
  {
    hide Reconciled, TermsFit, TermsKept, HasHr, Start, LivesOn;
    forall j | 0 <= j < |s0.assignments| && HasHr(hr, s0, j)
      ensures TermsAgree(hr, s0) ==> LivesOn(s0, Reconciled(hr, s0), j)
      ensures LivesOn(s0, Reconciled(hr, s0), j) ==> TermsKept(s0, s0.assignments[j])
    {
      LivesOnIff(hr, s0, j);
      if TermsAgree(hr, s0) {
        AgreeingFits(hr, s0, j);
      }
      if TermsFit(hr, s0, j) {
        FittingAgrees(hr, s0, j);
      }
    }
  }

  /** A grant with a reach of its own never lives on, unless its derivative had that reach already. */
  lemma {:induction false} ReachIsLost(hr: string -> bool, s0: Rbac, j: nat)
    requires Start(hr, s0) && j < |s0.assignments| && HasHr(hr, s0, j) && !StaysHome(s0.assignments[j].terms.place)
    requires !DerivedHeld(s0, s0.assignments[j].roleId, s0.assignments[j].scope, s0.assignments[j].terms)
    ensures !LivesOn(s0, Reconciled(hr, s0), j)
  {
    hide Reconciled, HasHr, Start, LivesOn, FirstTerms;
    LivesOnIff(hr, s0, j);
    if TermsFit(hr, s0, j) {
      FittingAgrees(hr, s0, j);
    }
  }

  // ---------------------------------------------------------------- the HR part, exactly

  /** The assignment grants the key, in its own place and at its own scope. */
  predicate GivesOwn(s: Rbac, i: nat, now: int, key: string)
    requires i < |s.assignments|
  {
    Gives(s.roles, s.assignments[i], now, key, s.assignments[i].scope, s.assignments[i].terms.place)
  }

  ghost predicate OfSource(roles: seq<Role>, b: Assignment) {
    exists r :: IsDerivative(roles, b, r)
  }

  /** After `n` assignments: what the run leaves alone is all there, and whatever is there is old or a derivative. */
  ghost predicate Traced(hr: string -> bool, s0: Rbac, n: nat, s: Rbac) {
    && (forall j :: 0 <= j < |s0.assignments| && !IsReplaced(hr, s0.roles, s0.assignments[j]) ==>
          s0.assignments[j] in s.assignments)
    && (forall b :: b in s.assignments ==> b in s0.assignments || OfSource(s.roles, b))
  }

  lemma {:induction false} OfSourceLater(s: Rbac, t: Rbac, b: Assignment)
    requires DistinctRoles(s) && DistinctRoles(t) && RolesGrow(s, t) && b in s.assignments && OfSource(s.roles, b)
    ensures OfSource(t.roles, b)
  {
    hide IsDerivative, RolesGrow;
    RoleKnown(s, b);
    var r :| IsDerivative(s.roles, b, r);
    DerivativeLater(s, t, b, r);
  }

  lemma {:induction false} StepTraces(hr: string -> bool, s0: Rbac, n: nat, s: Rbac)
    requires DistinctGrants(s0) && n < |s0.assignments| && Reached(hr, s0, n, s) && Traced(hr, s0, n, s)
    ensures Traced(hr, s0, n + 1, ReconcileOne(hr, s0.roles, s, s0.assignments[n]))
  {
    hide Mirrored, Midway, AtRest, IsReplaced, RolesGrow, IsDerivative, OfSource, RoleWithId;
    var a := s0.assignments[n];
    ReplacedIsKnown(hr, s0.roles, a);
    if IsReplaced(hr, s0.roles, a) {
      MidwayKnown(hr, s0, s, n);
      var i := RoleStillThere(hr, s0, s, a);
      var t := Mirrored(hr, s, a, s0.roles[i]);
      MirroredSteps(hr, s0, s, a, i);
      var u := Without(t, a);
      forall j | 0 <= j < |s0.assignments| && !IsReplaced(hr, s0.roles, s0.assignments[j])
        ensures s0.assignments[j] in u.assignments
      {
        RevokeMember(t.assignments, a.id, s0.assignments[j]);
      }
      forall b | b in u.assignments ensures b in s0.assignments || OfSource(u.roles, b) {
        RevokeMember(t.assignments, a.id, b);
        TracedMirror(hr, s0, s, t, a, b);
      }
    }
  }

  lemma {:induction false} ReplacedIsKnown(hr: string -> bool, known: seq<Role>, a: Assignment)
    ensures IsReplaced(hr, known, a) <==>
              RoleWithId(known, a.roleId).Some? && !Stays(hr, RoleWithId(known, a.roleId).value)
  {
  }

  lemma {:induction false} TracedMirror(hr: string -> bool, s0: Rbac, s: Rbac, t: Rbac, a: Assignment, b: Assignment)
    requires Midway(hr, s0, s) && Midway(hr, s0, t) && RolesGrow(s, t) && s.assignments <= t.assignments
    requires forall j :: |s.assignments| <= j < |t.assignments| ==> IsDerivative(t.roles, t.assignments[j], a.roleId)
    requires (forall c :: c in s.assignments ==> c in s0.assignments || OfSource(s.roles, c)) && b in t.assignments
    ensures b in s0.assignments || OfSource(t.roles, b)
  {
    hide IsDerivative, RolesGrow, AllFaithful;
    var j :| 0 <= j < |t.assignments| && t.assignments[j] == b;
    if j < |s.assignments| {
      assert s.assignments[j] == b;
      if OfSource(s.roles, b) {
        OfSourceLater(s, t, b);
      }
    }
  }

  lemma {:induction false} RunTraces(hr: string -> bool, s0: Rbac, n: nat)
    requires Start(hr, s0) && n <= |s0.assignments|
    ensures Traced(hr, s0, n, ReconcileFirst(hr, s0, n))
  {
    hide ReconcileOne, Traced, Reached;
    if n > 0 {
      RunTraces(hr, s0, n - 1);
      RunReaches(hr, s0, n - 1);
      StepTraces(hr, s0, n - 1, ReconcileFirst(hr, s0, n - 1));
    } else {
      assert Traced(hr, s0, 0, s0) by {
        StartTraced(hr, s0);
      }
    }
  }

  lemma {:induction false} StartTraced(hr: string -> bool, s0: Rbac)
    ensures Traced(hr, s0, 0, s0)
  {
  }

  /** The assignment's grant outlives the run: it is left alone, or its derivative takes it over. */
  ghost predicate Survives(hr: string -> bool, s0: Rbac, j: nat)
    requires j < |s0.assignments|
  {
    IsReplaced(hr, s0.roles, s0.assignments[j]) ==> TakenOver(hr, s0, j)
  }

  /** The first of its role and scope to be replaced by a derivative not held there before. */
  ghost predicate TakenOver(hr: string -> bool, s0: Rbac, j: nat)
    requires j < |s0.assignments|
  {
    var a := s0.assignments[j];
    FirstFor(hr, s0, j, a.roleId, a.scope) && !AnyDerived(s0, a.roleId, a.scope)
  }

  /** After `n` assignments the grant stands in this place: in its own, or taken over at home. */
  ghost predicate StandsAt(hr: string -> bool, s0: Rbac, n: nat, j: nat, place: Place)
    requires j < |s0.assignments|
  {
    var a := s0.assignments[j];
    if j >= n || !IsReplaced(hr, s0.roles, a) then place == a.terms.place
    else TakenOver(hr, s0, j) && place == Home(a.terms.place)
  }

  /** Before the run some assignment gives the key at the scope, and stands in this place after `n` of them. */
  ghost predicate Stands(hr: string -> bool, s0: Rbac, n: nat, now: int, key: string, scope: nat, place: Place) {
    exists j :: 0 <= j < |s0.assignments| && GivesOwn(s0, j, now, key) && s0.assignments[j].scope == scope &&
      StandsAt(hr, s0, n, j, place)
  }

  /** A derivative grants what its source did, of the HR keys. */
  lemma {:induction false} DerivativeGives(
    hr: string -> bool, s0: Rbac, s: Rbac, a: Assignment, b: Assignment, now: int, key: string)
    requires Midway(hr, s0, s) && a.roleId < s0.nextId && IsReplaced(hr, s0.roles, a)
    requires IsDerivative(s.roles, b, a.roleId)
    requires b.scope == a.scope && b.terms.window == a.terms.window && hr(key)
    ensures Gives(s.roles, b, now, key, b.scope, b.terms.place) <==>
              Gives(s0.roles, a, now, key, a.scope, a.terms.place)
  {
    hide RoleWithId, DerivedKey, RolesGrow;
    var i := RoleStillThere(hr, s0, s, a);
    var d := RoleWithId(s.roles, b.roleId).value;
    DerivedKeyIsDerived(a.roleId);
    RoleWithIdIs(s.roles, b.roleId);
    assert Faithful(hr, s0.roles, d);
    HrKeysWithin(hr, s0.roles[i].permissionKeys);
  }

  lemma {:induction false} GivesKeeps(hr: string -> bool, s0: Rbac, s: Rbac, a: Assignment, now: int, key: string)
    requires Midway(hr, s0, s) && a in s0.assignments
    ensures Gives(s.roles, a, now, key, a.scope, a.terms.place) <==>
              Gives(s0.roles, a, now, key, a.scope, a.terms.place)
  {
    hide Gives, RolesGrow, AllFaithful;
    RoleKnown(s0, a);
    GivesLater(s0, s, a, now, key, a.scope, a.terms.place);
  }

  /** What stands is granted. */
  lemma {:induction false} StandingIsGranted(
    hr: string -> bool, s0: Rbac, n: nat, j: nat, now: int, key: string, place: Place)
    requires Start(hr, s0) && n <= |s0.assignments| && j < |s0.assignments| && hr(key)
    requires GivesOwn(s0, j, now, key) && StandsAt(hr, s0, n, j, place)
    ensures Granted(ReconcileFirst(hr, s0, n), now, key, s0.assignments[j].scope, place)
  {
    hide ReconcileFirst, Gives, IsReplaced, Start, Midway, AtRest, HasHr, AnyDerived, IsDerivative, Home;
    var s, a := ReconcileFirst(hr, s0, n), s0.assignments[j];
    RunReaches(hr, s0, n);
    if j >= n || !IsReplaced(hr, s0.roles, a) {
      RunTraces(hr, s0, n);
      assert a in s.assignments;
      var k :| 0 <= k < |s.assignments| && s.assignments[k] == a;
      GivesKeeps(hr, s0, s, a, now, key);
    } else {
      assert FirstTerms(hr, s0, n, a.roleId, a.scope, Carried(a.terms));
      DerivedTerms(hr, s0, n, a.roleId, a.scope, Carried(a.terms));
      var k :| 0 <= k < |s.assignments| && IsDerivative(s.roles, s.assignments[k], a.roleId) &&
        s.assignments[k].scope == a.scope && s.assignments[k].terms == Carried(a.terms);
      MidwayKnown(hr, s0, s, j);
      DerivativeGives(hr, s0, s, a, s.assignments[k], now, key);
    }
  }

  /** What is granted stands. */
  lemma {:induction false} GrantedStands(
    hr: string -> bool, s0: Rbac, n: nat, now: int, key: string, scope: nat, place: Place)
    requires Start(hr, s0) && n <= |s0.assignments| && hr(key)
    requires Granted(ReconcileFirst(hr, s0, n), now, key, scope, place)
    ensures Stands(hr, s0, n, now, key, scope, place)
  {
    hide ReconcileFirst, IsReplaced, Start, Midway, AtRest, IsDerivative, Home, StandsAt, Gives;
    var s := ReconcileFirst(hr, s0, n);
    RunReaches(hr, s0, n);
    RunTraces(hr, s0, n);
    var k :| 0 <= k < |s.assignments| && Gives(s.roles, s.assignments[k], now, key, scope, place);
    var b := s.assignments[k];
    GivesWhere(s.roles, b, now, key, scope, place);
    assert b in s.assignments;
    if b in s0.assignments {
      GivesKeeps(hr, s0, s, b, now, key);
      OldStands(hr, s0, n, b, place);
    } else {
      var r :| IsDerivative(s.roles, b, r);
      NewStands(hr, s0, n, b, r, now, key);
    }
  }

  lemma {:induction false} GivesWhere(roles: seq<Role>, b: Assignment, now: int, key: string, scope: nat, place: Place)
    requires Gives(roles, b, now, key, scope, place)
    ensures b.scope == scope && b.terms.place == place
  {
    hide RoleWithId;
  }

  /** An assignment from before the run that is still there is one not yet reached, or one left alone. */
  lemma {:induction false} OldStands(hr: string -> bool, s0: Rbac, n: nat, b: Assignment, place: Place)
    requires Start(hr, s0) && n <= |s0.assignments| && b in s0.assignments && place == b.terms.place
    requires Reached(hr, s0, n, ReconcileFirst(hr, s0, n)) && b in ReconcileFirst(hr, s0, n).assignments
    ensures exists j :: 0 <= j < |s0.assignments| && s0.assignments[j] == b && StandsAt(hr, s0, n, j, place)
  {
    hide ReconcileFirst, Start, AllFaithful, RolesGrow, RoleWithId, Stays, TakenOver, Home;
    var s := ReconcileFirst(hr, s0, n);
    if b in s0.assignments[n..] {
      var k :| 0 <= k < |s0.assignments[n..]| && s0.assignments[n..][k] == b;
      assert s0.assignments[n + k] == b && StandsAt(hr, s0, n, n + k, place);
    } else {
      var j :| 0 <= j < |s0.assignments| && s0.assignments[j] == b;
      RestWasLeft(hr, s0, s, b);
      assert StandsAt(hr, s0, n, j, place);
    }
  }

  /** What is at rest is nothing the run replaces. */
  lemma {:induction false} RestWasLeft(hr: string -> bool, s0: Rbac, s: Rbac, b: Assignment)
    requires Midway(hr, s0, s) && b in s0.assignments && AtRest(hr, s.roles, b)
    ensures !IsReplaced(hr, s0.roles, b)
  {
    hide RoleWithId, RolesGrow, AllFaithful, AllHr;
    RoleKnown(s0, b);
    if IsReplaced(hr, s0.roles, b) {
      var i := RoleStillThere(hr, s0, s, b);
    }
  }

  /** A derivative held after some steps was held on its terms before, or takes over from the first of its source. */
  lemma {:induction false} NewStands(hr: string -> bool, s0: Rbac, n: nat, b: Assignment, r: nat, now: int, key: string)
    requires Start(hr, s0) && n <= |s0.assignments| && hr(key)
    requires var s := ReconcileFirst(hr, s0, n);
             && Reached(hr, s0, n, s) && b in s.assignments && IsDerivative(s.roles, b, r)
             && Gives(s.roles, b, now, key, b.scope, b.terms.place)
    ensures Stands(hr, s0, n, now, key, b.scope, b.terms.place)
  {
    hide ReconcileFirst, IsReplaced, Start, Midway, AtRest, Gives, HasHr, Home;
    var s := ReconcileFirst(hr, s0, n);
    var k :| 0 <= k < |s.assignments| && s.assignments[k] == b;
    assert DerivedHeld(s, r, b.scope, b.terms);
    DerivedTerms(hr, s0, n, r, b.scope, b.terms);
    if DerivedHeld(s0, r, b.scope, b.terms) {
      var j :| 0 <= j < |s0.assignments| && IsDerivative(s0.roles, s0.assignments[j], r) &&
        s0.assignments[j].scope == b.scope && s0.assignments[j].terms == b.terms;
      HeldBefore(hr, s0, s, j, b, r, now, key);
      assert StandsAt(hr, s0, n, j, b.terms.place);
    } else {
      var j :| 0 <= j < n && FirstFor(hr, s0, j, r, b.scope) && Carried(s0.assignments[j].terms) == b.terms;
      var a := s0.assignments[j];
      MidwayKnown(hr, s0, s, j);
      assert IsReplaced(hr, s0.roles, a) by { HasHrIsReplaced(hr, s0, j); }
      DerivativeGives(hr, s0, s, a, b, now, key);
      assert StandsAt(hr, s0, n, j, b.terms.place);
    }
  }

  lemma {:induction false} HasHrIsReplaced(hr: string -> bool, s0: Rbac, j: nat)
    requires j < |s0.assignments| && HasHr(hr, s0, j)
    ensures IsReplaced(hr, s0.roles, s0.assignments[j])
  {
  }

  /** The derivative held before is the same role as the one held now, and the run leaves it alone. */
  lemma {:induction false} HeldBefore(
    hr: string -> bool, s0: Rbac, s: Rbac, j: nat, b: Assignment, r: nat, now: int, key: string)
    requires Midway(hr, s0, s) && j < |s0.assignments| && IsDerivative(s0.roles, s0.assignments[j], r)
    requires IsDerivative(s.roles, b, r) && s0.assignments[j].scope == b.scope && s0.assignments[j].terms == b.terms
    requires Gives(s.roles, b, now, key, b.scope, b.terms.place)
    ensures !IsReplaced(hr, s0.roles, s0.assignments[j]) && GivesOwn(s0, j, now, key)
  {
    hide RoleWithId, RolesGrow, AllFaithful, DerivedKey, AllHr;
    var a := s0.assignments[j];
    assert a in s0.assignments;
    RoleKnown(s0, a);
    DerivativeLater(s0, s, a, r);
    DerivativeId(s, a, b, r);
    DerivedKeyIsDerived(r);
    GivesKeeps(hr, s0, s, a, now, key);
  }

  /**
   * After every assignment of the run, an HR key is granted at a scope and in a place exactly when an assignment
   * from before the run that gives it there stands in that place: in its own, or taken over at home.
   */
  lemma {:induction false} HrGrantsAfter(
    hr: string -> bool, s0: Rbac, n: nat, now: int, key: string, scope: nat, place: Place)
    requires Start(hr, s0) && n <= |s0.assignments| && hr(key)
    ensures Granted(ReconcileFirst(hr, s0, n), now, key, scope, place) <==> Stands(hr, s0, n, now, key, scope, place)
  {
    hide ReconcileFirst, Start, StandsAt, GivesOwn, Granted;
    if Granted(ReconcileFirst(hr, s0, n), now, key, scope, place) {
      GrantedStands(hr, s0, n, now, key, scope, place);
    }
    if Stands(hr, s0, n, now, key, scope, place) {
      var j :| 0 <= j < |s0.assignments| && GivesOwn(s0, j, now, key) && s0.assignments[j].scope == scope &&
        StandsAt(hr, s0, n, j, place);
      StandingIsGranted(hr, s0, n, j, now, key, place);
    }
  }

  /** What is replaced and gives an HR key is replaced by a derivative. */
  lemma {:induction false} GivingHasHr(hr: string -> bool, s0: Rbac, j: nat, now: int, key: string)
    requires j < |s0.assignments| && GivesOwn(s0, j, now, key) && hr(key) && IsReplaced(hr, s0.roles, s0.assignments[j])
    ensures HasHr(hr, s0, j)
  {
    hide RoleWithId;
    HrKeysWithin(hr, RoleWithId(s0.roles, s0.assignments[j].roleId).value.permissionKeys);
  }

  /**
   * Where no replaced grant reaches beyond home, a grant stands in its own place or in that of a derivative held
   * before.
   */
  lemma {:induction false} AgreeingStands(hr: string -> bool, s0: Rbac, n: nat, j: nat, now: int, key: string)
    requires Start(hr, s0) && TermsAgree(hr, s0) && j < |s0.assignments| && GivesOwn(s0, j, now, key) && hr(key)
    ensures Stands(hr, s0, n, now, key, s0.assignments[j].scope, s0.assignments[j].terms.place)
  {
    hide Start, AnyDerived, DerivedHeld, IsReplaced, HasHr, GivesOwn, FirstFor;
    var a := s0.assignments[j];
    if j >= n || !IsReplaced(hr, s0.roles, a) {
      assert StandsAt(hr, s0, n, j, a.terms.place);
    } else {
      GivingHasHr(hr, s0, j, now, key);
      assert TermsKept(s0, a);
      if AnyDerived(s0, a.roleId, a.scope) {
        HeldStands(hr, s0, n, j, now, key);
      } else {
        FirstAtHome(hr, s0, j);
        assert StandsAt(hr, s0, n, j, a.terms.place);
      }
    }
  }

  lemma {:induction false} HeldStands(hr: string -> bool, s0: Rbac, n: nat, j: nat, now: int, key: string)
    requires Start(hr, s0) && j < |s0.assignments| && GivesOwn(s0, j, now, key) && hr(key)
    requires IsReplaced(hr, s0.roles, s0.assignments[j])
    requires DerivedHeld(s0, s0.assignments[j].roleId, s0.assignments[j].scope, s0.assignments[j].terms)
    ensures Stands(hr, s0, n, now, key, s0.assignments[j].scope, s0.assignments[j].terms.place)
  {
    hide Start, IsReplaced, Midway, Gives, TakenOver, Home;
    var a := s0.assignments[j];
    var i :| 0 <= i < |s0.assignments| && IsDerivative(s0.roles, s0.assignments[i], a.roleId) &&
      s0.assignments[i].scope == a.scope && s0.assignments[i].terms == a.terms;
    StartIsMidway(hr, s0);
    MidwayKnown(hr, s0, s0, j);
    DerivativeGives(hr, s0, s0, a, s0.assignments[i], now, key);
    HeldBefore(hr, s0, s0, i, s0.assignments[i], a.roleId, now, key);
    assert StandsAt(hr, s0, n, i, a.terms.place);
  }

  /** Among assignments that stay home the index leaves one per role and scope. */
  lemma {:induction false} FirstAtHome(hr: string -> bool, s0: Rbac, j: nat)
    requires Start(hr, s0) && TermsAgree(hr, s0) && j < |s0.assignments| && HasHr(hr, s0, j)
    requires !AnyDerived(s0, s0.assignments[j].roleId, s0.assignments[j].scope)
    ensures TakenOver(hr, s0, j) && StaysHome(s0.assignments[j].terms.place)
  {
    hide HasHr, AnyDerived, DerivedHeld, DistinctRoles, AllFaithful;
    var a := s0.assignments[j];
    assert TermsKept(s0, a);
    FirstExists(hr, s0, j, a.roleId, a.scope);
    var i :| 0 <= i <= j && FirstFor(hr, s0, i, a.roleId, a.scope);
    assert TermsKept(s0, s0.assignments[i]);
    assert i < j ==> !SameClaim(s0.assignments[i], s0.assignments[j]);
  }

  /** So where no replaced grant reaches beyond home, no step changes the HR part of what is granted, or where. */
  lemma {:induction false} HrNeverShrinks(
    hr: string -> bool, s0: Rbac, n: nat, now: int, key: string, scope: nat, place: Place)
    requires Start(hr, s0) && TermsAgree(hr, s0) && n <= |s0.assignments| && hr(key)
    ensures Granted(ReconcileFirst(hr, s0, n), now, key, scope, place) <==> Granted(s0, now, key, scope, place)
  {
    hide ReconcileFirst, Start, TermsAgree, IsReplaced, HasHr, Gives, FirstFor, AnyDerived;
    HrGrantsAfter(hr, s0, n, now, key, scope, place);
    if Stands(hr, s0, n, now, key, scope, place) {
      var j :| 0 <= j < |s0.assignments| && GivesOwn(s0, j, now, key) && s0.assignments[j].scope == scope &&
        StandsAt(hr, s0, n, j, place);
      TakenOverAtHome(hr, s0, n, j, place, now, key);
      assert Granted(s0, now, key, scope, place);
    }
    if Granted(s0, now, key, scope, place) {
      var j :| 0 <= j < |s0.assignments| && Gives(s0.roles, s0.assignments[j], now, key, scope, place);
      GivesWhere(s0.roles, s0.assignments[j], now, key, scope, place);
      AgreeingStands(hr, s0, n, j, now, key);
    }
  }

  lemma {:induction false} TakenOverAtHome(
    hr: string -> bool, s0: Rbac, n: nat, j: nat, place: Place, now: int, key: string)
    requires TermsAgree(hr, s0) && j < |s0.assignments| && StandsAt(hr, s0, n, j, place)
    requires GivesOwn(s0, j, now, key) && hr(key)
    ensures place == s0.assignments[j].terms.place
  {
    hide IsReplaced, GivesOwn, AnyDerived, DerivedHeld, HasHr;
    if j < n && IsReplaced(hr, s0.roles, s0.assignments[j]) {
      GivingHasHr(hr, s0, j, now, key);
      assert TermsKept(s0, s0.assignments[j]);
    }
  }

  /**
   * Between the mirror and the revocation everything granted before is still granted; all that is new is the
   * HR part of the role at the assignment's home units.
   */
  lemma {:induction false} MirrorComesFirst(
    hr: string -> bool, s0: Rbac, n: nat, now: int, key: string, scope: nat, place: Place)
    requires Start(hr, s0) && n < |s0.assignments| && IsReplaced(hr, s0.roles, s0.assignments[n])
    ensures var s := ReconcileFirst(hr, s0, n);
            var role := RoleWithId(s0.roles, s0.assignments[n].roleId).value;
            Granted(Mirrored(hr, s, s0.assignments[n], role), now, key, scope, place) <==>
              Granted(s, now, key, scope, place) || HomeAdded(hr, s, s0.assignments[n], role, now, key, scope, place)
  {
    hide Mirrored, Midway, AtRest, Granted, Start, HomeAdded;
    var s, a := ReconcileFirst(hr, s0, n), s0.assignments[n];
    RunReaches(hr, s0, n);
    MidwayKnown(hr, s0, s, n);
    var i := RoleStillThere(hr, s0, s, a);
    MirroredGrants(hr, s0, s, a, i, now, key, scope, place);
  }

  // ---------------------------------------------------------------- nothing else

  lemma {:induction false} RestIsHr(hr: string -> bool, s0: Rbac, s: Rbac, b: Assignment)
    requires Midway(hr, s0, s) && AtRest(hr, s.roles, b)
    ensures var role := RoleWithId(s.roles, b.roleId);
            role.Some? ==> AllHr(hr, role.value.permissionKeys) && !role.value.isSystem
  {
    hide RoleWithId, RolesGrow, HrKeysOf;
    var role := RoleWithId(s.roles, b.roleId);
    if role.Some? {
      RoleWithIdIs(s.roles, b.roleId);
      var i :| 0 <= i < |s.roles| && s.roles[i] == role.value;
      assert Faithful(hr, s0.roles, s.roles[i]);
    }
  }

  /** After the run no key outside HR is granted, and no system role is held. */
  lemma {:induction false} OnlyHrIsLeft(hr: string -> bool, s0: Rbac, now: int, key: string, scope: nat, place: Place)
    requires Start(hr, s0)
    ensures !hr(key) ==> !Granted(Reconciled(hr, s0), now, key, scope, place)
    ensures forall b :: b in Reconciled(hr, s0).assignments ==>
      var role := RoleWithId(Reconciled(hr, s0).roles, b.roleId); role.Some? ==> !role.value.isSystem
  {
    hide ReconcileFirst, RoleWithId, Midway, Start;
    var s, N := Reconciled(hr, s0), |s0.assignments|;
    RunReaches(hr, s0, N);
    assert s0.assignments[N..] == [];
    forall b | b in s.assignments
      ensures var role := RoleWithId(s.roles, b.roleId); role.Some? ==>
                !role.value.isSystem && AllHr(hr, role.value.permissionKeys)
    {
      RestIsHr(hr, s0, s, b);
    }
    forall j | 0 <= j < |s.assignments| && !hr(key) ensures !Gives(s.roles, s.assignments[j], now, key, scope, place) {
      assert s.assignments[j] in s.assignments;
    }
  }

  // ---------------------------------------------------------------- the permission map

  /** `getEffectivePermissions`: the widest scope a key is granted at. */
  function Widest(s: Rbac, n: nat, now: int, key: string): Option<nat>
    requires n <= |s.assignments|
  {
    if n == 0 then None
    else
      var before, a := Widest(s, n - 1, now, key), s.assignments[n - 1];
      if !Gives(s.roles, a, now, key, a.scope, a.terms.place) then before
      else if before.Some? && before.value >= a.scope then before
      else Some(a.scope)
  }

  /** The key is granted at the scope, wherever that is. */
  ghost predicate GrantedAt(s: Rbac, now: int, key: string, scope: nat) {
    exists place :: Granted(s, now, key, scope, place)
  }

  lemma {:induction false} WidestIs(s: Rbac, n: nat, now: int, key: string)
    requires n <= |s.assignments|
    ensures Widest(s, n, now, key).Some? ==>
      exists i :: 0 <= i < n && s.assignments[i].scope == Widest(s, n, now, key).value && GivesOwn(s, i, now, key)
    ensures forall i :: 0 <= i < n && GivesOwn(s, i, now, key) ==>
      Widest(s, n, now, key).Some? && s.assignments[i].scope <= Widest(s, n, now, key).value
  {
    hide RoleWithId, Gives;
    if n > 0 {
      WidestIs(s, n - 1, now, key);
      assert GivesOwn(s, n - 1, now, key) <==>
        Gives(s.roles, s.assignments[n - 1], now, key, s.assignments[n - 1].scope, s.assignments[n - 1].terms.place);
    }
  }

  function Effective(s: Rbac, now: int, key: string): Option<nat> {
    Widest(s, |s.assignments|, now, key)
  }

  lemma {:induction false} EffectiveIff(s: Rbac, now: int, key: string, scope: nat)
    ensures Effective(s, now, key) == Some(scope) ==> GrantedAt(s, now, key, scope)
    ensures GrantedAt(s, now, key, scope) ==> Effective(s, now, key).Some? && scope <= Effective(s, now, key).value
  {
    hide Widest, RoleWithId;
    WidestIs(s, |s.assignments|, now, key);
    if Effective(s, now, key) == Some(scope) {
      var i :| 0 <= i < |s.assignments| && s.assignments[i].scope == scope && GivesOwn(s, i, now, key);
      assert Granted(s, now, key, scope, s.assignments[i].terms.place);
    }
    if GrantedAt(s, now, key, scope) {
      var place :| Granted(s, now, key, scope, place);
      var i :| 0 <= i < |s.assignments| && Gives(s.roles, s.assignments[i], now, key, scope, place);
      assert GivesOwn(s, i, now, key);
    }
  }

  /**
   * Every grant of the key that does not survive the run is covered by one that does, at a scope as wide. Only
   * the state before the run is read.
   */
  ghost predicate Covered(hr: string -> bool, s0: Rbac, now: int, key: string) {
    forall j :: 0 <= j < |s0.assignments| && GivesOwn(s0, j, now, key) && !Survives(hr, s0, j) ==>
      CoveredAt(hr, s0, now, key, s0.assignments[j].scope)
  }

  ghost predicate CoveredAt(hr: string -> bool, s0: Rbac, now: int, key: string, scope: nat) {
    exists i :: 0 <= i < |s0.assignments| && GivesOwn(s0, i, now, key) && Survives(hr, s0, i) &&
      s0.assignments[i].scope >= scope
  }

  /** A grant that survives is granted at its scope at every step. */
  lemma {:induction false} SurvivorIsGranted(hr: string -> bool, s0: Rbac, n: nat, j: nat, now: int, key: string)
    requires Start(hr, s0) && n <= |s0.assignments| && hr(key)
    requires j < |s0.assignments| && GivesOwn(s0, j, now, key) && Survives(hr, s0, j)
    ensures GrantedAt(ReconcileFirst(hr, s0, n), now, key, s0.assignments[j].scope)
  {
    hide ReconcileFirst, Start, GivesOwn, TakenOver, IsReplaced, Home;
    var a := s0.assignments[j];
    var place := if j >= n || !IsReplaced(hr, s0.roles, a) then a.terms.place else Home(a.terms.place);
    assert StandsAt(hr, s0, n, j, place);
    StandingIsGranted(hr, s0, n, j, now, key, place);
  }

  /** At the end of the run only what survives is granted, and at no step more than before. */
  lemma {:induction false} GrantedHasSource(hr: string -> bool, s0: Rbac, n: nat, now: int, key: string, scope: nat)
    requires Start(hr, s0) && n <= |s0.assignments| && hr(key) && GrantedAt(ReconcileFirst(hr, s0, n), now, key, scope)
    ensures GrantedAt(s0, now, key, scope)
    ensures n == |s0.assignments| ==> CoveredAt(hr, s0, now, key, scope)
  {
    hide ReconcileFirst, Start, TakenOver, IsReplaced, Home, Gives;
    var place :| Granted(ReconcileFirst(hr, s0, n), now, key, scope, place);
    HrGrantsAfter(hr, s0, n, now, key, scope, place);
    var j :| 0 <= j < |s0.assignments| && GivesOwn(s0, j, now, key) && s0.assignments[j].scope == scope &&
      StandsAt(hr, s0, n, j, place);
    assert Granted(s0, now, key, scope, s0.assignments[j].terms.place);
  }

  /** Where every lost grant is covered, no step of the run changes the map at an HR key. */
  lemma {:induction false} MapNeverShrinks(hr: string -> bool, s0: Rbac, n: nat, now: int, key: string)
    requires Start(hr, s0) && n <= |s0.assignments| && hr(key) && Covered(hr, s0, now, key)
    ensures Effective(ReconcileFirst(hr, s0, n), now, key) == Effective(s0, now, key)
  {
    hide ReconcileFirst, Effective, Start, GivesOwn, Survives, GrantedAt;
    var s := ReconcileFirst(hr, s0, n);
    var a, b := Effective(s0, now, key), Effective(s, now, key);
    if b.Some? {
      EffectiveIff(s, now, key, b.value);
      GrantedHasSource(hr, s0, n, now, key, b.value);
      EffectiveIff(s0, now, key, b.value);
    }
    if a.Some? {
      var j := WidestGiver(s0, now, key);
      if Survives(hr, s0, j) {
        SurvivorIsGranted(hr, s0, n, j, now, key);
        EffectiveIff(s, now, key, a.value);
      } else {
        var i :| 0 <= i < |s0.assignments| && GivesOwn(s0, i, now, key) && Survives(hr, s0, i) &&
          s0.assignments[i].scope >= a.value;
        SurvivorIsGranted(hr, s0, n, i, now, key);
        EffectiveIff(s, now, key, s0.assignments[i].scope);
      }
    }
  }

  lemma {:induction false} WidestGiver(s: Rbac, now: int, key: string) returns (j: nat)
    requires Effective(s, now, key).Some?
    ensures j < |s.assignments| && GivesOwn(s, j, now, key) && Some(s.assignments[j].scope) == Effective(s, now, key)
  {
    hide Widest, GivesOwn;
    WidestIs(s, |s.assignments|, now, key);
    j :| 0 <= j < |s.assignments| && s.assignments[j].scope == Effective(s, now, key).value && GivesOwn(s, j, now, key);
  }

  /** A map the run leaves as it was is one whose lost grants are covered. */
  lemma {:induction false} KeptIsCovered(hr: string -> bool, s0: Rbac, now: int, key: string)
    requires Start(hr, s0) && hr(key) && Effective(Reconciled(hr, s0), now, key) == Effective(s0, now, key)
    ensures Covered(hr, s0, now, key)
  {
    hide ReconcileFirst, Effective, Start, Survives, GrantedAt, Gives;
    var s := Reconciled(hr, s0);
    forall j | 0 <= j < |s0.assignments| && GivesOwn(s0, j, now, key) && !Survives(hr, s0, j)
      ensures CoveredAt(hr, s0, now, key, s0.assignments[j].scope)
    {
      OwnIsGranted(s0, j, now, key);
      EffectiveIff(s0, now, key, s0.assignments[j].scope);
      var widest := Effective(s, now, key).value;
      EffectiveIff(s, now, key, widest);
      GrantedHasSource(hr, s0, |s0.assignments|, now, key, widest);
    }
  }

  lemma {:induction false} OwnIsGranted(s: Rbac, j: nat, now: int, key: string)
    requires j < |s.assignments| && GivesOwn(s, j, now, key)
    ensures GrantedAt(s, now, key, s.assignments[j].scope)
  {
    hide Gives;
    assert Granted(s, now, key, s.assignments[j].scope, s.assignments[j].terms.place);
  }

  /**
   * At a key and a time the map after the run is the map before it cut to the HR keys exactly when the key is
   * outside HR or every grant of it that does not survive is covered by one that does.
   */
  lemma {:induction false} MapIsCutToHr(hr: string -> bool, s0: Rbac, now: int, key: string)
    requires Start(hr, s0)
    ensures Effective(Reconciled(hr, s0), now, key) == (if hr(key) then Effective(s0, now, key) else None) <==>
            (hr(key) ==> Covered(hr, s0, now, key))
  {
    hide ReconcileFirst, Effective, Granted, Start, Covered;
    if hr(key) {
      if Covered(hr, s0, now, key) {
        MapNeverShrinks(hr, s0, |s0.assignments|, now, key);
      }
      if Effective(Reconciled(hr, s0), now, key) == Effective(s0, now, key) {
        KeptIsCovered(hr, s0, now, key);
      }
    } else {
      NothingOutsideHr(hr, s0, now, key);
    }
  }

  lemma {:induction false} NothingOutsideHr(hr: string -> bool, s0: Rbac, now: int, key: string)
    requires Start(hr, s0) && !hr(key)
    ensures Effective(Reconciled(hr, s0), now, key) == None
  {
    hide ReconcileFirst, Effective, Granted, Start;
    var s := Reconciled(hr, s0);
    if Effective(s, now, key).Some? {
      var scope := Effective(s, now, key).value;
      EffectiveIff(s, now, key, scope);
      var place :| Granted(s, now, key, scope, place);
      OnlyHrIsLeft(hr, s0, now, key, scope, place);
    }
  }

  /** After `n` assignments the map says of the key what it said before. */
  ghost predicate MapKept(hr: string -> bool, s0: Rbac, n: nat, now: int, key: string)
    requires n <= |s0.assignments|
  {
    Effective(ReconcileFirst(hr, s0, n), now, key) == Effective(s0, now, key)
  }

  /** Every step of the run leaves the map at an HR key alone exactly when every lost grant is covered. */
  lemma {:induction false} MapNeverShrinksIff(hr: string -> bool, s0: Rbac, now: int, key: string)
    requires Start(hr, s0) && hr(key)
    ensures (forall n :: 0 <= n <= |s0.assignments| ==> MapKept(hr, s0, n, now, key)) <==> Covered(hr, s0, now, key)
  {
    hide ReconcileFirst, Effective, Start, Covered;
    if Covered(hr, s0, now, key) {
      forall n | 0 <= n <= |s0.assignments| ensures MapKept(hr, s0, n, now, key) {
        MapNeverShrinks(hr, s0, n, now, key);
      }
    } else if MapKept(hr, s0, |s0.assignments|, now, key) {
      KeptIsCovered(hr, s0, now, key);
    }
  }

  // ---------------------------------------------------------------- running it again

  lemma {:induction false} NothingToRevoke(hr: string -> bool, roles: seq<Role>, assignments: seq<Assignment>)
    requires forall b :: b in assignments ==> AtRest(hr, roles, b)
    ensures RevokedAmong(hr, roles, assignments) == 0
  {
    hide RoleWithId, Stays;
    if assignments != [] {
      var n := |assignments| - 1;
      NothingToRevoke(hr, roles, assignments[..n]);
      assert AtRest(hr, roles, assignments[n]);
    }
  }

  lemma {:induction false} NothingChanges(hr: string -> bool, s: Rbac, n: nat)
    requires n <= |s.assignments| && forall b :: b in s.assignments ==> AtRest(hr, s.roles, b)
    ensures ReconcileFirst(hr, s, n) == s
  {
    hide RoleWithId, Stays, Mirrored, Revoke;
    if n > 0 {
      NothingChanges(hr, s, n - 1);
      assert AtRest(hr, s.roles, s.assignments[n - 1]);
    }
  }

  /** A second run revokes nothing and changes nothing. */
  lemma {:induction false} SecondRunIsQuiet(hr: string -> bool, s0: Rbac)
    requires Start(hr, s0)
    ensures var s := Reconciled(hr, s0); RevokedAmong(hr, s.roles, s.assignments) == 0 && Reconciled(hr, s) == s
  {
    hide ReconcileFirst, AtRest, Midway, Start;
    var s, N := Reconciled(hr, s0), |s0.assignments|;
    RunReaches(hr, s0, N);
    assert s0.assignments[N..] == [];
    NothingToRevoke(hr, s.roles, s.assignments);
    NothingChanges(hr, s, |s.assignments|);
  }
}

/**
 * One role for two company-wide departments, the first grant expired (apps/api/src/hr-only-access.ts, lines 143-168).
 */
module HrExample {
  import opened Options
  import opened HrPolicy
  import opened HrAccess
  import opened HrRoles
  import opened HrGrants
  import opened HrOnlyTheorems

  predicate IsHr(key: string) {
    key == "leave.view"
  }

  /** The holder's home department 5 of branch 6, and the company-wide department a grant is about. */
  function About(catalog: Option<nat>): Place {
    Place(Some(6), Some(5), None, [], catalog, false)
  }

  const MANAGER: Role := Role(0, None, false, ["leave.view", "vehicle.view"])
  const EXPIRED: Window := Window(None, Some(10))
  const OPEN: Window := Window(None, None)
  const FIRST: Assignment := Assignment(1, 0, 2, Terms(About(Some(7)), EXPIRED))
  const SECOND: Assignment := Assignment(2, 0, 2, Terms(About(Some(8)), OPEN))
  const MADE: Assignment := Assignment(4, 3, 2, Terms(About(None), EXPIRED))
  const BEFORE: Rbac := Rbac([MANAGER], [FIRST, SECOND], 3)
  const DERIVED: Role := Role(3, Some(DerivedKey(0)), false, ["leave.view"])
  const BETWEEN: Rbac := Rbac([MANAGER, DERIVED], [SECOND, MADE], 5)
  const AFTER: Rbac := Rbac([MANAGER, DERIVED], [MADE], 5)

  lemma {:induction false} ManagerKeys()
    ensures HrKeysOf(IsHr, MANAGER.permissionKeys) == ["leave.view"] && !Stays(IsHr, MANAGER)
  {
    var keys := MANAGER.permissionKeys;
    assert keys[..1] == ["leave.view"] && keys[..1][..0] == [];
    assert "vehicle.view" != "leave.view";
    assert HrKeysOf(IsHr, keys[..1]) == ["leave.view"];
    assert !IsHr(keys[1]);
  }

  lemma {:induction false} FirstTurn()
    ensures ReconcileOne(IsHr, BEFORE.roles, BEFORE, FIRST) == BETWEEN
  {
    ManagerKeys();
    assert RoleWithKey([], DerivedKey(0)) == None;
    assert RoleWithKey(BEFORE.roles, DerivedKey(0)) == None;
    assert Carried(FIRST.terms) == MADE.terms;
    var t := Mirrored(IsHr, BEFORE, FIRST, MANAGER);
    assert t == Rbac([MANAGER, DERIVED], BEFORE.assignments + [MADE], 5);
    var all := t.assignments;
    assert all[..2][..1][..0] == [];
    assert all[..2][..1] == [FIRST];
    assert Revoke(all[..2][..1], 1) == [];
    assert Revoke(all[..2], 1) == [all[1]];
    assert Revoke(all, 1) == [all[1], all[2]];
  }

  lemma {:induction false} SecondTurn()
    ensures ReconcileOne(IsHr, BEFORE.roles, BETWEEN, SECOND) == AFTER
  {
    ManagerKeys();
    assert RoleWithKey(BETWEEN.roles[1..], DerivedKey(0)) == Some(DERIVED);
    assert RoleWithKey(BETWEEN.roles, DerivedKey(0)) == Some(DERIVED);
    assert SetKeys(BETWEEN.roles, 3, ["leave.view"]) == BETWEEN.roles;
    assert BETWEEN.assignments[1].roleId == 3 && BETWEEN.assignments[1].scope == 2;
    assert Holds(BETWEEN.assignments, 3, 2);
    var t := Mirrored(IsHr, BETWEEN, SECOND, MANAGER);
    assert t == BETWEEN;
    var all := t.assignments;
    assert all[..1][..0] == [] && all[..1] == [SECOND];
    assert Revoke(all[..1], 2) == [];
    assert Revoke(all, 2) == [all[1]];
  }

  lemma {:induction false} RunEnds()
    ensures Reconciled(IsHr, BEFORE) == AFTER
  {
    hide ReconcileOne;
    FirstTurn();
    SecondTurn();
    assert ReconcileFirst(IsHr, BEFORE, 1) ==
           ReconcileOne(IsHr, BEFORE.roles, ReconcileFirst(IsHr, BEFORE, 0), BEFORE.assignments[0]);
  }

  /**
   * The expired grant is mirrored first, without its department; the valid one then counts as mirrored, and
   * its HR access is lost everywhere. The unique index admits the start.
   */
  lemma {:induction false} ExpiredMirrorLosesAccess()
    ensures OneGrantEach(BEFORE.assignments)
    ensures Granted(BEFORE, 20, "leave.view", 2, About(Some(8)))
    ensures forall place :: !Granted(Reconciled(IsHr, BEFORE), 20, "leave.view", 2, place)
  {
    hide Reconciled, DerivedKey;
    RunEnds();
    assert "leave.view" in MANAGER.permissionKeys;
    assert Gives(BEFORE.roles, BEFORE.assignments[1], 20, "leave.view", 2, About(Some(8)));
  }

  /** Before it expired, the same grant had been moved from company-wide department 7 to the holder's own department. */
  lemma {:induction false} MirrorMovesHome()
    ensures !Granted(BEFORE, 5, "leave.view", 2, About(None))
    ensures Granted(Reconciled(IsHr, BEFORE), 5, "leave.view", 2, About(None))
  {
    hide Reconciled, DerivedKey;
    RunEnds();
    assert RoleWithId(AFTER.roles, 3) == RoleWithId(AFTER.roles[1..], 3) == Some(DERIVED);
    assert Gives(AFTER.roles, AFTER.assignments[0], 5, "leave.view", 2, About(None));
  }

  /** One grant with a branch added to the home unit. */
  const REACHING: Rbac :=
    Rbac([MANAGER], [Assignment(1, 0, 2, Terms(Place(Some(6), None, None, [3], None, false), OPEN))], 2)

  lemma {:induction false} ReachingStarts()
    ensures Start(IsHr, REACHING) && !TermsAgree(IsHr, REACHING) && Survives(IsHr, REACHING, 0)
  {
    ManagerKeys();
    assert HasHr(IsHr, REACHING, 0);
    assert forall r :: !IsDerivative(REACHING.roles, REACHING.assignments[0], r);
    assert FirstFor(IsHr, REACHING, 0, 0, 2);
    assert !TermsKept(REACHING, REACHING.assignments[0]);
  }

  /** The mirror loses the branch, but the map is cut as it should be: the grant survives at its scope. */
  lemma {:induction false} MapKeptReachLost(now: int)
    ensures Start(IsHr, REACHING) && !TermsAgree(IsHr, REACHING) && Covered(IsHr, REACHING, now, "leave.view")
    ensures Effective(REACHING, now, "leave.view") == Some(2)
    ensures Effective(Reconciled(IsHr, REACHING), now, "leave.view") == Some(2)
  {
    hide Start, TermsAgree, Survives, Reconciled;
    ReachingStarts();
    MapIsCutToHr(IsHr, REACHING, now, "leave.view");
    assert "leave.view" in MANAGER.permissionKeys;
    assert GivesOwn(REACHING, 0, now, "leave.view");
    assert Widest(REACHING, 0, now, "leave.view") == None;
  }
}
