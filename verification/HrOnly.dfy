/** The rules that decide what a confined account keeps (apps/api/src/hr-only-policy.ts, lines 21-71). */
module HrPolicy {
  import opened Options
  import opened YmdText

  const PREFIX: string := "hr-only:"

  /** `derivedHrRoleKey`: keyed on the source role. */
  function DerivedKey(roleId: nat): string {
    PREFIX + Decimal(roleId)
  }

  /** `isDerivedHrRoleKey` */
  predicate IsDerivedKey(key: Option<string>) {
    key.Some? && PREFIX <= key.value
  }

  datatype Classification = HrOnly | NonHr | Mixed | Empty

  predicate AllHr(hr: string -> bool, keys: seq<string>) {
    forall i :: 0 <= i < |keys| ==> hr(keys[i])
  }

  predicate NoneHr(hr: string -> bool, keys: seq<string>) {
    forall i :: 0 <= i < |keys| ==> !hr(keys[i])
  }

  /** `classifyPermissionKeys`; a key the registry does not know is not an HR key. */
  method ClassifyPermissionKeys(hr: string -> bool, keys: seq<string>) returns (c: Classification)
    ensures c == Empty <==> keys == []
    ensures c == HrOnly <==> keys != [] && AllHr(hr, keys)
    ensures c == NonHr <==> keys != [] && NoneHr(hr, keys)
    ensures c == Mixed <==> !AllHr(hr, keys) && !NoneHr(hr, keys)
  {
    if keys == [] {
      return Empty;
    }
    var inside, other := 0, 0;
    for i := 0 to |keys|
      invariant inside + other == i && inside >= 0 && other >= 0
      invariant inside == 0 <==> NoneHr(hr, keys[..i])
      invariant other == 0 <==> AllHr(hr, keys[..i])
    {
      assert keys[..i + 1][i] == keys[i];
      assert forall j :: 0 <= j < i ==> keys[..i + 1][j] == keys[..i][j];
      if hr(keys[i]) {
        inside := inside + 1;
      } else {
        other := other + 1;
      }
    }
    assert keys[..|keys|] == keys;
    assert hr(keys[0]) || !hr(keys[0]);
    c := if inside > 0 && other > 0 then Mixed else if inside > 0 then HrOnly else NonHr;
  }

  /** `hrPermissionKeysOf`: the HR keys, each once, in the order they are first named. */
  function HrKeysOf(hr: string -> bool, keys: seq<string>): (r: seq<string>)
    ensures forall k :: k in r <==> k in keys && hr(k)
  {
    if keys == [] then []
    else
      var n := |keys| - 1;
      assert keys == keys[..n] + [keys[n]];
      var rest := HrKeysOf(hr, keys[..n]);
      if hr(keys[n]) && keys[n] !in rest then rest + [keys[n]] else rest
  }

  lemma {:induction false} DecimalInjective(a: nat, b: nat)
    requires Decimal(a) == Decimal(b)
    ensures a == b
  {
    if a >= 10 || b >= 10 {
      var s := Decimal(a);
      DecimalNotEmpty(a);
      DecimalNotEmpty(b);
      if a >= 10 && b >= 10 {
        assert s[..|s| - 1] == Decimal(a / 10) && s[..|s| - 1] == Decimal(b / 10);
        DecimalInjective(a / 10, b / 10);
        assert s[|s| - 1] == DigitOf(a % 10) == DigitOf(b % 10);
      }
    } else {
      assert Decimal(a)[0] == Decimal(b)[0];
    }
  }

  lemma {:induction false} DecimalNotEmpty(n: nat)
    ensures |Decimal(n)| > 0 && (n >= 10 ==> |Decimal(n)| > 1)
  {
    if n >= 10 {
      DecimalNotEmpty(n / 10);
    }
  }

  /** Two source roles never share a derivative. */
  lemma {:induction false} DerivedKeysApart(a: nat, b: nat)
    requires DerivedKey(a) == DerivedKey(b)
    ensures a == b
  {
    assert Decimal(a) == DerivedKey(a)[|PREFIX|..] && Decimal(b) == DerivedKey(b)[|PREFIX|..];
    DecimalInjective(a, b);
  }
}

/** One user's roles, and the reconciliation that rewrites them (apps/api/src/hr-only-access.ts, lines 115-176). */
module HrAccess {
  import opened Options
  import opened HrPolicy

  datatype Role = Role(id: nat, key: Option<string>, isSystem: bool, permissionKeys: seq<string>)

  /** When a grant counts: from `validFrom` on, and before `validTo`. */
  datatype Window = Window(validFrom: Option<int>, validTo: Option<int>)

  /**
   * Where a grant applies: the home units its scope was resolved to, and its reach beyond them — branches
   * added, the company-wide department it is about, and whether that means every branch
   * (apps/api/src/platform/rbac/role-assignment.model.ts, lines 11 to 24).
   */
  datatype Place = Place(
    branch: Option<nat>, department: Option<nat>, section: Option<nat>,
    branches: seq<nat>, catalog: Option<nat>, everywhere: bool)

  /** The home units alone. */
  function Home(p: Place): Place {
    p.(branches := [], catalog := None, everywhere := false)
  }

  predicate StaysHome(p: Place) {
    p == Home(p)
  }

  datatype Terms = Terms(place: Place, window: Window)

  /** What `mirrorAssignment` copies: the home units and the window, not the reach. */
  function Carried(t: Terms): Terms {
    t.(place := Home(t.place))
  }

  /** A scope is its width. */
  datatype Assignment = Assignment(id: nat, roleId: nat, scope: nat, terms: Terms)

  datatype Rbac = Rbac(roles: seq<Role>, assignments: seq<Assignment>, nextId: nat)

  function RoleWithId(roles: seq<Role>, id: nat): Option<Role> {
    if roles == [] then None else if roles[0].id == id then Some(roles[0]) else RoleWithId(roles[1..], id)
  }

  function RoleWithKey(roles: seq<Role>, key: string): Option<Role> {
    if roles == [] then None else if roles[0].key == Some(key) then Some(roles[0]) else RoleWithKey(roles[1..], key)
  }

  function SetKeys(roles: seq<Role>, id: nat, keys: seq<string>): (r: seq<Role>)
    ensures |r| == |roles|
    ensures forall i :: 0 <= i < |roles| ==>
              r[i] == if roles[i].id == id then roles[i].(permissionKeys := keys) else roles[i]
  {
    if roles == [] then []
    else
      var n := |roles| - 1;
      SetKeys(roles[..n], id, keys) + [if roles[n].id == id then roles[n].(permissionKeys := keys) else roles[n]]
  }

  /** `ensureManagedRole`: created ordinary, or brought back to the declared keys. */
  function EnsureRole(s: Rbac, key: string, keys: seq<string>): (Rbac, nat) {
    match RoleWithKey(s.roles, key)
    case Some(role) => (s.(roles := SetKeys(s.roles, role.id, keys)), role.id)
    case None => (s.(roles := s.roles + [Role(s.nextId, Some(key), false, keys)], nextId := s.nextId + 1), s.nextId)
  }

  predicate Holds(assignments: seq<Assignment>, roleId: nat, scope: nat) {
    exists i :: 0 <= i < |assignments| && assignments[i].roleId == roleId && assignments[i].scope == scope
  }

  /**
   * `mirrorAssignment`: the same scope, home and window under another role, unless that role is held at that scope
   * already.
   */
  function Mirror(s: Rbac, source: Assignment, roleId: nat): Rbac {
    if Holds(s.assignments, roleId, source.scope) then s
    else s.(assignments := s.assignments + [Assignment(s.nextId, roleId, source.scope, Carried(source.terms))],
      nextId := s.nextId + 1)
  }

  /** `revokeAssignment` */
  function Revoke(assignments: seq<Assignment>, id: nat): seq<Assignment> {
    if assignments == [] then []
    else
      var n := |assignments| - 1;
      Revoke(assignments[..n], id) + (if assignments[n].id == id then [] else [assignments[n]])
  }

  /** The role stays as it is: a derivative, or an ordinary role granting nothing outside HR. */
  predicate Stays(hr: string -> bool, role: Role) {
    IsDerivedKey(role.key) || (role.permissionKeys != [] && AllHr(hr, role.permissionKeys) && !role.isSystem)
  }

  /** The replacement of one assignment: its derivative first. */
  function Mirrored(hr: string -> bool, s: Rbac, a: Assignment, role: Role): Rbac {
    var keys := HrKeysOf(hr, role.permissionKeys);
    if keys == [] then s
    else
      var (t, derivedId) := EnsureRole(s, DerivedKey(role.id), keys);
      Mirror(t, a, derivedId)
  }

  function ReconcileOne(hr: string -> bool, known: seq<Role>, s: Rbac, a: Assignment): Rbac {
    var role := RoleWithId(known, a.roleId);
    if role.None? || Stays(hr, role.value) then s
    else
      var t := Mirrored(hr, s, a, role.value);
      t.(assignments := Revoke(t.assignments, a.id))
  }

  predicate IsReplaced(hr: string -> bool, known: seq<Role>, a: Assignment) {
    var role := RoleWithId(known, a.roleId);
    role.Some? && !Stays(hr, role.value)
  }

  function ReconcileFirst(hr: string -> bool, s: Rbac, n: nat): Rbac
    requires n <= |s.assignments|
  {
    if n == 0 then s else ReconcileOne(hr, s.roles, ReconcileFirst(hr, s, n - 1), s.assignments[n - 1])
  }

  function RevokedAmong(hr: string -> bool, known: seq<Role>, assignments: seq<Assignment>): nat {
    if assignments == [] then 0
    else
      var n := |assignments| - 1;
      RevokedAmong(hr, known, assignments[..n]) + (if IsReplaced(hr, known, assignments[n]) then 1 else 0)
  }

  function Reconciled(hr: string -> bool, s: Rbac): Rbac {
    ReconcileFirst(hr, s, |s.assignments|)
  }

  class Account {
    var roles: seq<Role>
    var assignments: seq<Assignment>
    var nextId: nat

    ghost function Now(): Rbac
      reads this
    {
      Rbac(roles, assignments, nextId)
    }

    constructor (s: Rbac)
      ensures Now() == s
    {
      roles, assignments, nextId := s.roles, s.assignments, s.nextId;
    }

    method EnsureManagedRole(key: string, keys: seq<string>) returns (id: nat)
      modifies this
      ensures (Now(), id) == EnsureRole(old(Now()), key, keys)
    {
      var existing := RoleWithKey(roles, key);
      if existing.Some? {
        id := existing.value.id;
        roles := SetKeys(roles, id, keys);
      } else {
        id := nextId;
        roles := roles + [Role(id, Some(key), false, keys)];
        nextId := nextId + 1;
      }
    }

    method MirrorAssignment(source: Assignment, roleId: nat)
      modifies this
      ensures Now() == Mirror(old(Now()), source, roleId)
    {
      if !Holds(assignments, roleId, source.scope) {
        assignments := assignments + [Assignment(nextId, roleId, source.scope, Carried(source.terms))];
        nextId := nextId + 1;
      }
    }

    /** `reconcileRoles`: mirror, then revoke, over the assignments read at the start. */
    method ReconcileRoles(hr: string -> bool) returns (revoked: nat)
      modifies this
      ensures Now() == Reconciled(hr, old(Now()))
      ensures revoked == RevokedAmong(hr, old(roles), old(assignments))
    {
      hide EnsureRole, Mirror, Revoke, RoleWithId, HrKeysOf;
      var held, known := assignments, roles;
      revoked := 0;
      for i := 0 to |held|
        invariant Now() == ReconcileFirst(hr, old(Now()), i)
        invariant revoked == RevokedAmong(hr, known, held[..i])
      {
        assert held[..i + 1][..i] == held[..i];
        var a := held[i];
        var role := RoleWithId(known, a.roleId);
        if role.None? || IsDerivedKey(role.value.key) {
          continue;
        }
        var classification := ClassifyPermissionKeys(hr, role.value.permissionKeys);
        if classification == HrOnly && !role.value.isSystem {
          continue;
        }
        var keys := HrKeysOf(hr, role.value.permissionKeys);
        if keys != [] {
          var derivedId := EnsureManagedRole(DerivedKey(role.value.id), keys);
          MirrorAssignment(a, derivedId);
        }
        assignments := Revoke(assignments, a.id);
        revoked := revoked + 1;
      }
      assert held[..|held|] == held;
    }
  }
}
