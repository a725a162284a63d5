/**
 * A dry run counts what a write run makes: a simulation between the two, step by step
 * (apps/api/src/workforce-import/org.ts, lines 83-88 and 160-452).
 */
module OrgResolverPairs {
  import opened Options
  import opened YmdText
  import opened OrgResolverSpec
  import opened OrgResolverGrowth

  predicate IsPlaceholder(id: Id) {
    "dry-run:" <= id
  }

  predicate BarFree(text: string) {
    '|' !in text
  }

  /** Some name folds to the key. */
  ghost predicate Foldable(env: Env, k: string) {
    exists name :: env.orgKey(name) == Some(k)
  }

  /** A cache key under one of the parents names the parent and the folded name. */
  ghost predicate Splits(env: Env, parents: set<Id>) {
    forall a, j, b, k ::
      a in parents && b in parents && Foldable(env, j) && Foldable(env, k) && CacheKey(a, j) == CacheKey(b, k) ==>
        a == b && j == k
  }

  lemma {:induction false} SplitsAt(env: Env, parents: set<Id>, a: Id, j: string, b: Id, k: string)
    requires Splits(env, parents) && a in parents && b in parents && Foldable(env, j) && Foldable(env, k)
    requires CacheKey(a, j) == CacheKey(b, k)
    ensures a == b && j == k
  {
    hide CacheKey, Foldable;
  }

  lemma {:induction false} BarFreeSplits(env: Env, parents: set<Id>)
    requires forall a :: a in parents ==> BarFree(a)
    ensures Splits(env, parents)
  {
    hide CacheKey, Foldable;
    forall a, j, b, k | a in parents && b in parents && Foldable(env, j) && Foldable(env, k) &&
      CacheKey(a, j) == CacheKey(b, k)
      ensures a == b && j == k
    {
      CacheKeyReads(a, j, b, k);
    }
  }

  /** The dry run's id and the write run's: one stored unit, or a placeholder for a unit made since. */
  ghost predicate Pair(n: nat, x: Id, y: Id) {
    (x == y && Stored(x) && Issued(n, x)) || (IsPlaceholder(x) && !Issued(n, y))
  }

  ghost predicate Paired(n: nat, next: nat, ids: map<Id, Id>) {
    && (forall x :: x in ids ==> Pair(n, x, ids[x]) && Issued(next, ids[x]))
    && (forall x, y :: x in ids && y in ids && ids[x] == ids[y] ==> x == y)
  }

  lemma {:induction false} PairedLater(n: nat, next: nat, later: nat, ids: map<Id, Id>)
    requires Paired(n, next, ids) && next <= later
    ensures Paired(n, later, ids)
  {
    hide Pair;
    forall x | x in ids ensures Issued(later, ids[x]) {
      IssuedLater(next, later, ids[x]);
    }
  }

  /** A stored unit stands for itself. */
  lemma {:induction false} AddStored(n: nat, next: nat, ids: map<Id, Id>, h: Id)
    requires Paired(n, next, ids) && Stored(h) && Issued(n, h) && n <= next
    ensures Paired(n, next, ids[h := h])
    ensures h in ids ==> ids[h] == h
  {
    hide Issued;
    IssuedLater(n, next, h);
    forall x | x in ids && ids[x] == h ensures x == h {
      assert Pair(n, x, h);
    }
  }

  /** A placeholder stands for the unit just made. */
  lemma {:induction false} AddMade(n: nat, next: nat, ids: map<Id, Id>, p: Id)
    requires Paired(n, next, ids) && IsPlaceholder(p) && p !in ids && n <= next
    ensures Paired(n, next + 1, ids[p := Decimal(next)])
    ensures forall x :: x in ids ==> ids[x] != Decimal(next)
  {
    hide IsPlaceholder, Stored;
    NewIdIsNew(next);
    PairedLater(n, next, next + 1, ids);
    assert !Issued(n, Decimal(next));
  }

  // ---------------------------------------------------------------- caches under paired parents

  ghost predicate KeyUnder(env: Env, parents: set<Id>, cacheKey: string) {
    exists p, k :: p in parents && Foldable(env, k) && cacheKey == CacheKey(p, k)
  }

  ghost predicate KeysUnder(env: Env, parents: set<Id>, cache: map<string, Id>) {
    forall c :: c in cache ==> KeyUnder(env, parents, c)
  }

  /** The two caches know the same units. */
  ghost predicate SameKeys(env: Env, ids: map<Id, Id>, dry: map<string, Id>, wet: map<string, Id>) {
    forall x, k :: x in ids && Foldable(env, k) ==> (CacheKey(x, k) in dry <==> CacheKey(ids[x], k) in wet)
  }

  /** Their answers are paired. */
  ghost predicate SameAnswers(
    env: Env, ids: map<Id, Id>, dry: map<string, Id>, wet: map<string, Id>, answers: map<Id, Id>)
  {
    forall x, k :: x in ids && Foldable(env, k) && CacheKey(x, k) in dry && CacheKey(ids[x], k) in wet ==>
      dry[CacheKey(x, k)] in answers && answers[dry[CacheKey(x, k)]] == wet[CacheKey(ids[x], k)]
  }

  ghost predicate CachesAgree(env: Env, ids: map<Id, Id>, dry: map<string, Id>, wet: map<string, Id>) {
    && KeysUnder(env, ids.Keys, dry) && KeysUnder(env, ids.Values, wet) && SameKeys(env, ids, dry, wet)
    && Splits(env, ids.Keys) && Splits(env, ids.Values)
  }

  lemma {:induction false} NotUnder(env: Env, parents: set<Id>, p: Id, k: string)
    requires p !in parents && Foldable(env, k) && Splits(env, parents + {p})
    ensures !KeyUnder(env, parents, CacheKey(p, k))
  {
    hide CacheKey, Foldable, Splits;
    if q, j :| q in parents && Foldable(env, j) && CacheKey(p, k) == CacheKey(q, j) {
      SplitsAt(env, parents + {p}, p, k, q, j);
    }
  }

  lemma {:induction false} UnderMore(env: Env, parents: set<Id>, more: set<Id>, cache: map<string, Id>)
    requires KeysUnder(env, parents, cache) && parents <= more
    ensures KeysUnder(env, more, cache)
  {
    hide CacheKey, Foldable;
    forall c | c in cache ensures KeyUnder(env, more, c) {
      assert KeyUnder(env, parents, c);
      var p, k :| p in parents && Foldable(env, k) && c == CacheKey(p, k);
    }
  }

  lemma {:induction false} ValuesAdded(ids: map<Id, Id>, x: Id, y: Id)
    requires x !in ids
    ensures ids[x := y].Values == ids.Values + {y}
  {
    var more := ids[x := y];
    assert more[x] == y;
    forall v | v in ids.Values ensures v in more.Values {
      var z :| z in ids && ids[z] == v;
      assert more[z] == v;
    }
  }

  /** A new parent has no cached units yet. */
  lemma {:induction false} NewParent(
    env: Env, ids: map<Id, Id>, dry: map<string, Id>, wet: map<string, Id>, answers: map<Id, Id>, x: Id, y: Id)
    requires CachesAgree(env, ids, dry, wet) && x !in ids && y !in ids.Values
    requires Splits(env, ids[x := y].Keys) && Splits(env, ids[x := y].Values)
    ensures CachesAgree(env, ids[x := y], dry, wet)
    ensures SameAnswers(env, ids, dry, wet, answers) ==> SameAnswers(env, ids[x := y], dry, wet, answers)
  {
    hide CacheKey, Foldable, KeyUnder, Splits;
    var more := ids[x := y];
    assert forall z :: z in ids ==> more[z] == ids[z];
    ValuesAdded(ids, x, y);
    assert more.Keys == ids.Keys + {x};
    UnderMore(env, ids.Keys, more.Keys, dry);
    UnderMore(env, ids.Values, more.Values, wet);
    forall k | Foldable(env, k) ensures CacheKey(x, k) !in dry && CacheKey(y, k) !in wet {
      NotUnder(env, ids.Keys, x, k);
      NotUnder(env, ids.Values, y, k);
    }
  }

  /** Both runs answer one more lookup. */
  lemma {:induction false} BothCache(
    env: Env, ids: map<Id, Id>, dry: map<string, Id>, wet: map<string, Id>,
    x: Id, k: string, a: Id, b: Id, n: nat, next: nat)
    requires CachesAgree(env, ids, dry, wet) && x in ids && Foldable(env, k) && Paired(n, next, ids)
    ensures CachesAgree(env, ids, dry[CacheKey(x, k) := a], wet[CacheKey(ids[x], k) := b])
  {
    hide CacheKey, Foldable, Pair, Issued, Splits;
    var dry', wet' := dry[CacheKey(x, k) := a], wet[CacheKey(ids[x], k) := b];
    assert KeyUnder(env, ids.Keys, CacheKey(x, k)) && KeyUnder(env, ids.Values, CacheKey(ids[x], k));
    forall z, j | z in ids && Foldable(env, j) ensures CacheKey(z, j) in dry' <==> CacheKey(ids[z], j) in wet' {
      if CacheKey(z, j) == CacheKey(x, k) {
        SplitsAt(env, ids.Keys, z, j, x, k);
      }
      if CacheKey(ids[z], j) == CacheKey(ids[x], k) {
        SplitsAt(env, ids.Values, ids[z], j, ids[x], k);
      }
    }
  }

  lemma {:induction false} BothAnswer(
    env: Env, ids: map<Id, Id>, dry: map<string, Id>, wet: map<string, Id>, answers: map<Id, Id>,
    x: Id, k: string, a: Id, b: Id, n: nat, next: nat)
    requires SameKeys(env, ids, dry, wet) && SameAnswers(env, ids, dry, wet, answers)
    requires Splits(env, ids.Keys) && Splits(env, ids.Values)
    requires x in ids && Foldable(env, k) && Paired(n, next, ids) && (a in answers ==> answers[a] == b)
    ensures SameAnswers(env, ids, dry[CacheKey(x, k) := a], wet[CacheKey(ids[x], k) := b], answers[a := b])
  {
    hide CacheKey, Foldable, Pair, Issued, Splits;
    var dry', wet', answers' := dry[CacheKey(x, k) := a], wet[CacheKey(ids[x], k) := b], answers[a := b];
    forall z, j | z in ids && Foldable(env, j) && CacheKey(z, j) in dry' && CacheKey(ids[z], j) in wet'
      ensures dry'[CacheKey(z, j)] in answers' && answers'[dry'[CacheKey(z, j)]] == wet'[CacheKey(ids[z], j)]
    {
      if CacheKey(z, j) == CacheKey(x, k) {
        SplitsAt(env, ids.Keys, z, j, x, k);
      }
      if CacheKey(ids[z], j) == CacheKey(ids[x], k) {
        SplitsAt(env, ids.Values, ids[z], j, ids[x], k);
      }
    }
  }

  // ---------------------------------------------------------------- lookups in the two registries

  type Place = (Id, Option<string>)

  /** Every row made since stands where the cache says a unit was made. */
  ghost predicate MadeAreCached<T(!new)>(base: seq<T>, rows: seq<T>, place: T -> Place, wet: map<string, Id>) {
    && base <= rows
    && forall i :: |base| <= i < |rows| ==>
      place(rows[i]).1.Some? && CacheKey(place(rows[i]).0, place(rows[i]).1.value) in wet
  }

  ghost predicate ParentsKnown<T(!new)>(n: nat, base: seq<T>, place: T -> Place) {
    forall i :: 0 <= i < |base| ==> Stored(place(base[i]).0) && Issued(n, place(base[i]).0)
  }

  predicate Matches<T(!new)>(p: T -> bool, place: T -> Place, parent: Id, key: string, row: T) {
    p(row) == (place(row) == (parent, Some(key)))
  }

  lemma {:induction false} FindConcat<T(!new)>(a: seq<T>, b: seq<T>, p: T -> bool)
    requires forall i :: 0 <= i < |b| ==> !p(b[i])
    ensures Find(a + b, p) == Find(a, p)
  {
    if a == [] {
      assert a + b == b;
      FindNowhere(b, p);
    } else {
      assert (a + b)[0] == a[0] && (a + b)[1..] == a[1..] + b;
      FindConcat(a[1..], b, p);
    }
  }

  lemma {:induction false} FindNowhere<T(!new)>(b: seq<T>, p: T -> bool)
    requires forall i :: 0 <= i < |b| ==> !p(b[i])
    ensures Find(b, p) == None
  {
    if b != [] {
      FindNowhere(b[1..], p);
    }
  }

  lemma {:induction false} FindAlike<T(!new)>(a: seq<T>, p: T -> bool, q: T -> bool)
    requires forall i :: 0 <= i < |a| ==> p(a[i]) == q(a[i])
    ensures Find(a, p) == Find(a, q)
  {
    if a != [] {
      FindAlike(a[1..], p, q);
    }
  }

  /** A unit neither run has cached is found by both or by neither, and it is the same row. */
  lemma {:induction false} LookupsAgree<T(!new)>(
    base: seq<T>, rows: seq<T>, place: T -> Place, wet: map<string, Id>,
    p: T -> bool, q: T -> bool, x: Id, y: Id, k: string, n: nat)
    requires MadeAreCached(base, rows, place, wet) && ParentsKnown(n, base, place) && Pair(n, x, y)
    requires CacheKey(y, k) !in wet
    requires forall row :: Matches(p, place, x, k, row) && Matches(q, place, y, k, row)
    ensures Find(base, p) == Find(rows, q)
  {
    hide CacheKey;
    var made := rows[|base|..];
    assert rows == base + made;
    forall i | 0 <= i < |made| ensures !q(made[i]) {
      assert made[i] == rows[|base| + i];
      assert Matches(q, place, y, k, made[i]);
    }
    FindConcat(base, made, q);
    forall i | 0 <= i < |base| ensures p(base[i]) == q(base[i]) {
      assert Matches(p, place, x, k, base[i]) && Matches(q, place, y, k, base[i]);
      assert Stored(place(base[i]).0) && Issued(n, place(base[i]).0);
    }
    FindAlike(base, p, q);
  }

  lemma {:induction false} OneMoreMade<T(!new)>(
    base: seq<T>, rows: seq<T>, place: T -> Place, wet: map<string, Id>, row: T, cacheKey: string, id: Id)
    requires MadeAreCached(base, rows, place, wet)
    requires place(row).1.Some? && cacheKey == CacheKey(place(row).0, place(row).1.value)
    ensures MadeAreCached(base, rows + [row], place, wet[cacheKey := id])
  {
  }

  lemma {:induction false} MadeStayCached<T(!new)>(
    base: seq<T>, rows: seq<T>, place: T -> Place, wet: map<string, Id>, cacheKey: string, id: Id)
    requires MadeAreCached(base, rows, place, wet)
    ensures MadeAreCached(base, rows, place, wet[cacheKey := id])
  {
  }
}

/** The simulation itself. */
module OrgResolverDryRun {
  import opened Options
  import opened Sequences
  import opened UnitCodes
  import opened YmdText
  import opened OrgResolverSpec
  import opened OrgResolverShapes
  import opened OrgResolverGrowth
  import opened OrgResolverPairs

  function Dry(env: Env): Env {
    env.(dryRun := true)
  }

  /** The run writes, and branch codes hold no separator. */
  ghost predicate Plain(env: Env) {
    !env.dryRun && forall k :: k in env.branchCodes ==> BarFree(env.branchCodes[k])
  }

  /** A coded site that neither its code nor its name leads to a branch of the registry. */
  ghost predicate NewSite(env: Env, r: Registry, k: string) {
    k in env.branchCodes && Foldable(env, k) && MatchBranch(env, r.branches, env.branchCodes[k], k).None?
  }

  /** No new site shares its code with another site. */
  ghost predicate Settled(env: Env, r: Registry) {
    forall j, k :: NewSite(env, r, k) && SharesCode(env, j, k) ==> j == k
  }

  ghost predicate SharesCode(env: Env, j: string, k: string) {
    j in env.branchCodes && k in env.branchCodes && Foldable(env, j) && env.branchCodes[j] == env.branchCodes[k]
  }

  /** The branch a coded site leads to: the one it matches, or the placeholder of its code. */
  ghost predicate LeadsTo(env: Env, r: Registry, k: string, x: Id) {
    && k in env.branchCodes && Foldable(env, k)
    && match MatchBranch(env, r.branches, env.branchCodes[k], k)
       case Some(m) => x == m.id
       case None => x == DryBranch(env.branchCodes[k])
  }

  ghost predicate SiteBranch(env: Env, r: Registry, x: Id) {
    exists k :: LeadsTo(env, r, k, x)
  }

  ghost predicate NoDepartment(env: Env, r: Registry, x: Id, u: string) {
    forall i :: 0 <= i < |r.departments| ==> DepartmentPlace(env)(r.departments[i]) != (x, Some(u))
  }

  /** Section `t` of department `u` and section `w` of another department `v` of the site, both new, read alike. */
  ghost predicate Meet(env: Env, r: Registry, x: Id, u: string, t: string, v: string, w: string) {
    && SiteBranch(env, r, x) && u != v && CacheKey(u, t) == CacheKey(v, w)
    && Foldable(env, u) && Foldable(env, t) && Foldable(env, v) && Foldable(env, w)
    && NoDepartment(env, r, x, u) && NoDepartment(env, r, x, v)
  }

  /** No two sections of two departments new to one site read alike. */
  ghost predicate NoneMeet(env: Env, r: Registry) {
    forall x, u, t, v, w :: !Meet(env, r, x, u, t, v, w)
  }

  /** Every unit and every parent the registry names has an id it has given. */
  ghost predicate Tidy(env: Env, r: Registry) {
    && (forall i :: 0 <= i < |r.branches| ==> Stored(r.branches[i].id) && Issued(r.nextId, r.branches[i].id))
    && (forall i :: 0 <= i < |r.departments| ==> Stored(r.departments[i].id) && Issued(r.nextId, r.departments[i].id))
    && ParentsKnown(r.nextId, r.departments, DepartmentPlace(env))
    && ParentsKnown(r.nextId, r.sections, SectionPlace(env))
  }

  // ---------------------------------------------------------------- the relation

  /** A branch made since: the site's code, under the site's name. */
  ghost predicate MadeBranch(env: Env, base: Registry, row: BranchRow, cache: map<string, Id>) {
    var k := env.orgKey(row.name);
    k.Some? && k.value in cache && NewSite(env, base, k.value) && row.code == env.branchCodes[k.value]
  }

  ghost predicate BranchesAgree(env: Env, base: Registry, dry: map<string, Id>, w: State, ids: map<Id, Id>) {
    && dry.Keys == w.branches.Keys
    && (forall k :: k in dry ==> dry[k] in ids && ids[dry[k]] == w.branches[k])
    && Paired(base.nextId, w.registry.nextId, ids)
    && (forall x :: x in ids && IsPlaceholder(x) ==>
      exists k :: k in dry && NewSite(env, base, k) && x == DryBranch(env.branchCodes[k]))
    && base.branches <= w.registry.branches
    && (forall i :: |base.branches| <= i < |w.registry.branches| ==>
      MadeBranch(env, base, w.registry.branches[i], w.branches))
    && (forall x :: x in ids ==> SiteBranch(env, base, x))
  }

  /** A placeholder of a department that is new to its branch. */
  ghost predicate Counted(env: Env, base: Registry, parents: set<Id>, dry: map<string, Id>, y: Id, x: Id, k: string) {
    && x in parents && Foldable(env, k) && NoDepartment(env, base, x, k)
    && CacheKey(x, k) in dry && y == DryDepartment(CacheKey(x, k))
  }

  ghost predicate CountedSomewhere(env: Env, base: Registry, parents: set<Id>, dry: map<string, Id>, y: Id) {
    exists x, k :: Counted(env, base, parents, dry, y, x, k)
  }

  lemma {:induction false} CountedStill(
    env: Env, base: Registry, parents: set<Id>, dry: map<string, Id>, more: set<Id>, later: map<string, Id>, y: Id)
    requires CountedSomewhere(env, base, parents, dry, y) && parents <= more && dry.Keys <= later.Keys
    ensures CountedSomewhere(env, base, more, later, y)
  {
    var x, k :| Counted(env, base, parents, dry, y, x, k);
    assert Counted(env, base, more, later, y, x, k);
  }

  ghost predicate DepartmentsAgree(
    env: Env, base: Registry, dry: map<string, Id>, w: State, ids: map<Id, Id>, departmentIds: map<Id, Id>)
  {
    && CachesAgree(env, ids, dry, w.departments) && SameAnswers(env, ids, dry, w.departments, departmentIds)
    && Paired(base.nextId, w.registry.nextId, departmentIds)
    && (forall y :: y in departmentIds && IsPlaceholder(y) ==> CountedSomewhere(env, base, ids.Keys, dry, y))
    && MadeAreCached(base.departments, w.registry.departments, DepartmentPlace(env), w.departments)
  }

  ghost predicate SectionsAgree(env: Env, base: Registry, dry: map<string, Id>, w: State, departmentIds: map<Id, Id>) {
    && CachesAgree(env, departmentIds, dry, w.sections)
    && MadeAreCached(base.sections, w.registry.sections, SectionPlace(env), w.sections)
  }

  predicate MadeTitle(env: Env, row: TitleRow, cache: map<string, Id>) {
    env.orgKey(row.name).Some? && env.orgKey(row.name).value in cache
  }

  ghost predicate TitlesAgree(env: Env, base: Registry, dry: map<string, Id>, w: State) {
    && dry.Keys == w.jobTitles.Keys
    && base.titles <= w.registry.titles
    && (forall i :: |base.titles| <= i < |w.registry.titles| ==> MadeTitle(env, w.registry.titles[i], w.jobTitles))
  }

  /** The dry run has written nothing and counted what the write run made. */
  ghost predicate Simulates(env: Env, d: State, w: State, ids: map<Id, Id>, departmentIds: map<Id, Id>) {
    && d.created == w.created && d.problems == w.problems && d.minted == [] && d.registry.nextId <= w.registry.nextId
    && Tidy(env, d.registry) && Settled(env, d.registry) && NoneMeet(env, d.registry) && Sound(env, w)
    && BranchesAgree(env, d.registry, d.branches, w, ids)
    && DepartmentsAgree(env, d.registry, d.departments, w, ids, departmentIds)
    && SectionsAgree(env, d.registry, d.sections, w, departmentIds)
    && TitlesAgree(env, d.registry, d.jobTitles, w)
  }

  // ---------------------------------------------------------------- cache keys name their parents

  lemma {:induction false} PairedBarFree(n: nat, next: nat, ids: map<Id, Id>)
    requires Paired(n, next, ids)
    ensures forall y :: y in ids.Values ==> BarFree(y)
  {
    forall y | y in ids.Values ensures BarFree(y) {
      var x :| x in ids && ids[x] == y;
      assert Pair(n, x, y);
      if !Issued(n, y) {
        var m: nat :| m >= n && Decimal(m) == y;
        NewIdIsNew(m);
      }
    }
  }

  lemma {:induction false} PlaceholderBarFree(code: string)
    requires BarFree(code)
    ensures BarFree(DryBranch(code))
  {
  }

  lemma {:induction false} BranchIdsSplit(env: Env, base: Registry, dry: map<string, Id>, w: State, ids: map<Id, Id>)
    requires Plain(env) && BranchesAgree(env, base, dry, w, ids)
    ensures forall x :: x in ids ==> BarFree(x)
    ensures Splits(env, ids.Keys) && Splits(env, ids.Values)
  {
    hide MadeBranch, Issued, Splits, DryBranch, SiteBranch, IsPlaceholder;
    forall x | x in ids ensures BarFree(x) {
      assert Pair(base.nextId, x, ids[x]);
      if IsPlaceholder(x) {
        var k :| k in dry && NewSite(env, base, k) && x == DryBranch(env.branchCodes[k]);
        PlaceholderBarFree(env.branchCodes[k]);
      }
    }
    PairedBarFree(base.nextId, w.registry.nextId, ids);
    BarFreeSplits(env, ids.Keys);
    BarFreeSplits(env, ids.Values);
  }

  /** Two placeholders under which one cache key stands. */
  lemma {:induction false} PlaceholderKeys(x: Id, u: string, j: string, y: Id, v: string, k: string)
    requires BarFree(x) && BarFree(y)
    requires CacheKey(DryDepartment(CacheKey(x, u)), j) == CacheKey(DryDepartment(CacheKey(y, v)), k)
    ensures x == y && CacheKey(u, j) == CacheKey(v, k)
  {
    var head := "dry-run:department:";
    var a, b := CacheKey(DryDepartment(CacheKey(x, u)), j), CacheKey(DryDepartment(CacheKey(y, v)), k);
    assert a[|head|..] == CacheKey(x, CacheKey(u, j)) && b[|head|..] == CacheKey(y, CacheKey(v, k));
    CacheKeyReads(x, CacheKey(u, j), y, CacheKey(v, k));
  }

  lemma {:induction false} CacheKeyPrefix(u: string, j: string, k: string)
    requires CacheKey(u, j) == CacheKey(u, k)
    ensures j == k
  {
    assert CacheKey(u, j)[|u| + 1..] == j && CacheKey(u, k)[|u| + 1..] == k;
  }

  /** A stored id and a placeholder never stand at the head of one cache key. */
  lemma {:induction false} StoredKeys(a: Id, j: string, x: Id, v: string, k: string)
    requires Stored(a) && BarFree(x)
    ensures CacheKey(a, j) != CacheKey(DryDepartment(CacheKey(x, v)), k)
  {
    var head := "dry-run:department:";
    assert CacheKey(DryDepartment(CacheKey(x, v)), k) == CacheKey(head + x, CacheKey(v, k));
    assert "dry-run:" <= head <= head + x;
    if CacheKey(a, j) == CacheKey(head + x, CacheKey(v, k)) {
      CacheKeyReads(a, j, head + x, CacheKey(v, k));
    }
  }

  lemma {:induction false} DepartmentKeysSplit(
    env: Env, base: Registry, parents: set<Id>, dry: map<string, Id>, a: Id, j: string, b: Id, k: string)
    requires NoneMeet(env, base) && Foldable(env, j) && Foldable(env, k) && CacheKey(a, j) == CacheKey(b, k)
    requires forall x :: x in parents ==> BarFree(x) && SiteBranch(env, base, x)
    requires Stored(a) || CountedSomewhere(env, base, parents, dry, a)
    requires Stored(b) || CountedSomewhere(env, base, parents, dry, b)
    ensures a == b && j == k
  {
    hide CacheKey, DryDepartment, Foldable, SiteBranch, NoDepartment;
    if Stored(a) && Stored(b) {
      CacheKeyReads(a, j, b, k);
    } else if Stored(a) {
      var y, v :| Counted(env, base, parents, dry, b, y, v);
      StoredKeys(a, j, y, v, k);
    } else if Stored(b) {
      var x, u :| Counted(env, base, parents, dry, a, x, u);
      StoredKeys(b, k, x, u, j);
    } else {
      var x, u :| Counted(env, base, parents, dry, a, x, u);
      var y, v :| Counted(env, base, parents, dry, b, y, v);
      PlaceholderKeys(x, u, j, y, v, k);
      assert !Meet(env, base, x, u, j, v, k);
      CacheKeyPrefix(u, j, k);
    }
  }

  lemma {:induction false} DepartmentIdsSplit(
    env: Env, base: Registry, sites: map<string, Id>, dry: map<string, Id>, w: State, v: State, ids: map<Id, Id>,
    departmentIds: map<Id, Id>)
    requires Plain(env) && NoneMeet(env, base) && BranchesAgree(env, base, sites, w, ids)
    requires DepartmentsAgree(env, base, dry, v, ids, departmentIds)
    ensures Splits(env, departmentIds.Keys) && Splits(env, departmentIds.Values)
  {
    hide Plain, NoneMeet, MadeBranch, Issued, DryBranch, SiteBranch, IsPlaceholder, CacheKey, Foldable, CachesAgree,
      SameAnswers, MadeAreCached, CountedSomewhere, Stored;
    BranchIdsSplit(env, base, sites, w, ids);
    forall a, j, b, k | a in departmentIds && b in departmentIds && Foldable(env, j) && Foldable(env, k) &&
      CacheKey(a, j) == CacheKey(b, k)
      ensures a == b && j == k
    {
      assert Pair(base.nextId, a, departmentIds[a]) && Pair(base.nextId, b, departmentIds[b]);
      DepartmentKeysSplit(env, base, ids.Keys, dry, a, j, b, k);
    }
    PairedBarFree(base.nextId, v.registry.nextId, departmentIds);
    BarFreeSplits(env, departmentIds.Values);
  }

  // ---------------------------------------------------------------- branches

  /** A site neither run has cached is matched by both runs alike. */
  lemma {:induction false} BranchMatchesAgree(
    env: Env, base: Registry, dry: map<string, Id>, w: State, ids: map<Id, Id>, key: string)
    requires Settled(env, base) && BranchesAgree(env, base, dry, w, ids)
    requires key !in dry && key in env.branchCodes && Foldable(env, key)
    ensures MatchBranch(env, base.branches, env.branchCodes[key], key)
         == MatchBranch(env, w.registry.branches, env.branchCodes[key], key)
  {
    hide Find, Foldable;
    var code := env.branchCodes[key];
    var rows := w.registry.branches;
    var made := rows[|base.branches|..];
    assert rows == base.branches + made;
    forall i | 0 <= i < |made| ensures !BranchCoded(code)(made[i]) && !BranchNamed(env, key)(made[i]) {
      assert made[i] == rows[|base.branches| + i];
      assert MadeBranch(env, base, made[i], w.branches);
      var k := env.orgKey(made[i].name).value;
      assert made[i].code == code ==> SharesCode(env, key, k);
    }
    FindConcat(base.branches, made, BranchCoded(code));
    FindConcat(base.branches, made, BranchNamed(env, key));
  }

  /** The fold and the registry decide a match, not the mode. */
  lemma {:induction false} MatchIgnoresMode(env: Env, items: seq<BranchRow>, code: string, key: string)
    ensures MatchBranch(Dry(env), items, code, key) == MatchBranch(env, items, code, key)
  {
    hide Find;
    assert forall b :: BranchNamed(Dry(env), key)(b) == BranchNamed(env, key)(b);
    FindAlike(items, BranchNamed(Dry(env), key), BranchNamed(env, key));
  }

  lemma {:induction false} MatchIsStored(env: Env, r: Registry, code: string, key: string)
    requires Tidy(env, r) && MatchBranch(env, r.branches, code, key).Some?
    ensures var id := MatchBranch(env, r.branches, code, key).value.id; Stored(id) && Issued(r.nextId, id)
  {
    hide Find, Issued, Stored, ParentsKnown;
    if Find(r.branches, BranchCoded(code)).Some? {
      FindSome(r.branches, BranchCoded(code));
    } else {
      FindSome(r.branches, BranchNamed(env, key));
    }
  }

  lemma {:induction false} SiteFound(
    env: Env, base: Registry, dry: map<string, Id>, w: State, ids: map<Id, Id>, key: string, h: Id)
    requires BranchesAgree(env, base, dry, w, ids) && key !in dry && Stored(h) && Issued(base.nextId, h)
    requires base.nextId <= w.registry.nextId && LeadsTo(env, base, key, h)
    ensures BranchesAgree(env, base, dry[key := h], w.(branches := w.branches[key := h]), ids[h := h])
  {
    hide Stored, Issued, Pair, DryBranch, LeadsTo;
    AddStored(base.nextId, w.registry.nextId, ids, h);
    assert !IsPlaceholder(h) by { StoredIsNoPlaceholder(h); }
    forall x | x in ids[h := h] && IsPlaceholder(x)
      ensures exists k :: k in dry[key := h] && NewSite(env, base, k) && x == DryBranch(env.branchCodes[k])
    {
      assert x in ids;
      var k :| k in dry && NewSite(env, base, k) && x == DryBranch(env.branchCodes[k]);
      assert k in dry[key := h];
    }
    forall i | |base.branches| <= i < |w.registry.branches|
      ensures MadeBranch(env, base, w.registry.branches[i], w.branches[key := h])
    {
      assert MadeBranch(env, base, w.registry.branches[i], w.branches);
    }
  }

  lemma {:induction false} StoredIsNoPlaceholder(h: Id)
    requires Stored(h)
    ensures !IsPlaceholder(h)
  {
  }

  lemma {:induction false} PlaceholdersApart(a: string, b: string)
    ensures DryBranch(a) == DryBranch(b) ==> a == b
    ensures DryDepartment(a) == DryDepartment(b) ==> a == b
    ensures IsPlaceholder(DryBranch(a)) && IsPlaceholder(DryDepartment(a))
  {
    var p, q := "dry-run:branch:", "dry-run:department:";
    assert a == DryBranch(a)[|p|..] && b == DryBranch(b)[|p|..];
    assert a == DryDepartment(a)[|q|..] && b == DryDepartment(b)[|q|..];
    assert "dry-run:" <= p && "dry-run:" <= q;
    assert p <= DryBranch(a) && q <= DryDepartment(a);
  }

  lemma {:induction false} OneSite(env: Env, r: Registry, j: string, k: string)
    requires Settled(env, r) && NewSite(env, r, j) && NewSite(env, r, k) && env.branchCodes[j] == env.branchCodes[k]
    ensures j == k
  {
    assert SharesCode(env, j, k);
  }

  lemma {:induction false} SiteMade(
    env: Env, base: Registry, dry: map<string, Id>, w: State, ids: map<Id, Id>, name: string, key: string)
    requires Settled(env, base) && BranchesAgree(env, base, dry, w, ids) && key !in dry && NewSite(env, base, key)
    requires env.orgKey(name) == Some(key) && base.nextId <= w.registry.nextId
    ensures var code := env.branchCodes[key];
            var id := NewId(w.registry);
            var made := w.(registry := CreateBranch(w.registry, code, name), branches := w.branches[key := id]);
            && DryBranch(code) !in ids && id !in ids.Values
            && BranchesAgree(env, base, dry[key := DryBranch(code)], made, ids[DryBranch(code) := id])
  {
    hide Stored, Issued, Pair, DryBranch, IsPlaceholder, Foldable, MatchBranch;
    var code, id := env.branchCodes[key], NewId(w.registry);
    var p := DryBranch(code);
    PlaceholdersApart(code, code);
    if p in ids {
      var k :| k in dry && NewSite(env, base, k) && p == DryBranch(env.branchCodes[k]);
      PlaceholdersApart(code, env.branchCodes[k]);
      OneSite(env, base, key, k);
    }
    AddMade(base.nextId, w.registry.nextId, ids, p);
    assert LeadsTo(env, base, key, p);
    var dry' := dry[key := p];
    forall x | x in ids[p := id] && IsPlaceholder(x)
      ensures exists k :: k in dry' && NewSite(env, base, k) && x == DryBranch(env.branchCodes[k])
    {
      if x == p {
        assert key in dry' && NewSite(env, base, key);
      } else {
        var k :| k in dry && NewSite(env, base, k) && x == DryBranch(env.branchCodes[k]);
        assert k in dry';
      }
    }
    var rows := w.registry.branches + [BranchRow(id, code, name)];
    forall i | |base.branches| <= i < |rows| ensures MadeBranch(env, base, rows[i], w.branches[key := id]) {
      assert i < |w.registry.branches| ==> MadeBranch(env, base, w.registry.branches[i], w.branches);
    }
  }

  /** The other caches do not see a branch being looked up, only the parents that now exist. */
  lemma {:induction false} BranchParents(
    env: Env, base: Registry, d: State, w: State, v: State, ids: map<Id, Id>, departmentIds: map<Id, Id>, x: Id, y: Id)
    requires DepartmentsAgree(env, base, d.departments, w, ids, departmentIds)
    requires SectionsAgree(env, base, d.sections, w, departmentIds) && TitlesAgree(env, base, d.jobTitles, w)
    requires v.departments == w.departments && v.sections == w.sections && v.jobTitles == w.jobTitles
    requires v.registry == w.registry.(branches := v.registry.branches, nextId := v.registry.nextId)
    requires w.registry.nextId <= v.registry.nextId
    requires (x !in ids && y !in ids.Values) || (x in ids && ids[x] == y)
    requires Splits(env, ids[x := y].Keys) && Splits(env, ids[x := y].Values)
    ensures DepartmentsAgree(env, base, d.departments, v, ids[x := y], departmentIds)
    ensures SectionsAgree(env, base, d.sections, v, departmentIds) && TitlesAgree(env, base, d.jobTitles, v)
  {
    hide CachesAgree, SameAnswers, MadeAreCached, Paired, IsPlaceholder, CountedSomewhere, Splits;
    PairedLater(base.nextId, w.registry.nextId, v.registry.nextId, departmentIds);
    forall z | z in departmentIds && IsPlaceholder(z)
      ensures CountedSomewhere(env, base, ids[x := y].Keys, d.departments, z)
    {
      CountedStill(env, base, ids.Keys, d.departments, ids[x := y].Keys, d.departments, z);
    }
    if x !in ids {
      NewParent(env, ids, d.departments, w.departments, departmentIds, x, y);
    } else {
      assert ids[x := y] == ids;
    }
  }

  /** The two answers to one lookup: none, or a pair. */
  ghost predicate SameAnswer(a: Option<Id>, b: Option<Id>, ids: map<Id, Id>) {
    match a
    case None => b == None
    case Some(x) => x in ids && b == Some(ids[x])
  }

  /** What `NewBranch` answers in each of its cases. */
  lemma {:induction false} SiteWithoutCode(env: Env, s: State, name: string, key: string)
    requires key !in env.branchCodes
    ensures NewBranch(env, s, name, key) == Step(Noted(s, SiteHasNoCode(name)), None)
  {
    hide Noted;
  }

  lemma {:induction false} SiteMatched(env: Env, s: State, name: string, key: string)
    requires key in env.branchCodes && MatchBranch(env, s.registry.branches, env.branchCodes[key], key).Some?
    ensures var m := MatchBranch(env, s.registry.branches, env.branchCodes[key], key).value;
            NewBranch(env, s, name, key)
            == Step(Matched(s, m, env.branchCodes[key]).(branches := s.branches[key := m.id]), Some(m.id))
  {
    hide Matched, MatchBranch;
  }

  lemma {:induction false} SiteNew(env: Env, s: State, name: string, key: string)
    requires key in env.branchCodes && MatchBranch(env, s.registry.branches, env.branchCodes[key], key).None?
    ensures var code := env.branchCodes[key];
            NewBranch(env, s, name, key) ==
            if env.dryRun then Step(CountBranch(s, key, DryBranch(code)), Some(DryBranch(code)))
            else Step(CountBranch(s.(registry := CreateBranch(s.registry, code, name)), key, NewId(s.registry)),
              Some(NewId(s.registry)))
  {
    hide MatchBranch, DryBranch, NewId, CountBranch, CreateBranch;
  }

  lemma {:induction false} NoCodeSimulates(
    env: Env, d: State, w: State, name: string, key: string, ids: map<Id, Id>, departmentIds: map<Id, Id>)
    requires Plain(env) && Simulates(env, d, w, ids, departmentIds) && env.orgKey(name) == Some(key) &&
             key !in env.branchCodes
    ensures var a, b := NewBranch(Dry(env), d, name, key), NewBranch(env, w, name, key);
            && Simulates(env, a.state, b.state, ids, departmentIds) && SameAnswer(a.value, b.value, ids)
            && a.state.registry == d.registry
  {
    hide BranchesAgree, DepartmentsAgree, SectionsAgree, TitlesAgree, Tidy, Settled, NoneMeet, Sound, Noted, Grows,
      NewBranch;
    var b := NewBranch(env, w, name, key);
    SiteWithoutCode(Dry(env), d, name, key);
    SiteWithoutCode(env, w, name, key);
    BranchGrows(env, w, name, key);
    SameNotes(d, w, SiteHasNoCode(name));
    BranchNoted(env, d, w, b.state, ids);
    EachStays(env, d, w, b.state, ids, departmentIds);
  }

  lemma {:induction false} MatchedSimulates(
    env: Env, d: State, w: State, name: string, key: string, ids: map<Id, Id>, departmentIds: map<Id, Id>, m: Match)
    requires Plain(env) && Simulates(env, d, w, ids, departmentIds) && env.orgKey(name) == Some(key) &&
             key !in d.branches
    requires key in env.branchCodes
    requires MatchBranch(Dry(env), d.registry.branches, env.branchCodes[key], key) == Some(m)
    requires MatchBranch(env, w.registry.branches, env.branchCodes[key], key) == Some(m)
    requires Stored(m.id) && Issued(d.registry.nextId, m.id)
    ensures var a, b := NewBranch(Dry(env), d, name, key), NewBranch(env, w, name, key);
            && Simulates(env, a.state, b.state, ids[m.id := m.id], departmentIds)
            && SameAnswer(a.value, b.value, ids[m.id := m.id])
            && a.state.registry == d.registry
  {
    hide BranchesAgree, DepartmentsAgree, SectionsAgree, TitlesAgree, Tidy, Settled, NoneMeet, Sound, MatchBranch,
      Matched, Grows, NewBranch, Issued, Stored, Plain;
    var b := NewBranch(env, w, name, key);
    var code := env.branchCodes[key];
    SiteMatched(Dry(env), d, name, key);
    SiteMatched(env, w, name, key);
    PlainWrites(env);
    BranchGrows(env, w, name, key);
    SameMatched(d, w, m, code);
    MatchIgnoresMode(env, d.registry.branches, code, key);
    assert LeadsTo(env, d.registry, key, m.id);
    HitBranch(env, d, w, b.state, ids, departmentIds, key, m.id);
  }

  lemma {:induction false} PlainWrites(env: Env)
    requires Plain(env)
    ensures !env.dryRun
  {
  }

  lemma {:induction false} MadeSimulates(
    env: Env, d: State, w: State, name: string, key: string, ids: map<Id, Id>, departmentIds: map<Id, Id>)
    requires Plain(env) && Simulates(env, d, w, ids, departmentIds) && env.orgKey(name) == Some(key) &&
             key !in d.branches
    requires key in env.branchCodes
    requires MatchBranch(Dry(env), d.registry.branches, env.branchCodes[key], key) == None
    requires MatchBranch(env, w.registry.branches, env.branchCodes[key], key) == None
    ensures var a, b := NewBranch(Dry(env), d, name, key), NewBranch(env, w, name, key);
            var more := ids[DryBranch(env.branchCodes[key]) := NewId(w.registry)];
            && Simulates(env, a.state, b.state, more, departmentIds) && SameAnswer(a.value, b.value, more)
            && a.state.registry == d.registry
  {
    hide BranchesAgree, DepartmentsAgree, SectionsAgree, TitlesAgree, Tidy, Settled, NoneMeet, Sound, MatchBranch,
      Grows, NewBranch, DryBranch, NewId, Plain;
    var b := NewBranch(env, w, name, key);
    var p, id := DryBranch(env.branchCodes[key]), NewId(w.registry);
    SiteNew(Dry(env), d, name, key);
    SiteNew(env, w, name, key);
    PlainWrites(env);
    BranchGrows(env, w, name, key);
    MatchIgnoresMode(env, d.registry.branches, env.branchCodes[key], key);
    assert NewSite(env, d.registry, key);
    SiteMade(env, d.registry, d.branches, w, ids, name, key);
    MadeBranchAgrees(env, d, w, b.state, ids, ids[p := id], name, key);
    BranchIdsSplit(env, d.registry, d.branches[key := p], b.state, ids[p := id]);
    BranchParents(env, d.registry, d, w, b.state, ids, departmentIds, p, id);
  }

  lemma {:induction false} NewBranchSimulates(
    env: Env, d: State, w: State, name: string, key: string, ids: map<Id, Id>, departmentIds: map<Id, Id>)
    returns (more: map<Id, Id>)
    requires Plain(env) && Simulates(env, d, w, ids, departmentIds) && env.orgKey(name) == Some(key) &&
             key !in d.branches
    ensures var a, b := NewBranch(Dry(env), d, name, key), NewBranch(env, w, name, key);
            && Simulates(env, a.state, b.state, more, departmentIds) && SameAnswer(a.value, b.value, more)
            && a.state.registry == d.registry
  {
    hide BranchesAgree, NewBranch, MatchBranch, Plain, DepartmentsAgree, SectionsAgree, TitlesAgree, Tidy, Settled,
      NoneMeet, Sound, DryBranch, NewId, SameAnswer;
    if key !in env.branchCodes {
      more := ids;
      NoCodeSimulates(env, d, w, name, key, ids, departmentIds);
    } else {
      var code := env.branchCodes[key];
      assert Foldable(env, key);
      BranchMatchesAgree(env, d.registry, d.branches, w, ids, key);
      MatchIgnoresMode(env, d.registry.branches, code, key);
      var m := MatchBranch(env, d.registry.branches, code, key);
      if m.Some? {
        more := ids[m.value.id := m.value.id];
        MatchIsStored(env, d.registry, code, key);
        MatchedSimulates(env, d, w, name, key, ids, departmentIds, m.value);
      } else {
        more := ids[DryBranch(code) := NewId(w.registry)];
        MadeSimulates(env, d, w, name, key, ids, departmentIds);
      }
    }
  }

  lemma {:induction false} SameNotes(d: State, w: State, note: Note)
    requires d.problems == w.problems
    ensures Noted(d, note).problems == Noted(w, note).problems
    ensures Noted(d, note) == d.(problems := Noted(d, note).problems) &&
            Noted(w, note) == w.(problems := Noted(w, note).problems)
  {
    NotedShape(d, note);
    NotedShape(w, note);
  }

  lemma {:induction false} SameMatched(d: State, w: State, m: Match, code: string)
    requires d.problems == w.problems
    ensures Matched(d, m, code).problems == Matched(w, m, code).problems
    ensures Matched(d, m, code) == d.(problems := Matched(d, m, code).problems)
    ensures Matched(w, m, code) == w.(problems := Matched(w, m, code).problems)
  {
    hide Noted;
    MatchedShape(d, m, code);
    MatchedShape(w, m, code);
    if m.mismatch.Some? {
      SameNotes(d, w, BranchCodeMismatch(m.mismatch.value.name, m.mismatch.value.code, code));
    }
  }

  /** Only the registry's branches and the branch cache are looked at. */
  lemma {:induction false} BranchNoted(env: Env, d: State, w: State, v: State, ids: map<Id, Id>)
    requires BranchesAgree(env, d.registry, d.branches, w, ids)
    requires v.registry == w.registry && v.branches == w.branches
    ensures BranchesAgree(env, d.registry, d.branches, v, ids)
  {
    hide Paired, DryBranch, IsPlaceholder, MadeBranch;
  }

  lemma {:induction false} EachStays(
    env: Env, d: State, w: State, v: State, ids: map<Id, Id>, departmentIds: map<Id, Id>)
    requires DepartmentsAgree(env, d.registry, d.departments, w, ids, departmentIds)
    requires SectionsAgree(env, d.registry, d.sections, w, departmentIds)
    requires TitlesAgree(env, d.registry, d.jobTitles, w)
    requires v.registry == w.registry && v.departments == w.departments && v.sections == w.sections &&
             v.jobTitles == w.jobTitles
    ensures DepartmentsAgree(env, d.registry, d.departments, v, ids, departmentIds)
    ensures SectionsAgree(env, d.registry, d.sections, v, departmentIds) && TitlesAgree(env, d.registry, d.jobTitles, v)
  {
    hide Paired, DryDepartment, IsPlaceholder, MadeAreCached, CachesAgree, SameAnswers;
  }

  lemma {:induction false} HitBranch(
    env: Env, d: State, w: State, v: State, ids: map<Id, Id>, departmentIds: map<Id, Id>, key: string, h: Id)
    requires Plain(env) && Simulates(env, d, w, ids, departmentIds) && key !in d.branches
    requires Stored(h) && Issued(d.registry.nextId, h) && LeadsTo(env, d.registry, key, h)
    requires v.registry == w.registry && v.branches == w.branches[key := h]
    requires v.departments == w.departments && v.sections == w.sections && v.jobTitles == w.jobTitles
    ensures BranchesAgree(env, d.registry, d.branches[key := h], v, ids[h := h])
    ensures DepartmentsAgree(env, d.registry, d.departments, v, ids[h := h], departmentIds)
    ensures SectionsAgree(env, d.registry, d.sections, v, departmentIds) && TitlesAgree(env, d.registry, d.jobTitles, v)
  {
    hide BranchesAgree, DepartmentsAgree, SectionsAgree, TitlesAgree, Tidy, Settled, NoneMeet, Sound, Issued, Stored;
    SiteFound(env, d.registry, d.branches, w, ids, key, h);
    var u := w.(branches := w.branches[key := h]);
    SameBranches(env, d.registry, d.branches[key := h], u, v, ids[h := h]);
    StoredParent(env, d.registry, d.branches, w, ids, h);
    BranchIdsSplit(env, d.registry, d.branches[key := h], v, ids[h := h]);
    BranchParents(env, d.registry, d, w, v, ids, departmentIds, h, h);
  }

  lemma {:induction false} SameBranches(
    env: Env, base: Registry, dry: map<string, Id>, u: State, v: State, ids: map<Id, Id>)
    requires BranchesAgree(env, base, dry, u, ids) && v.registry == u.registry && v.branches == u.branches
    ensures BranchesAgree(env, base, dry, v, ids)
  {
    hide Paired, DryBranch, IsPlaceholder, MadeBranch;
  }

  lemma {:induction false} StoredParent(
    env: Env, base: Registry, dry: map<string, Id>, w: State, ids: map<Id, Id>, h: Id)
    requires BranchesAgree(env, base, dry, w, ids) && Stored(h) && Issued(base.nextId, h)
    ensures (h !in ids && h !in ids.Values) || (h in ids && ids[h] == h)
  {
    hide DryBranch, MadeBranch, Issued;
    if h in ids {
      assert Pair(base.nextId, h, ids[h]);
    } else {
      forall x | x in ids ensures ids[x] != h {
        assert Pair(base.nextId, x, ids[x]);
      }
    }
  }

  lemma {:induction false} MadeBranchAgrees(
    env: Env, d: State, w: State, v: State, ids: map<Id, Id>, more: map<Id, Id>, name: string, key: string)
    requires key in env.branchCodes && key !in d.branches
    requires var code := env.branchCodes[key];
             var id := NewId(w.registry);
             && v.registry == CreateBranch(w.registry, code, name) && v.branches == w.branches[key := id]
             && BranchesAgree(env, d.registry, d.branches[key := DryBranch(code)],
                              w.(registry := CreateBranch(w.registry, code, name), branches := w.branches[key := id]),
                                more)
    ensures BranchesAgree(env, d.registry, d.branches[key := DryBranch(env.branchCodes[key])], v, more)
  {
    hide BranchesAgree, DryBranch, NewId;
    var code, id := env.branchCodes[key], NewId(w.registry);
    var u := w.(registry := CreateBranch(w.registry, code, name), branches := w.branches[key := id]);
    SameBranches(env, d.registry, d.branches[key := DryBranch(code)], u, v, more);
  }

  lemma {:induction false} CachedBranch(
    env: Env, d: State, w: State, key: string, ids: map<Id, Id>)
    requires BranchesAgree(env, d.registry, d.branches, w, ids) && key in d.branches
    ensures key in w.branches && d.branches[key] in ids && ids[d.branches[key]] == w.branches[key]
  {
  }

  lemma {:induction false} SameSites(env: Env, d: State, w: State, ids: map<Id, Id>)
    requires BranchesAgree(env, d.registry, d.branches, w, ids)
    ensures d.branches.Keys == w.branches.Keys
  {
    hide Paired, DryBranch, MadeBranch;
  }

  lemma {:induction false} BranchSimulates(
    env: Env, d: State, w: State, name: Option<string>, ids: map<Id, Id>, departmentIds: map<Id, Id>)
    returns (more: map<Id, Id>)
    requires Plain(env) && Simulates(env, d, w, ids, departmentIds)
    ensures var a, b := Branch(Dry(env), d, name), Branch(env, w, name);
            && Simulates(env, a.state, b.state, more, departmentIds) && SameAnswer(a.value, b.value, more)
            && a.state.registry == d.registry
  {
    hide BranchesAgree, DepartmentsAgree, SectionsAgree, TitlesAgree, Tidy, Settled, NoneMeet, Sound, NewBranch;
    more := ids;
    if Key(env, name).Some? {
      var key := Key(env, name).value;
      SameSites(env, d, w, ids);
      if key in d.branches {
        CachedBranch(env, d, w, key, ids);
      } else {
        more := NewBranchSimulates(env, d, w, name.value, key, ids, departmentIds);
      }
    }
  }

  // ---------------------------------------------------------------- catalog entries do not matter

  /** The two states with other catalog caches, and other entries in the written registry. */
  ghost predicate OtherEntries(env: Env, d: State, c: State, w: State, v: State) {
    && c == d.(departmentCatalog := c.departmentCatalog, sectionCatalog := c.sectionCatalog, rowCatalog := c.rowCatalog)
    && v == w.(registry := w.registry.(departmentEntries := v.registry.departmentEntries,
                                       sectionEntries := v.registry.sectionEntries, nextId := v.registry.nextId),
               departmentCatalog := v.departmentCatalog, sectionCatalog := v.sectionCatalog,
               rowCatalog := v.rowCatalog, minted := v.minted)
    && w.registry.nextId <= v.registry.nextId && Sound(env, v)
  }

  lemma {:induction false} EntriesDoNotMatter(
    env: Env, d: State, c: State, w: State, v: State, ids: map<Id, Id>, departmentIds: map<Id, Id>)
    requires Simulates(env, d, w, ids, departmentIds) && OtherEntries(env, d, c, w, v)
    ensures Simulates(env, c, v, ids, departmentIds)
  {
    hide Tidy, Settled, NoneMeet, Sound, Paired, CachesAgree, SameAnswers, MadeAreCached, DryBranch, DryDepartment,
      IsPlaceholder, MadeBranch, MadeTitle;
    PairedLater(d.registry.nextId, w.registry.nextId, v.registry.nextId, ids);
    PairedLater(d.registry.nextId, w.registry.nextId, v.registry.nextId, departmentIds);
  }

  lemma {:induction false} DryEntryWritesNothing(env: Env, d: State, name: string, key: string)
    requires env.dryRun
    ensures var t := DepartmentEntry(env, d, name, key).state; t == d.(departmentCatalog := t.departmentCatalog)
  {
    hide Find, EntryNamed, DryEntry;
    if key in d.departmentCatalog {
    } else if Find(d.registry.departmentEntries, EntryNamed(env, key)).Some? {
    } else {
    }
  }

  lemma {:induction false} DrySubEntryWritesNothing(env: Env, d: State, departmentId: Id, name: string, key: string)
    requires env.dryRun
    ensures var t := DeclaredEntry(env, d, departmentId, name, key).state; t == d.(sectionCatalog := t.sectionCatalog)
  {
    hide Find, SubEntryAt, DrySubEntry, CacheKey;
    if departmentId in d.rowCatalog && d.rowCatalog[departmentId].Some? {
      var parentId := d.rowCatalog[departmentId].value;
      if CacheKey(parentId, key) in d.sectionCatalog {
      } else if Find(d.registry.sectionEntries, SubEntryAt(env, parentId, key)).Some? {
      } else {
      }
    } else {
    }
  }

  // ---------------------------------------------------------------- departments

  lemma {:induction false} DepartmentHit(
    env: Env, base: Registry, dry: map<string, Id>, w: State, ids: map<Id, Id>, departmentIds: map<Id, Id>, x: Id,
    key: string, h: Id)
    requires DepartmentsAgree(env, base, dry, w, ids, departmentIds) && Paired(base.nextId, w.registry.nextId, ids)
    requires x in ids && Foldable(env, key) && Stored(h) && Issued(base.nextId, h) && base.nextId <= w.registry.nextId
    ensures DepartmentsAgree(env, base, dry[CacheKey(x, key) := h],
                             w.(departments := w.departments[CacheKey(ids[x], key) := h]), ids, departmentIds[h := h])
  {
    hide Paired, CachesAgree, SameAnswers, MadeAreCached, DryDepartment, IsPlaceholder, CacheKey, Foldable, Stored,
      Issued;
    AddStored(base.nextId, w.registry.nextId, departmentIds, h);
    BothCache(env, ids, dry, w.departments, x, key, h, h, base.nextId, w.registry.nextId);
    AgreeKeys(env, ids, dry, w.departments);
    BothAnswer(env, ids, dry, w.departments, departmentIds, x, key, h, h, base.nextId, w.registry.nextId);
    MadeStayCached(base.departments, w.registry.departments, DepartmentPlace(env), w.departments,
      CacheKey(ids[x], key), h);
    StoredIsNoPlaceholder(h);
    forall y | y in departmentIds[h := h] && IsPlaceholder(y)
      ensures CountedSomewhere(env, base, ids.Keys, dry[CacheKey(x, key) := h], y)
    {
      CountedStill(env, base, ids.Keys, dry, ids.Keys, dry[CacheKey(x, key) := h], y);
    }
  }

  lemma {:induction false} AgreeKeys(env: Env, ids: map<Id, Id>, dry: map<string, Id>, wet: map<string, Id>)
    requires CachesAgree(env, ids, dry, wet)
    ensures SameKeys(env, ids, dry, wet) && Splits(env, ids.Keys) && Splits(env, ids.Values)
  {
  }

  function WithDepartment(r: Registry, row: DepartmentRow): Registry {
    r.(departments := r.departments + [row], nextId := r.nextId + 1)
  }

  lemma {:induction false} DepartmentNew(
    env: Env, base: Registry, dry: map<string, Id>, w: State, ids: map<Id, Id>, departmentIds: map<Id, Id>,
    x: Id, key: string, row: DepartmentRow)
    requires DepartmentsAgree(env, base, dry, w, ids, departmentIds) && Paired(base.nextId, w.registry.nextId, ids)
    requires x in ids && Foldable(env, key) && CacheKey(x, key) !in dry && base.nextId <= w.registry.nextId
    requires NoDepartment(env, base, x, key)
    requires row.branchId == ids[x] && env.orgKey(row.name) == Some(key)
    ensures var p, id := DryDepartment(CacheKey(x, key)), NewId(w.registry);
            && p !in departmentIds && id !in departmentIds.Values
            && DepartmentsAgree(env, base, dry[CacheKey(x, key) := p],
                                w.(registry := WithDepartment(w.registry, row),
                                   departments := w.departments[CacheKey(ids[x], key) := id]),
                                ids, departmentIds[p := id])
  {
    hide Paired, CachesAgree, SameAnswers, MadeAreCached, DryDepartment, IsPlaceholder, CacheKey, Foldable;
    var p, id := DryDepartment(CacheKey(x, key)), NewId(w.registry);
    PlaceholdersApart(CacheKey(x, key), "");
    if p in departmentIds {
      var y, k :| Counted(env, base, ids.Keys, dry, p, y, k);
      PlaceholdersApart(CacheKey(x, key), CacheKey(y, k));
    }
    AddMade(base.nextId, w.registry.nextId, departmentIds, p);
    BothCache(env, ids, dry, w.departments, x, key, p, id, base.nextId, w.registry.nextId);
    AgreeKeys(env, ids, dry, w.departments);
    BothAnswer(env, ids, dry, w.departments, departmentIds, x, key, p, id, base.nextId, w.registry.nextId);
    OneMoreMade(base.departments, w.registry.departments, DepartmentPlace(env), w.departments, row,
      CacheKey(ids[x], key), id);
    var dry' := dry[CacheKey(x, key) := p];
    assert Counted(env, base, ids.Keys, dry', p, x, key);
    forall y | y in departmentIds[p := id] && IsPlaceholder(y) ensures CountedSomewhere(env, base, ids.Keys, dry', y) {
      if y != p {
        CountedStill(env, base, ids.Keys, dry, ids.Keys, dry', y);
      }
    }
  }

  lemma {:induction false} StoredDepartment(n: nat, next: nat, departmentIds: map<Id, Id>, h: Id)
    requires Paired(n, next, departmentIds) && Stored(h) && Issued(n, h)
    ensures (h !in departmentIds && h !in departmentIds.Values) || (h in departmentIds && departmentIds[h] == h)
  {
    hide Issued;
    if h in departmentIds {
      assert Pair(n, h, departmentIds[h]);
    } else {
      forall x | x in departmentIds ensures departmentIds[x] != h {
        assert Pair(n, x, departmentIds[x]);
      }
    }
  }

  /** The other caches do not see a department being looked up, only the parents that now exist. */
  lemma {:induction false} DepartmentParents(
    env: Env, base: Registry, d: State, w: State, v: State, ids: map<Id, Id>, departmentIds: map<Id, Id>, x: Id, y: Id)
    requires BranchesAgree(env, base, d.branches, w, ids)
    requires SectionsAgree(env, base, d.sections, w, departmentIds) && TitlesAgree(env, base, d.jobTitles, w)
    requires v.branches == w.branches && v.sections == w.sections && v.jobTitles == w.jobTitles
    requires v.registry == w.registry.(departments := v.registry.departments, nextId := v.registry.nextId)
    requires w.registry.nextId <= v.registry.nextId
    requires (x !in departmentIds && y !in departmentIds.Values) || (x in departmentIds && departmentIds[x] == y)
    requires Splits(env, departmentIds[x := y].Keys) && Splits(env, departmentIds[x := y].Values)
    ensures BranchesAgree(env, base, d.branches, v, ids)
    ensures SectionsAgree(env, base, d.sections, v, departmentIds[x := y]) && TitlesAgree(env, base, d.jobTitles, v)
  {
    hide CachesAgree, MadeAreCached, Paired, IsPlaceholder, DryBranch, MadeBranch, MadeTitle;
    PairedLater(base.nextId, w.registry.nextId, v.registry.nextId, ids);
    if x !in departmentIds {
      NewParent(env, departmentIds, d.sections, w.sections, map[], x, y);
    } else {
      assert departmentIds[x := y] == departmentIds;
    }
  }

  lemma {:induction false} DepartmentsFound(
    env: Env, base: Registry, dry: map<string, Id>, w: State, ids: map<Id, Id>, departmentIds: map<Id, Id>, x: Id,
    key: string)
    requires DepartmentsAgree(env, base, dry, w, ids, departmentIds) && Paired(base.nextId, w.registry.nextId, ids)
    requires Tidy(env, base) && x in ids && Foldable(env, key) && CacheKey(x, key) !in dry
    ensures CacheKey(ids[x], key) !in w.departments
    ensures Find(base.departments, DepartmentAt(Dry(env), x, key)) ==
            Find(w.registry.departments, DepartmentAt(env, ids[x], key))
    ensures var hit := Find(base.departments, DepartmentAt(Dry(env), x, key));
            hit.Some? ==> Stored(hit.value.id) && Issued(base.nextId, hit.value.id)
  {
    hide SameAnswers, MadeAreCached, DryDepartment, IsPlaceholder, CacheKey, Foldable, Stored, Issued, Pair, Find,
      ParentsKnown, KeysUnder;
    assert Pair(base.nextId, x, ids[x]);
    var p, q := DepartmentAt(Dry(env), x, key), DepartmentAt(env, ids[x], key);
    assert forall row ::
      Matches(p, DepartmentPlace(env), x, key, row) && Matches(q, DepartmentPlace(env), ids[x], key, row);
    LookupsAgree(base.departments, w.registry.departments, DepartmentPlace(env), w.departments, p, q, x, ids[x], key,
      base.nextId);
    if Find(base.departments, p).Some? {
      FindSome(base.departments, p);
    }
  }

  /** Both runs look the catalog entry up first; the relation does not notice. */
  lemma {:induction false} EntryLookups(
    env: Env, d: State, w: State, name: string, key: string, ids: map<Id, Id>, departmentIds: map<Id, Id>)
    requires Plain(env) && Simulates(env, d, w, ids, departmentIds) && env.orgKey(name) == Some(key)
    ensures var c, v := DepartmentEntry(Dry(env), d, name, key).state, DepartmentEntry(env, w, name, key);
            && Simulates(env, c, v.state, ids, departmentIds)
            && c.registry == d.registry && c.departments == d.departments && v.state.departments == w.departments
            && env.orgKey(EntryName(v.state.registry, v.value)) == Some(key) && Stored(v.value)
  {
    hide BranchesAgree, DepartmentsAgree, SectionsAgree, TitlesAgree, Tidy, Settled, NoneMeet, EntriesSound,
      SubEntriesSound, LinksStored, RowsGrow, Extends, DepartmentEntry, EntryName, Stored, Plain;
    PlainWrites(env);
    var c, v := DepartmentEntry(Dry(env), d, name, key).state, DepartmentEntry(env, w, name, key);
    DryEntryWritesNothing(Dry(env), d, name, key);
    DepartmentEntryShape(env, w, name, key);
    EntryGrows(env, w, name, key);
    EntriesDoNotMatter(env, d, c, w, v.state, ids, departmentIds);
    EntryNameFolds(env, v.state.registry, v.state.departmentCatalog, key);
  }

  lemma {:induction false} DepartmentFoundIs(env: Env, s: State, branchId: Id, name: string, key: string)
    requires Find(DepartmentEntry(env, s, name, key).state.registry.departments, DepartmentAt(env, branchId, key)).Some?
    ensures var t := DepartmentEntry(env, s, name, key).state;
            var hit := Find(t.registry.departments, DepartmentAt(env, branchId, key)).value;
            NewDepartment(env, s, branchId, name, key)
            == Step(t.(departments := t.departments[CacheKey(branchId, key) := hit.id],
                       rowCatalog := t.rowCatalog[hit.id := hit.catalogId]), hit.id)
  {
    hide Find, DepartmentEntry, DepartmentAt, CacheKey;
  }

  lemma {:induction false} DepartmentMissingIs(env: Env, s: State, branchId: Id, name: string, key: string)
    requires Find(DepartmentEntry(env, s, name, key).state.registry.departments, DepartmentAt(env, branchId, key)).None?
    ensures var entry := DepartmentEntry(env, s, name, key);
            var cacheKey := CacheKey(branchId, key);
            NewDepartment(env, s, branchId, name, key) ==
            if env.dryRun then Step(CountDepartment(entry.state, cacheKey, DryDepartment(cacheKey), entry.value),
              DryDepartment(cacheKey))
            else Step(CountDepartment(CreateDepartment(entry.state, branchId, entry.value), cacheKey,
              NewId(entry.state.registry), entry.value),
                      NewId(entry.state.registry))
  {
    hide Find, DepartmentEntry, DepartmentAt, CacheKey, DryDepartment, CreateDepartment, CountDepartment, NewId;
  }

  lemma {:induction false} BranchIdsPaired(env: Env, base: Registry, dry: map<string, Id>, w: State, ids: map<Id, Id>)
    requires BranchesAgree(env, base, dry, w, ids)
    ensures Paired(base.nextId, w.registry.nextId, ids)
  {
    hide Paired, MadeBranch, DryBranch;
  }

  lemma {:induction false} DepartmentIdsPaired(
    env: Env, base: Registry, dry: map<string, Id>, w: State, ids: map<Id, Id>, departmentIds: map<Id, Id>)
    requires DepartmentsAgree(env, base, dry, w, ids, departmentIds)
    ensures Paired(base.nextId, w.registry.nextId, departmentIds)
  {
    hide Paired, CachesAgree, SameAnswers, MadeAreCached, DryDepartment;
  }

  /** Both runs find the department. */
  lemma {:induction false} HitDepartment(
    env: Env, d: State, w: State, c: State, v: State, ids: map<Id, Id>, departmentIds: map<Id, Id>, x: Id, key: string,
    h: Id)
    requires Plain(env) && Simulates(env, d, w, ids, departmentIds) && x in ids && Foldable(env, key)
    requires Stored(h) && Issued(d.registry.nextId, h)
    requires c == d.(departments := d.departments[CacheKey(x, key) := h], rowCatalog := c.rowCatalog)
    requires v == w.(departments := w.departments[CacheKey(ids[x], key) := h], rowCatalog := v.rowCatalog) &&
             Sound(env, v)
    ensures Simulates(env, c, v, ids, departmentIds[h := h])
  {
    hide BranchesAgree, DepartmentsAgree, SectionsAgree, TitlesAgree, Tidy, Settled, NoneMeet, Sound, CacheKey,
      Foldable, Stored, Issued, Paired;
    BranchIdsPaired(env, d.registry, d.branches, w, ids);
    DepartmentIdsPaired(env, d.registry, d.departments, w, ids, departmentIds);
    DepartmentHit(env, d.registry, d.departments, w, ids, departmentIds, x, key, h);
    SameDepartments(env, d.registry, c.departments, w.(departments := v.departments), v, ids, departmentIds[h := h]);
    StoredDepartment(d.registry.nextId, w.registry.nextId, departmentIds, h);
    DepartmentIdsSplit(env, d.registry, d.branches, c.departments, w, v, ids, departmentIds[h := h]);
    DepartmentParents(env, d.registry, d, w, v, ids, departmentIds, h, h);
  }

  lemma {:induction false} SameDepartments(
    env: Env, base: Registry, dry: map<string, Id>, u: State, v: State, ids: map<Id, Id>, departmentIds: map<Id, Id>)
    requires DepartmentsAgree(env, base, dry, u, ids, departmentIds) && v.registry == u.registry &&
             v.departments == u.departments
    ensures DepartmentsAgree(env, base, dry, v, ids, departmentIds)
  {
    hide Paired, CachesAgree, SameAnswers, MadeAreCached, DryDepartment;
  }

  /** Neither finds it: one counts it, the other makes it. */
  lemma {:induction false} MakeDepartment(
    env: Env, d: State, w: State, c: State, v: State, ids: map<Id, Id>, departmentIds: map<Id, Id>, x: Id, key: string,
    row: DepartmentRow)
    requires Plain(env) && Simulates(env, d, w, ids, departmentIds) && x in ids && Foldable(env, key)
    requires CacheKey(x, key) !in d.departments && NoDepartment(env, d.registry, x, key)
    requires row.branchId == ids[x] && env.orgKey(row.name) == Some(key)
    requires c == d.(departments := d.departments[CacheKey(x, key) := DryDepartment(CacheKey(x, key))],
                     rowCatalog := c.rowCatalog, created := c.created)
    requires v == w.(registry := WithDepartment(w.registry, row),
                     departments := w.departments[CacheKey(ids[x], key) := NewId(w.registry)],
                     rowCatalog := v.rowCatalog, created := v.created, minted := v.minted)
    requires c.created == v.created && Sound(env, v)
    ensures Simulates(env, c, v, ids, departmentIds[DryDepartment(CacheKey(x, key)) := NewId(w.registry)])
  {
    hide BranchesAgree, DepartmentsAgree, SectionsAgree, TitlesAgree, Tidy, Settled, NoneMeet, Sound, CacheKey,
      Foldable, Paired, DryDepartment, NewId;
    var p, id := DryDepartment(CacheKey(x, key)), NewId(w.registry);
    BranchIdsPaired(env, d.registry, d.branches, w, ids);
    DepartmentNew(env, d.registry, d.departments, w, ids, departmentIds, x, key, row);
    var u := w.(registry := v.registry, departments := v.departments);
    SameDepartments(env, d.registry, c.departments, u, v, ids, departmentIds[p := id]);
    DepartmentIdsSplit(env, d.registry, d.branches, c.departments, w, v, ids, departmentIds[p := id]);
    DepartmentParents(env, d.registry, d, w, v, ids, departmentIds, p, id);
  }

  lemma {:induction false} DepartmentIsMissing(env: Env, r: Registry, x: Id, key: string)
    requires Find(r.departments, DepartmentAt(Dry(env), x, key)).None?
    ensures NoDepartment(env, r, x, key)
  {
    FindNone(r.departments, DepartmentAt(Dry(env), x, key));
  }

  lemma {:induction false} NewDepartmentSimulates(
    env: Env, d: State, w: State, x: Id, name: string, key: string, ids: map<Id, Id>, departmentIds: map<Id, Id>)
    returns (more: map<Id, Id>)
    requires Plain(env) && Simulates(env, d, w, ids, departmentIds)
    requires env.orgKey(name) == Some(key) && Foldable(env, key)
    requires x in ids && CacheKey(x, key) !in d.departments
    ensures var a, b := NewDepartment(Dry(env), d, x, name, key), NewDepartment(env, w, ids[x], name, key);
            && Simulates(env, a.state, b.state, ids, more) && SameAnswer(Some(a.value), Some(b.value), more)
            && a.state.registry == d.registry
  {
    hide BranchesAgree, DepartmentsAgree, SectionsAgree, TitlesAgree, Tidy, Settled, NoneMeet, Sound, CacheKey,
      Foldable, Paired, DryDepartment, NewId, Plain, NewDepartment, DepartmentEntry, Find, DepartmentAt, EntryName,
      NextFreeCode, Stored, Issued, RowsGrow, Extends;
    PlainWrites(env);
    var y := ids[x];
    var a, b := NewDepartment(Dry(env), d, x, name, key), NewDepartment(env, w, y, name, key);
    var c, v := DepartmentEntry(Dry(env), d, name, key).state, DepartmentEntry(env, w, name, key);
    EntryLookups(env, d, w, name, key, ids, departmentIds);
    BranchIdsPaired(env, c.registry, c.branches, v.state, ids);
    DepartmentsFound(env, c.registry, c.departments, v.state, ids, departmentIds, x, key);
    DepartmentGrows(env, w, y, name, key);
    var hit := Find(c.registry.departments, DepartmentAt(Dry(env), x, key));
    if hit.Some? {
      more := departmentIds[hit.value.id := hit.value.id];
      DepartmentFoundIs(Dry(env), d, x, name, key);
      DepartmentFoundIs(env, w, y, name, key);
      HitDepartment(env, c, v.state, a.state, b.state, ids, departmentIds, x, key, hit.value.id);
    } else {
      var r := v.state.registry;
      more := departmentIds[DryDepartment(CacheKey(x, key)) := NewId(r)];
      DepartmentMissingIs(Dry(env), d, x, name, key);
      DepartmentMissingIs(env, w, y, name, key);
      var code := NextFreeCode("DEP", Mapped(r.departments, DepartmentCode) + v.state.minted);
      var row := DepartmentRow(NewId(r), code, y, EntryName(r, v.value), Some(v.value));
      DepartmentIsMissing(env, c.registry, x, key);
      MakeDepartment(env, c, v.state, a.state, b.state, ids, departmentIds, x, key, row);
    }
  }

  lemma {:induction false} CachedDepartment(
    env: Env, base: Registry, dry: map<string, Id>, w: State, x: Id, key: string, ids: map<Id, Id>,
    departmentIds: map<Id, Id>)
    requires DepartmentsAgree(env, base, dry, w, ids, departmentIds) && x in ids && Foldable(env, key)
    ensures CacheKey(x, key) in dry <==> CacheKey(ids[x], key) in w.departments
    ensures CacheKey(x, key) in dry ==>
      dry[CacheKey(x, key)] in departmentIds &&
        departmentIds[dry[CacheKey(x, key)]] == w.departments[CacheKey(ids[x], key)]
  {
    hide Paired, MadeAreCached, DryDepartment, CacheKey, Foldable, KeyUnder;
  }

  lemma {:induction false} KeyFolds(env: Env, name: Option<string>)
    requires Key(env, name).Some?
    ensures Foldable(env, Key(env, name).value) && env.orgKey(name.value) == Some(Key(env, name).value)
  {
  }

  lemma {:induction false} DepartmentSimulates(
    env: Env, d: State, w: State, x: Id, name: Option<string>, ids: map<Id, Id>, departmentIds: map<Id, Id>)
    returns (more: map<Id, Id>)
    requires Plain(env) && Simulates(env, d, w, ids, departmentIds) && x in ids
    ensures var a, b := Department(Dry(env), d, x, name), Department(env, w, ids[x], name);
            && Simulates(env, a.state, b.state, ids, more) && SameAnswer(a.value, b.value, more)
            && a.state.registry == d.registry
  {
    hide BranchesAgree, DepartmentsAgree, SectionsAgree, TitlesAgree, Tidy, Settled, NoneMeet, Sound, NewDepartment,
      CacheKey, Foldable, Plain;
    more := departmentIds;
    if Key(env, name).Some? {
      var key := Key(env, name).value;
      KeyFolds(env, name);
      CachedDepartment(env, d.registry, d.departments, w, x, key, ids, departmentIds);
      if CacheKey(x, key) !in d.departments {
        more := NewDepartmentSimulates(env, d, w, x, name.value, key, ids, departmentIds);
      }
    }
  }

  // ---------------------------------------------------------------- sections

  lemma {:induction false} SectionsFound(
    env: Env, base: Registry, dry: map<string, Id>, w: State, departmentIds: map<Id, Id>, x: Id, key: string)
    requires SectionsAgree(env, base, dry, w, departmentIds) && Paired(base.nextId, w.registry.nextId, departmentIds)
    requires Tidy(env, base) && x in departmentIds && Foldable(env, key) && CacheKey(x, key) !in dry
    ensures Find(base.sections, SectionAt(Dry(env), x, key)) ==
            Find(w.registry.sections, SectionAt(env, departmentIds[x], key))
  {
    hide MadeAreCached, CacheKey, Foldable, Stored, Issued, Pair, Find, ParentsKnown, KeysUnder;
    var y := departmentIds[x];
    assert Pair(base.nextId, x, y);
    var p, q := SectionAt(Dry(env), x, key), SectionAt(env, y, key);
    assert forall row :: Matches(p, SectionPlace(env), x, key, row) && Matches(q, SectionPlace(env), y, key, row);
    LookupsAgree(base.sections, w.registry.sections, SectionPlace(env), w.sections, p, q, x, y, key, base.nextId);
  }

  lemma {:induction false} SectionBothCached(
    env: Env, base: Registry, dry: map<string, Id>, w: State, v: State, departmentIds: map<Id, Id>,
    x: Id, key: string, a: Id, b: Id, rows: seq<SectionRow>)
    requires SectionsAgree(env, base, dry, w, departmentIds) && Paired(base.nextId, w.registry.nextId, departmentIds)
    requires x in departmentIds && Foldable(env, key)
    requires rows == [] || (|rows| == 1 && SectionPlace(env)(rows[0]) == (departmentIds[x], Some(key)))
    requires v.sections == w.sections[CacheKey(departmentIds[x], key) := b] &&
             v.registry.sections == w.registry.sections + rows
    ensures SectionsAgree(env, base, dry[CacheKey(x, key) := a], v, departmentIds)
  {
    hide MadeAreCached, CacheKey, Foldable, CachesAgree, Paired;
    var y := departmentIds[x];
    BothCache(env, departmentIds, dry, w.sections, x, key, a, b, base.nextId, w.registry.nextId);
    if rows == [] {
      assert w.registry.sections + rows == w.registry.sections;
      MadeStayCached(base.sections, w.registry.sections, SectionPlace(env), w.sections, CacheKey(y, key), b);
    } else {
      assert rows == [rows[0]];
      OneMoreMade(base.sections, w.registry.sections, SectionPlace(env), w.sections, rows[0], CacheKey(y, key), b);
    }
  }

  /** What does not concern sections stays related. */
  lemma {:induction false} SectionKeepsRest(
    env: Env, d: State, w: State, v: State, ids: map<Id, Id>, departmentIds: map<Id, Id>)
    requires BranchesAgree(env, d.registry, d.branches, w, ids) && TitlesAgree(env, d.registry, d.jobTitles, w)
    requires DepartmentsAgree(env, d.registry, d.departments, w, ids, departmentIds)
    requires v.branches == w.branches && v.departments == w.departments && v.jobTitles == w.jobTitles
    requires v.registry == w.registry.(sections := v.registry.sections, nextId := v.registry.nextId)
    requires w.registry.nextId <= v.registry.nextId
    ensures BranchesAgree(env, d.registry, d.branches, v, ids) && TitlesAgree(env, d.registry, d.jobTitles, v)
    ensures DepartmentsAgree(env, d.registry, d.departments, v, ids, departmentIds)
  {
    hide Paired, CachesAgree, SameAnswers, MadeAreCached, DryBranch, DryDepartment, IsPlaceholder, MadeBranch,
      MadeTitle;
    PairedLater(d.registry.nextId, w.registry.nextId, v.registry.nextId, ids);
    PairedLater(d.registry.nextId, w.registry.nextId, v.registry.nextId, departmentIds);
  }

  lemma {:induction false} HitSection(
    env: Env, d: State, w: State, c: State, v: State, ids: map<Id, Id>, departmentIds: map<Id, Id>, x: Id, key: string,
    h: Id)
    requires Simulates(env, d, w, ids, departmentIds) && x in departmentIds && Foldable(env, key)
    requires c == d.(sections := d.sections[CacheKey(x, key) := h])
    requires v == w.(sections := w.sections[CacheKey(departmentIds[x], key) := h]) && Sound(env, v)
    ensures Simulates(env, c, v, ids, departmentIds)
  {
    hide BranchesAgree, DepartmentsAgree, SectionsAgree, TitlesAgree, Tidy, Settled, NoneMeet, Sound, CacheKey,
      Foldable, Paired;
    DepartmentIdsPaired(env, d.registry, d.departments, w, ids, departmentIds);
    assert w.registry.sections + [] == w.registry.sections;
    SectionBothCached(env, d.registry, d.sections, w, v, departmentIds, x, key, h, h, []);
    SectionKeepsRest(env, d, w, v, ids, departmentIds);
  }

  lemma {:induction false} MakeSection(
    env: Env, d: State, w: State, c: State, v: State, ids: map<Id, Id>, departmentIds: map<Id, Id>,
    x: Id, key: string, a: Id, b: Id, row: SectionRow)
    requires Simulates(env, d, w, ids, departmentIds) && x in departmentIds && Foldable(env, key)
    requires row.departmentId == departmentIds[x] && env.orgKey(row.name) == Some(key)
    requires c == d.(sections := d.sections[CacheKey(x, key) := a], created := c.created)
    requires v == w.(registry := w.registry.(sections := w.registry.sections + [row], nextId := w.registry.nextId + 1),
                     sections := w.sections[CacheKey(departmentIds[x], key) := b], created := v.created,
                       minted := v.minted)
    requires c.created == v.created && Sound(env, v)
    ensures Simulates(env, c, v, ids, departmentIds)
  {
    hide BranchesAgree, DepartmentsAgree, SectionsAgree, TitlesAgree, Tidy, Settled, NoneMeet, Sound, CacheKey,
      Foldable, Paired;
    DepartmentIdsPaired(env, d.registry, d.departments, w, ids, departmentIds);
    SectionBothCached(env, d.registry, d.sections, w, v, departmentIds, x, key, a, b, [row]);
    SectionKeepsRest(env, d, w, v, ids, departmentIds);
  }

  lemma {:induction false} SectionFoundIs(env: Env, s: State, departmentId: Id, name: string, key: string)
    requires Find(s.registry.sections, SectionAt(env, departmentId, key)).Some?
    ensures var hit := Find(s.registry.sections, SectionAt(env, departmentId, key)).value;
            NewSection(env, s, departmentId, name, key)
            == Step(s.(sections := s.sections[CacheKey(departmentId, key) := hit.id]), hit.id)
  {
    hide Find, SectionAt, CacheKey, DeclaredEntry;
  }

  lemma {:induction false} SectionMissingIs(env: Env, s: State, departmentId: Id, name: string, key: string)
    requires Find(s.registry.sections, SectionAt(env, departmentId, key)).None?
    ensures var entry := DeclaredEntry(env, s, departmentId, name, key);
            var cacheKey := CacheKey(departmentId, key);
            NewSection(env, s, departmentId, name, key) ==
            if env.dryRun then Step(CountSection(entry.state, cacheKey, DrySection(cacheKey)), DrySection(cacheKey))
            else Step(CountSection(CreateSection(entry.state, s.registry.sections, departmentId, name, entry.value),
                                   cacheKey, NewId(entry.state.registry)),
                      NewId(entry.state.registry))
  {
    hide Find, SectionAt, CacheKey, DeclaredEntry, DrySection, CountSection, CreateSection, NewId;
  }

  lemma {:induction false} SubEntryLookups(
    env: Env, d: State, w: State, x: Id, y: Id, name: string, key: string, ids: map<Id, Id>, departmentIds: map<Id, Id>)
    requires Plain(env) && Simulates(env, d, w, ids, departmentIds) && env.orgKey(name) == Some(key)
    ensures var c, v := DeclaredEntry(Dry(env), d, x, name, key).state, DeclaredEntry(env, w, y, name, key);
            && Simulates(env, c, v.state, ids, departmentIds)
            && c.registry == d.registry && c.sections == d.sections && v.state.sections == w.sections
            && v.state.registry.sections == w.registry.sections
            && env.orgKey(if v.value.Some? then SubEntryName(v.state.registry, v.value.value) else name) == Some(key)
  {
    hide BranchesAgree, DepartmentsAgree, SectionsAgree, TitlesAgree, Tidy, Settled, NoneMeet, Sound, RowsGrow, Extends,
      DeclaredEntry, SubEntryName, Plain;
    PlainWrites(env);
    var c, v := DeclaredEntry(Dry(env), d, x, name, key).state, DeclaredEntry(env, w, y, name, key);
    DrySubEntryWritesNothing(Dry(env), d, x, name, key);
    DeclaredEntryShape(env, w, y, name, key);
    DeclaredGrows(env, w, y, name, key);
    EntriesDoNotMatter(env, d, c, w, v.state, ids, departmentIds);
  }

  lemma {:induction false} NewSectionSimulates(
    env: Env, d: State, w: State, x: Id, name: string, key: string, ids: map<Id, Id>, departmentIds: map<Id, Id>)
    requires Plain(env) && Simulates(env, d, w, ids, departmentIds)
    requires env.orgKey(name) == Some(key) && Foldable(env, key)
    requires x in departmentIds && CacheKey(x, key) !in d.sections
    ensures var a, b := NewSection(Dry(env), d, x, name, key), NewSection(env, w, departmentIds[x], name, key);
            Simulates(env, a.state, b.state, ids, departmentIds) && a.state.registry == d.registry
  {
    hide BranchesAgree, DepartmentsAgree, SectionsAgree, TitlesAgree, Tidy, Settled, NoneMeet, Sound, CacheKey,
      Foldable, Paired, DrySection, NewId, Plain, NewSection, DeclaredEntry, Find, SectionAt, SubEntryName,
      NextFreeCode, RowsGrow, Extends;
    PlainWrites(env);
    var y := departmentIds[x];
    var a, b := NewSection(Dry(env), d, x, name, key), NewSection(env, w, y, name, key);
    DepartmentIdsPaired(env, d.registry, d.departments, w, ids, departmentIds);
    SectionsFound(env, d.registry, d.sections, w, departmentIds, x, key);
    SectionGrows(env, w, y, name, key);
    var hit := Find(d.registry.sections, SectionAt(Dry(env), x, key));
    if hit.Some? {
      SectionFoundIs(Dry(env), d, x, name, key);
      SectionFoundIs(env, w, y, name, key);
      HitSection(env, d, w, a.state, b.state, ids, departmentIds, x, key, hit.value.id);
    } else {
      var c, v := DeclaredEntry(Dry(env), d, x, name, key).state, DeclaredEntry(env, w, y, name, key);
      SubEntryLookups(env, d, w, x, y, name, key, ids, departmentIds);
      SectionMissingIs(Dry(env), d, x, name, key);
      SectionMissingIs(env, w, y, name, key);
      var r := v.state.registry;
      var code := NextFreeCode("SEC", Mapped(w.registry.sections, SectionCode) + v.state.minted);
      var taken := if v.value.Some? then SubEntryName(r, v.value.value) else name;
      var row := SectionRow(NewId(r), code, y, taken, v.value);
      MakeSection(env, c, v.state, a.state, b.state, ids, departmentIds, x, key, DrySection(CacheKey(x, key)),
        NewId(r), row);
    }
  }

  lemma {:induction false} CachedSection(
    env: Env, base: Registry, dry: map<string, Id>, w: State, x: Id, key: string, departmentIds: map<Id, Id>)
    requires SectionsAgree(env, base, dry, w, departmentIds) && x in departmentIds && Foldable(env, key)
    ensures CacheKey(x, key) in dry <==> CacheKey(departmentIds[x], key) in w.sections
  {
    hide MadeAreCached, CacheKey, Foldable, KeyUnder;
  }

  lemma {:induction false} SectionSimulates(
    env: Env, d: State, w: State, x: Id, name: Option<string>, ids: map<Id, Id>, departmentIds: map<Id, Id>)
    requires Plain(env) && Simulates(env, d, w, ids, departmentIds) && x in departmentIds
    ensures var a, b := Section(Dry(env), d, x, name), Section(env, w, departmentIds[x], name);
            && Simulates(env, a.state, b.state, ids, departmentIds) && a.state.registry == d.registry
            && a.value.Some? == b.value.Some?
  {
    hide BranchesAgree, DepartmentsAgree, SectionsAgree, TitlesAgree, Tidy, Settled, NoneMeet, Sound, NewSection,
      CacheKey, Foldable, Plain;
    if Key(env, name).Some? {
      var key := Key(env, name).value;
      KeyFolds(env, name);
      CachedSection(env, d.registry, d.sections, w, x, key, departmentIds);
      if CacheKey(x, key) !in d.sections {
        NewSectionSimulates(env, d, w, x, name.value, key, ids, departmentIds);
      }
    }
  }

  // ---------------------------------------------------------------- job titles

  lemma {:induction false} TitlesFound(env: Env, base: Registry, dry: map<string, Id>, w: State, key: string)
    requires TitlesAgree(env, base, dry, w) && key !in dry
    ensures Find(base.titles, TitleNamed(Dry(env), key)) == Find(w.registry.titles, TitleNamed(env, key))
  {
    hide Find;
    var rows := w.registry.titles;
    var made := rows[|base.titles|..];
    assert rows == base.titles + made;
    forall i | 0 <= i < |made| ensures !TitleNamed(env, key)(made[i]) {
      assert made[i] == rows[|base.titles| + i];
      assert MadeTitle(env, made[i], w.jobTitles);
    }
    FindConcat(base.titles, made, TitleNamed(env, key));
    FindAlike(base.titles, TitleNamed(Dry(env), key), TitleNamed(env, key));
  }

  lemma {:induction false} TitleKeepsRest(
    env: Env, d: State, w: State, v: State, ids: map<Id, Id>, departmentIds: map<Id, Id>)
    requires BranchesAgree(env, d.registry, d.branches, w, ids)
    requires SectionsAgree(env, d.registry, d.sections, w, departmentIds)
    requires DepartmentsAgree(env, d.registry, d.departments, w, ids, departmentIds)
    requires v.branches == w.branches && v.departments == w.departments && v.sections == w.sections
    requires v.registry == w.registry.(titles := v.registry.titles, nextId := v.registry.nextId)
    requires w.registry.nextId <= v.registry.nextId
    ensures BranchesAgree(env, d.registry, d.branches, v, ids)
    ensures SectionsAgree(env, d.registry, d.sections, v, departmentIds)
    ensures DepartmentsAgree(env, d.registry, d.departments, v, ids, departmentIds)
  {
    hide Paired, CachesAgree, SameAnswers, MadeAreCached, DryBranch, DryDepartment, IsPlaceholder, MadeBranch;
    PairedLater(d.registry.nextId, w.registry.nextId, v.registry.nextId, ids);
    PairedLater(d.registry.nextId, w.registry.nextId, v.registry.nextId, departmentIds);
  }

  lemma {:induction false} TitleBothCached(
    env: Env, base: Registry, dry: map<string, Id>, w: State, v: State, key: string, a: Id, b: Id, rows: seq<TitleRow>)
    requires TitlesAgree(env, base, dry, w)
    requires forall i :: 0 <= i < |rows| ==> env.orgKey(rows[i].name) == Some(key)
    requires v.jobTitles == w.jobTitles[key := b] && v.registry.titles == w.registry.titles + rows
    ensures TitlesAgree(env, base, dry[key := a], v)
  {
    forall i | |base.titles| <= i < |v.registry.titles| ensures MadeTitle(env, v.registry.titles[i], v.jobTitles) {
      assert i < |w.registry.titles| ==> MadeTitle(env, w.registry.titles[i], w.jobTitles);
    }
  }

  lemma {:induction false} TitleFoundIs(env: Env, s: State, name: string, key: string)
    requires Find(s.registry.titles, TitleNamed(env, key)).Some?
    ensures var hit := Find(s.registry.titles, TitleNamed(env, key)).value;
            NewTitle(env, s, name, key) == Step(s.(jobTitles := s.jobTitles[key := hit.id]), hit.id)
  {
    hide Find, TitleNamed;
  }

  lemma {:induction false} TitleMissingIs(env: Env, s: State, name: string, key: string)
    requires Find(s.registry.titles, TitleNamed(env, key)).None?
    ensures NewTitle(env, s, name, key) ==
            if env.dryRun then Step(CountTitle(s, key, DryTitle(key)), DryTitle(key))
            else Step(CountTitle(CreateTitle(s, name), key, NewId(s.registry)), NewId(s.registry))
  {
    hide Find, TitleNamed, DryTitle, CountTitle, CreateTitle, NewId;
  }

  lemma {:induction false} BothTitle(
    env: Env, d: State, w: State, c: State, v: State, ids: map<Id, Id>, departmentIds: map<Id, Id>,
    key: string, a: Id, b: Id, rows: seq<TitleRow>)
    requires Simulates(env, d, w, ids, departmentIds)
    requires forall i :: 0 <= i < |rows| ==> env.orgKey(rows[i].name) == Some(key)
    requires c == d.(jobTitles := d.jobTitles[key := a], created := c.created)
    requires v == w.(registry := w.registry.(titles := w.registry.titles + rows, nextId := v.registry.nextId),
                     jobTitles := w.jobTitles[key := b], created := v.created, minted := v.minted)
    requires w.registry.nextId <= v.registry.nextId && c.created == v.created && Sound(env, v)
    ensures Simulates(env, c, v, ids, departmentIds)
  {
    hide BranchesAgree, DepartmentsAgree, SectionsAgree, TitlesAgree, Tidy, Settled, NoneMeet, Sound;
    TitleBothCached(env, d.registry, d.jobTitles, w, v, key, a, b, rows);
    TitleKeepsRest(env, d, w, v, ids, departmentIds);
  }

  /** Both runs find the title. */
  lemma {:induction false} HitTitle(
    env: Env, d: State, w: State, name: string, key: string, ids: map<Id, Id>, departmentIds: map<Id, Id>,
    hit: TitleRow)
    requires Simulates(env, d, w, ids, departmentIds)
    requires Find(d.registry.titles, TitleNamed(Dry(env), key)) == Some(hit) &&
             Find(w.registry.titles, TitleNamed(env, key)) == Some(hit)
    requires Sound(env, NewTitle(env, w, name, key).state)
    ensures var a, b := NewTitle(Dry(env), d, name, key), NewTitle(env, w, name, key);
            Simulates(env, a.state, b.state, ids, departmentIds) && a.state.registry == d.registry
  {
    hide BranchesAgree, DepartmentsAgree, SectionsAgree, TitlesAgree, Tidy, Settled, NoneMeet, Sound, Find, TitleNamed,
      NewTitle;
    var a, b := NewTitle(Dry(env), d, name, key), NewTitle(env, w, name, key);
    TitleFoundIs(Dry(env), d, name, key);
    TitleFoundIs(env, w, name, key);
    assert w.registry.titles + [] == w.registry.titles;
    BothTitle(env, d, w, a.state, b.state, ids, departmentIds, key, hit.id, hit.id, []);
  }

  /** Neither finds it: one counts it, the other makes it. */
  lemma {:induction false} MakeTitle(
    env: Env, d: State, w: State, name: string, key: string, ids: map<Id, Id>, departmentIds: map<Id, Id>)
    requires !env.dryRun && Simulates(env, d, w, ids, departmentIds) && env.orgKey(name) == Some(key)
    requires Find(d.registry.titles, TitleNamed(Dry(env), key)) == None &&
             Find(w.registry.titles, TitleNamed(env, key)) == None
    requires Sound(env, NewTitle(env, w, name, key).state)
    ensures var a, b := NewTitle(Dry(env), d, name, key), NewTitle(env, w, name, key);
            Simulates(env, a.state, b.state, ids, departmentIds) && a.state.registry == d.registry
  {
    hide BranchesAgree, DepartmentsAgree, SectionsAgree, TitlesAgree, Tidy, Settled, NoneMeet, Sound, Find, TitleNamed,
      NewTitle, NextFreeCode, DryTitle, NewId;
    var a, b := NewTitle(Dry(env), d, name, key), NewTitle(env, w, name, key);
    TitleMissingIs(Dry(env), d, name, key);
    TitleMissingIs(env, w, name, key);
    var code := NextFreeCode("JOB", Mapped(w.registry.titles, TitleCode) + w.minted);
    var row := TitleRow(NewId(w.registry), code, name);
    BothTitle(env, d, w, a.state, b.state, ids, departmentIds, key, DryTitle(key), NewId(w.registry), [row]);
  }

  lemma {:induction false} NewTitleSimulates(
    env: Env, d: State, w: State, name: string, key: string, ids: map<Id, Id>, departmentIds: map<Id, Id>)
    requires Plain(env) && Simulates(env, d, w, ids, departmentIds) && env.orgKey(name) == Some(key) &&
             key !in d.jobTitles
    ensures var a, b := NewTitle(Dry(env), d, name, key), NewTitle(env, w, name, key);
            Simulates(env, a.state, b.state, ids, departmentIds) && a.state.registry == d.registry
  {
    hide BranchesAgree, DepartmentsAgree, SectionsAgree, TitlesAgree, Tidy, Settled, NoneMeet, Sound, Plain, Find,
      TitleNamed, Grows, NewTitle;
    PlainWrites(env);
    TitlesFound(env, d.registry, d.jobTitles, w, key);
    TitleGrows(env, w, name, key);
    var hit := Find(d.registry.titles, TitleNamed(Dry(env), key));
    if hit.Some? {
      HitTitle(env, d, w, name, key, ids, departmentIds, hit.value);
    } else {
      MakeTitle(env, d, w, name, key, ids, departmentIds);
    }
  }

  lemma {:induction false} SameTitles(env: Env, base: Registry, dry: map<string, Id>, w: State)
    requires TitlesAgree(env, base, dry, w)
    ensures dry.Keys == w.jobTitles.Keys
  {
    hide MadeTitle;
  }

  lemma {:induction false} TitleSimulates(
    env: Env, d: State, w: State, name: Option<string>, ids: map<Id, Id>, departmentIds: map<Id, Id>)
    requires Plain(env) && Simulates(env, d, w, ids, departmentIds)
    ensures var a, b := JobTitle(Dry(env), d, name), JobTitle(env, w, name);
            && Simulates(env, a.state, b.state, ids, departmentIds) && a.state.registry == d.registry
            && a.value.Some? == b.value.Some?
  {
    hide BranchesAgree, DepartmentsAgree, SectionsAgree, TitlesAgree, Tidy, Settled, NoneMeet, Sound, NewTitle, Plain;
    if Key(env, name).Some? {
      var key := Key(env, name).value;
      SameTitles(env, d.registry, d.jobTitles, w);
      if key !in d.jobTitles {
        NewTitleSimulates(env, d, w, name.value, key, ids, departmentIds);
      }
    }
  }

  // ---------------------------------------------------------------- whole runs

  lemma {:induction false} ResolveSimulates(
    env: Env, d: State, w: State, row: PlacedRow, ids: map<Id, Id>, departmentIds: map<Id, Id>)
    returns (more: map<Id, Id>, moreDepartments: map<Id, Id>)
    requires Plain(env) && Simulates(env, d, w, ids, departmentIds)
    ensures var a, b := Resolve(Dry(env), d, row), Resolve(env, w, row);
            && Simulates(env, a.state, b.state, more, moreDepartments) && a.state.registry == d.registry
            && a.value.Some? == b.value.Some?
  {
    hide Simulates, Plain, Branch, Department, Section, JobTitle;
    moreDepartments := departmentIds;
    more := BranchSimulates(env, d, w, row.branchName, ids, departmentIds);
    var a, b := Branch(Dry(env), d, row.branchName), Branch(env, w, row.branchName);
    if a.value.Some? {
      var x := a.value.value;
      moreDepartments := DepartmentSimulates(env, a.state, b.state, x, row.departmentName, more, departmentIds);
      var a', b' := Department(Dry(env), a.state, x, row.departmentName),
        Department(env, b.state, more[x], row.departmentName);
      if a'.value.Some? {
        var y := a'.value.value;
        SectionSimulates(env, a'.state, b'.state, y, row.sectionName, more, moreDepartments);
        TitleSimulates(env, Section(Dry(env), a'.state, y, row.sectionName).state,
                       Section(env, b'.state, moreDepartments[y], row.sectionName).state, row.jobTitleName, more,
                         moreDepartments);
      }
    }
  }

  lemma {:induction false} RunSimulates(env: Env, r: Registry, rows: seq<PlacedRow>)
    returns (ids: map<Id, Id>, departmentIds: map<Id, Id>)
    requires Plain(env) && WellFormed(r) && Tidy(env, r) && Settled(env, r) && NoneMeet(env, r)
    ensures Simulates(env, After(Dry(env), Fresh(r), rows), After(env, Fresh(r), rows), ids, departmentIds)
    ensures After(Dry(env), Fresh(r), rows).registry == r
  {
    hide Simulates, Plain, Resolve, WellFormed, Tidy, Settled, NoneMeet;
    if rows == [] {
      ids, departmentIds := map[], map[];
      FreshSimulates(env, r);
    } else {
      var n := |rows| - 1;
      var i, j := RunSimulates(env, r, rows[..n]);
      ids, departmentIds :=
        ResolveSimulates(env, After(Dry(env), Fresh(r), rows[..n]), After(env, Fresh(r), rows[..n]), rows[n], i, j);
    }
  }

  lemma {:induction false} FreshSimulates(env: Env, r: Registry)
    requires WellFormed(r) && Tidy(env, r) && Settled(env, r) && NoneMeet(env, r)
    ensures Simulates(env, Fresh(r), Fresh(r), map[], map[])
  {
    hide WellFormed, Tidy, Sound, Settled;
    FreshIsSound(env, r);
  }

  /** A dry run writes nothing, yet ends with the counters and the notes a write run ends with. */
  lemma {:induction false} DryRunCountsAlike(env: Env, r: Registry, rows: seq<PlacedRow>)
    requires Plain(env) && WellFormed(r) && Tidy(env, r) && Settled(env, r) && NoneMeet(env, r)
    ensures var dry, wet := After(Dry(env), Fresh(r), rows), After(env, Fresh(r), rows);
            && dry.registry == r && dry.minted == []
            && dry.created == wet.created && dry.problems == wet.problems
  {
    hide Plain, After, WellFormed, BranchesAgree, DepartmentsAgree, SectionsAgree, TitlesAgree, Tidy, Settled, NoneMeet,
      Sound;
    var ids, departmentIds := RunSimulates(env, r, rows);
  }
}

/** Where the dry run and the write run part (apps/api/src/workforce-import/org.ts, lines 193-208 and 369-411). */
module OrgResolverLimits {
  import opened Options
  import opened Sequences
  import opened OrgResolverSpec
  import opened UnitCodes
  import opened YmdText
  import opened OrgResolverShapes
  import opened OrgResolverGrowth
  import opened OrgResolverPairs
  import opened OrgResolverDryRun

  function SiteOnly(name: string): PlacedRow {
    PlacedRow(Some(name), None, None, None)
  }

  /** A row with no department only looks its site up. */
  lemma {:induction false} SiteOnlyResolves(env: Env, s: State, name: string)
    ensures Resolve(env, s, SiteOnly(name)).state == Branch(env, s, Some(name)).state
  {
    hide NewBranch, Section, JobTitle;
  }

  lemma {:induction false} TwoRows(env: Env, s: State, a: PlacedRow, b: PlacedRow)
    ensures After(env, s, [a, b]) == Resolve(env, Resolve(env, s, a).state, b).state
  {
    hide Resolve;
    assert [a, b][..1] == [a];
    assert After(env, s, [a]) == Resolve(env, After(env, s, []), a).state;
  }

  /** Two sites whose code is one code that no branch carries yet. */
  ghost predicate SharedCode(env: Env, r: Registry, m: string, j: string, n: string, k: string) {
    && env.orgKey(m) == Some(j) && env.orgKey(n) == Some(k) && j != k
    && j in env.branchCodes && k in env.branchCodes && env.branchCodes[j] == env.branchCodes[k]
    && MatchBranch(env, r.branches, env.branchCodes[j], j).None?
    && MatchBranch(env, r.branches, env.branchCodes[k], k).None?
  }

  lemma {:induction false} DryCountsBoth(env: Env, r: Registry, m: string, j: string, n: string, k: string)
    requires env.dryRun && SharedCode(env, r, m, j, n, k)
    ensures After(env, Fresh(r), [SiteOnly(m), SiteOnly(n)]).created.branches == 2
  {
    hide MatchBranch, DryBranch, NewBranch, Resolve;
    var s := Fresh(r);
    TwoRows(env, s, SiteOnly(m), SiteOnly(n));
    SiteOnlyResolves(env, s, m);
    SiteNew(env, s, m, j);
    var t := Branch(env, s, Some(m)).state;
    SiteOnlyResolves(env, t, n);
    SiteNew(env, t, n, k);
  }

  lemma {:induction false} WriteMakesOne(env: Env, r: Registry, m: string, j: string, n: string, k: string)
    requires !env.dryRun && SharedCode(env, r, m, j, n, k)
    ensures After(env, Fresh(r), [SiteOnly(m), SiteOnly(n)]).created.branches == 1
  {
    hide NewId, NewBranch, Resolve, Find, Matched;
    var s := Fresh(r);
    var code := env.branchCodes[j];
    TwoRows(env, s, SiteOnly(m), SiteOnly(n));
    SiteOnlyResolves(env, s, m);
    SiteNew(env, s, m, j);
    var t := Branch(env, s, Some(m)).state;
    var rows := t.registry.branches;
    assert rows[|r.branches|].code == code;
    FindsOne(rows, BranchCoded(code), |r.branches|);
    SiteOnlyResolves(env, t, n);
    SiteMatched(env, t, n, k);
    SameMatched(t, t, MatchBranch(env, rows, code, k).value, code);
  }

  /** A dry run counts a branch for each of the two sites; the write run makes the one both will be matched to. */
  lemma {:induction false} SharedCodeCountsTwice(env: Env, r: Registry, m: string, j: string, n: string, k: string)
    requires !env.dryRun && SharedCode(env, r, m, j, n, k)
    ensures var rows := [SiteOnly(m), SiteOnly(n)];
            After(Dry(env), Fresh(r), rows).created.branches == 2 && After(env, Fresh(r), rows).created.branches == 1
  {
    hide MatchBranch, After;
    MatchIgnoresMode(env, r.branches, env.branchCodes[j], j);
    MatchIgnoresMode(env, r.branches, env.branchCodes[k], k);
    DryCountsBoth(Dry(env), r, m, j, n, k);
    WriteMakesOne(env, r, m, j, n, k);
  }

  /** A new site, and one of its code that a branch of another code is named like. */
  ghost predicate NamedSharesCode(env: Env, r: Registry, m: string, j: string, n: string, k: string) {
    && env.orgKey(m) == Some(j) && env.orgKey(n) == Some(k) && j != k
    && j in env.branchCodes && k in env.branchCodes && env.branchCodes[j] == env.branchCodes[k]
    && MatchBranch(env, r.branches, env.branchCodes[k], k).None?
    && MatchBranch(env, r.branches, env.branchCodes[j], j).Some?
  }

  /** No branch carries a new site's code, so such a match is by name, and is worth a note. */
  lemma {:induction false} MatchedByName(env: Env, r: Registry, m: string, j: string, n: string, k: string)
    requires NamedSharesCode(env, r, m, j, n, k)
    ensures Find(r.branches, BranchCoded(env.branchCodes[j])) == None
    ensures MatchBranch(env, r.branches, env.branchCodes[j], j).value.mismatch.Some?
  {
    hide Find;
  }

  lemma {:induction false} DryNotesIt(env: Env, r: Registry, m: string, j: string, n: string, k: string)
    requires env.dryRun && NamedSharesCode(env, r, m, j, n, k)
    ensures After(env, Fresh(r), [SiteOnly(n), SiteOnly(m)]).problems != []
  {
    hide MatchBranch, DryBranch, NewBranch, Resolve, Find;
    var s := Fresh(r);
    TwoRows(env, s, SiteOnly(n), SiteOnly(m));
    SiteOnlyResolves(env, s, n);
    SiteNew(env, s, n, k);
    var t := Branch(env, s, Some(n)).state;
    MatchedByName(env, r, m, j, n, k);
    SiteOnlyResolves(env, t, m);
    SiteMatched(env, t, m, j);
  }

  lemma {:induction false} WriteDoesNot(env: Env, r: Registry, m: string, j: string, n: string, k: string)
    requires !env.dryRun && NamedSharesCode(env, r, m, j, n, k)
    ensures After(env, Fresh(r), [SiteOnly(n), SiteOnly(m)]).problems == []
  {
    hide NewId, NewBranch, Resolve, Find;
    var s := Fresh(r);
    var code := env.branchCodes[k];
    TwoRows(env, s, SiteOnly(n), SiteOnly(m));
    SiteOnlyResolves(env, s, n);
    SiteNew(env, s, n, k);
    var t := Branch(env, s, Some(n)).state;
    var rows := t.registry.branches;
    assert rows[|r.branches|].code == code;
    FindsOne(rows, BranchCoded(code), |r.branches|);
    SiteOnlyResolves(env, t, m);
    SiteMatched(env, t, m, j);
  }

  /** The dry run notes that the branch found by name has another code; the write run has just made one of that code. */
  lemma {:induction false} NamedSiteIsNoted(env: Env, r: Registry, m: string, j: string, n: string, k: string)
    requires !env.dryRun && NamedSharesCode(env, r, m, j, n, k)
    ensures var rows := [SiteOnly(n), SiteOnly(m)];
            After(Dry(env), Fresh(r), rows).problems != [] && After(env, Fresh(r), rows).problems == []
  {
    hide MatchBranch, After;
    MatchIgnoresMode(env, r.branches, env.branchCodes[j], j);
    MatchIgnoresMode(env, r.branches, env.branchCodes[k], k);
    DryNotesIt(Dry(env), r, m, j, n, k);
    WriteDoesNot(env, r, m, j, n, k);
  }

  /** The two runs end with the same counters and the same notes. */
  ghost predicate Alike(env: Env, r: Registry, rows: seq<PlacedRow>) {
    var dry, wet := After(Dry(env), Fresh(r), rows), After(env, Fresh(r), rows);
    dry.created == wet.created && dry.problems == wet.problems
  }

  /** Where a new site shares its code, two rows are enough to tell the runs apart. */
  lemma {:induction false} UnsettledDiffers(env: Env, r: Registry) returns (rows: seq<PlacedRow>)
    requires !env.dryRun && !Settled(env, r)
    ensures !Alike(env, r, rows)
  {
    hide After, MatchBranch;
    var j, k :| NewSite(env, r, k) && SharesCode(env, j, k) && j != k;
    var m :| env.orgKey(m) == Some(j);
    var n :| env.orgKey(n) == Some(k);
    if MatchBranch(env, r.branches, env.branchCodes[j], j).None? {
      rows := [SiteOnly(m), SiteOnly(n)];
      SharedCodeCountsTwice(env, r, m, j, n, k);
    } else {
      rows := [SiteOnly(n), SiteOnly(m)];
      NamedSiteIsNoted(env, r, m, j, n, k);
    }
  }

  // ---------------------------------------------------------------- sections that read alike

  function Unit(site: string, department: string, section: string): PlacedRow {
    PlacedRow(Some(site), Some(department), Some(section), None)
  }

  /** A department no cache and no registry knows: counted or made, under an id of its own; no section is touched. */
  lemma {:induction false} DepartmentIsNew(env: Env, s: State, branchId: Id, name: string, key: string)
    requires env.orgKey(name) == Some(key) && CacheKey(branchId, key) !in s.departments
    requires NoDepartment(env, s.registry, branchId, key) && (env.dryRun || Sound(env, s))
    ensures var made := Department(env, s, branchId, Some(name));
            && made.value.Some? && made.state.departments == s.departments[CacheKey(branchId, key) := made.value.value]
            && made.state.branches == s.branches && made.state.sections == s.sections
            && made.state.registry.sections == s.registry.sections && made.state.created.sections == s.created.sections
            && (env.dryRun ==>
                  made.value.value == DryDepartment(CacheKey(branchId, key)) && made.state.registry == s.registry)
            && (!env.dryRun ==>
                  exists n: nat ::
                    s.registry.nextId <= n < made.state.registry.nextId && made.value.value == Decimal(n))
            && s.registry.departments <= made.state.registry.departments
            && forall i :: |s.registry.departments| <= i < |made.state.registry.departments| ==>
                 DepartmentPlace(env)(made.state.registry.departments[i]) == (branchId, Some(key))
  {
    hide Find, DepartmentEntry, CacheKey, DryDepartment, EntryName, NextFreeCode, Sound, Grows, Stored;
    var entry := DepartmentEntry(env, s, name, key);
    DepartmentEntryShape(env, s, name, key);
    FindNowhere(entry.state.registry.departments, DepartmentAt(env, branchId, key));
    DepartmentMissingIs(env, s, branchId, name, key);
    DepartmentShape(env, s, branchId, name, key);
    if env.dryRun {
      DryEntryWritesNothing(env, s, name, key);
    } else {
      EntryIdsGrow(env, s, name, key);
      NewEntryFolds(env, s, name, key);
      assert Department(env, s, branchId, Some(name)).value.value == Decimal(entry.state.registry.nextId);
    }
  }

  lemma {:induction false} EntryIdsGrow(env: Env, s: State, name: string, key: string)
    ensures s.registry.nextId <= DepartmentEntry(env, s, name, key).state.registry.nextId
  {
    hide Find, NextFreeCode;
  }

  /** The name a new department takes folds to the key it was looked up under. */
  lemma {:induction false} NewEntryFolds(env: Env, s: State, name: string, key: string)
    requires !env.dryRun && Sound(env, s) && env.orgKey(name) == Some(key)
    ensures var entry := DepartmentEntry(env, s, name, key);
            env.orgKey(EntryName(entry.state.registry, entry.value)) == Some(key)
  {
    hide DepartmentEntry, EntryName, Grows, EntriesSound, SubEntriesSound, LinksStored;
    var entry := DepartmentEntry(env, s, name, key);
    EntryGrows(env, s, name, key);
    EntryNameFolds(env, entry.state.registry, entry.state.departmentCatalog, key);
  }

  ghost predicate NoSection(r: Registry, departmentId: Id) {
    forall i :: 0 <= i < |r.sections| ==> r.sections[i].departmentId != departmentId
  }

  /** A section of a department that has none, under a key no cache holds, is counted. */
  lemma {:induction false} SectionIsNew(env: Env, s: State, departmentId: Id, name: string, key: string)
    requires env.orgKey(name) == Some(key) && CacheKey(departmentId, key) !in s.sections
    requires NoSection(s.registry, departmentId)
    ensures var made := Section(env, s, departmentId, Some(name));
            && made.value.Some? && made.state.sections == s.sections[CacheKey(departmentId, key) := made.value.value]
            && made.state.created.sections == s.created.sections + 1
            && made.state.branches == s.branches && made.state.departments == s.departments
            && made.state.registry.departments == s.registry.departments
            && s.registry.nextId <= made.state.registry.nextId
            && (env.dryRun ==> made.state.registry == s.registry)
            && s.registry.sections <= made.state.registry.sections
            && forall i :: |s.registry.sections| <= i < |made.state.registry.sections| ==>
                 made.state.registry.sections[i].departmentId == departmentId
  {
    hide Find, DeclaredEntry, CacheKey, DrySection, SubEntryName, NextFreeCode;
    FindNowhere(s.registry.sections, SectionAt(env, departmentId, key));
    SectionMissingIs(env, s, departmentId, name, key);
    SectionShape(env, s, departmentId, name, key);
    DeclaredEntryShape(env, s, departmentId, name, key);
    if env.dryRun {
      DrySubEntryWritesNothing(env, s, departmentId, name, key);
    } else {
      SubEntryIdsGrow(env, s, departmentId, name, key);
    }
  }

  lemma {:induction false} SubEntryIdsGrow(env: Env, s: State, departmentId: Id, name: string, key: string)
    ensures s.registry.nextId <= DeclaredEntry(env, s, departmentId, name, key).state.registry.nextId
  {
    hide Find, NextFreeCode, CacheKey;
  }

  /** The site's branch is found, counted or made; either way the departments in question are new to it. */
  lemma {:induction false} FirstSite(env: Env, r: Registry, name: string, site: string, x: Id, u: string)
    requires env.orgKey(name) == Some(site) && LeadsTo(env, r, site, x) && Tidy(env, r)
    requires NoDepartment(env, r, x, u)
    ensures var made := Branch(env, Fresh(r), Some(name));
            && made.value.Some? && made.state.branches == map[site := made.value.value]
            && made.state.departments == map[] && made.state.sections == map[] && made.state.created.sections == 0
            && made.state.registry.departments == r.departments && made.state.registry.sections == r.sections
            && r.nextId <= made.state.registry.nextId && (env.dryRun ==> made.state.registry == r)
            && NoDepartment(env, r, made.value.value, u)
  {
    hide MatchBranch, DryBranch, Stored, Matched;
    var m := MatchBranch(env, r.branches, env.branchCodes[site], site);
    if m.Some? {
      SiteMatched(env, Fresh(r), name, site);
      MatchedShape(Fresh(r), m.value, env.branchCodes[site]);
    } else {
      SiteNew(env, Fresh(r), name, site);
      if !env.dryRun {
        NewIdIsNew(r.nextId);
      }
    }
  }

  /** A row with no title only looks its units up. */
  lemma {:induction false} UnitResolves(env: Env, s: State, site: string, department: string, section: string)
    requires Branch(env, s, Some(site)).value.Some?
    requires var b := Branch(env, s, Some(site)); Department(env, b.state, b.value.value, Some(department)).value.Some?
    ensures var b := Branch(env, s, Some(site));
            var d := Department(env, b.state, b.value.value, Some(department));
            Resolve(env, s, Unit(site, department, section)).state ==
              Section(env, d.state, d.value.value, Some(section)).state
  {
    hide Branch, Department, Section;
  }

  /** A unit of each of the two sections that meet. */
  ghost predicate Named(env: Env, names: seq<string>, site: string, u: string, t: string, v: string, w: string) {
    && |names| == 5 && env.orgKey(names[0]) == Some(site) && env.orgKey(names[1]) == Some(u)
    && env.orgKey(names[2]) == Some(t) && env.orgKey(names[3]) == Some(v) && env.orgKey(names[4]) == Some(w)
  }

  function MeetingRows(names: seq<string>): seq<PlacedRow>
    requires |names| == 5
  {
    [Unit(names[0], names[1], names[2]), Unit(names[0], names[3], names[4])]
  }

  /** No section of the registry is under a placeholder or an id yet to be given. */
  lemma {:induction false} NoSectionUnder(env: Env, r: Registry, id: Id)
    requires Tidy(env, r) && (!Stored(id) || !Issued(r.nextId, id))
    ensures NoSection(r, id)
  {
    hide Stored, Issued;
    forall i | 0 <= i < |r.sections| ensures r.sections[i].departmentId != id {
      assert SectionPlace(env)(r.sections[i]).0 == r.sections[i].departmentId;
    }
  }

  /** What the first row leaves: one department `d` of branch `b`, and one section under it. */
  lemma {:induction false} FirstUnit(
    env: Env, r: Registry, site: string, x: Id, u: string, t: string, v: string, w: string, names: seq<string>)
    returns (b: Id, d: Id)
    requires WellFormed(r) && Tidy(env, r) && LeadsTo(env, r, site, x) && Named(env, names, site, u, t, v, w)
    requires u != v && NoDepartment(env, r, x, u) && NoDepartment(env, r, x, v)
    ensures var s := Resolve(env, Fresh(r), Unit(names[0], names[1], names[2])).state;
            && s.branches == map[site := b] && s.departments.Keys == {CacheKey(b, u)}
            && s.sections.Keys == {CacheKey(d, t)} && s.created.sections == 1
            && r.nextId <= s.registry.nextId && NoDepartment(env, s.registry, b, v)
            && r.sections <= s.registry.sections
            && (forall i :: |r.sections| <= i < |s.registry.sections| ==> s.registry.sections[i].departmentId == d)
            && (if env.dryRun then d == DryDepartment(CacheKey(b, u)) && s.registry == r
                else Sound(env, s) && exists n: nat :: r.nextId <= n < s.registry.nextId && d == Decimal(n))
  {
    hide Branch, Department, Section, CacheKey, DryDepartment, Sound, LeadsTo, WellFormed, Grows, Tidy, Stored, Issued;
    FirstSite(env, r, names[0], site, x, u);
    FirstSite(env, r, names[0], site, x, v);
    var first := Branch(env, Fresh(r), Some(names[0]));
    b := first.value.value;
    FreshIsSound(env, r);
    if !env.dryRun {
      BranchStep(env, Fresh(r), Some(names[0]));
    }
    DepartmentIsNew(env, first.state, b, names[1], u);
    var second := Department(env, first.state, b, Some(names[1]));
    d := second.value.value;
    if env.dryRun {
      PlaceholdersApart(CacheKey(b, u), "");
      StoredIsNotDry(d);
    } else {
      var n: nat :| first.state.registry.nextId <= n < second.state.registry.nextId && d == Decimal(n);
      NotYetIssued(r.nextId, n);
      DepartmentStep(env, first.state, b, Some(names[1]));
      SectionStep(env, second.state, d, Some(names[2]));
    }
    NoSectionUnder(env, r, d);
    SectionIsNew(env, second.state, d, names[2], t);
    UnitResolves(env, Fresh(r), names[0], names[1], names[2]);
  }

  lemma {:induction false} StoredIsNotDry(id: Id)
    requires IsPlaceholder(id)
    ensures !Stored(id)
  {
  }

  lemma {:induction false} NotYetIssued(from: nat, n: nat)
    requires from <= n
    ensures !Issued(from, Decimal(n))
  {
  }

  lemma {:induction false} SameParentKeys(b: Id, j: string, k: string)
    ensures CacheKey(b, j) == CacheKey(b, k) ==> j == k
  {
    if CacheKey(b, j) == CacheKey(b, k) {
      CacheKeyPrefix(b, j, k);
    }
  }

  /** The second row finds the branch, and asks for a section of a department of its own. */
  lemma {:induction false} SecondUnit(
    env: Env, s: State, site: string, b: Id, u: string, t: string, v: string, w: string, names: seq<string>)
    returns (e: Id)
    requires Named(env, names, site, u, t, v, w) && u != v && (env.dryRun || Sound(env, s))
    requires s.branches == map[site := b] && s.departments.Keys == {CacheKey(b, u)}
    requires NoDepartment(env, s.registry, b, v)
    ensures var made := Department(env, s, b, Some(names[3]));
            && made.value == Some(e) && made.state.sections == s.sections
            && made.state.created.sections == s.created.sections && made.state.registry.sections == s.registry.sections
            && Resolve(env, s, Unit(names[0], names[3], names[4])).state ==
                 Section(env, made.state, e, Some(names[4])).state
            && (if env.dryRun then e == DryDepartment(CacheKey(b, v))
                else exists n: nat :: s.registry.nextId <= n && e == Decimal(n))
  {
    hide Department, Section, CacheKey, DryDepartment, Sound;
    assert Branch(env, s, Some(names[0])) == Step(s, Some(b));
    SameParentKeys(b, v, u);
    DepartmentIsNew(env, s, b, names[3], v);
    e := Department(env, s, b, Some(names[3])).value.value;
    UnitResolves(env, s, names[0], names[3], names[4]);
  }

  /** Under the placeholders both sections have one cache key. */
  lemma {:induction false} PlaceholdersMeet(b: Id, u: string, t: string, v: string, w: string)
    requires CacheKey(u, t) == CacheKey(v, w)
    ensures CacheKey(DryDepartment(CacheKey(b, u)), t) == CacheKey(DryDepartment(CacheKey(b, v)), w)
  {
    var head := "dry-run:department:";
    assert CacheKey(DryDepartment(CacheKey(b, u)), t) == head + b + "|" + CacheKey(u, t);
    assert CacheKey(DryDepartment(CacheKey(b, v)), w) == head + b + "|" + CacheKey(v, w);
  }

  lemma {:induction false} DryCountsOneSection(
    env: Env, r: Registry, site: string, x: Id, u: string, t: string, v: string, w: string, names: seq<string>)
    requires env.dryRun && WellFormed(r) && Tidy(env, r) && LeadsTo(env, r, site, x)
    requires Named(env, names, site, u, t, v, w) && Meet(env, r, x, u, t, v, w)
    ensures After(env, Fresh(r), MeetingRows(names)).created.sections == 1
  {
    hide Resolve, CacheKey, DryDepartment, Department, LeadsTo, WellFormed, Tidy, NoDepartment, SiteBranch, Foldable;
    var rows := MeetingRows(names);
    TwoRows(env, Fresh(r), rows[0], rows[1]);
    var b, d := FirstUnit(env, r, site, x, u, t, v, w, names);
    var s := Resolve(env, Fresh(r), rows[0]).state;
    PlaceholdersMeet(b, u, t, v, w);
    var e := SecondUnit(env, s, site, b, u, t, v, w, names);
    assert CacheKey(e, w) in s.sections;
  }

  lemma {:induction false} WriteMakesTwoSections(
    env: Env, r: Registry, site: string, x: Id, u: string, t: string, v: string, w: string, names: seq<string>)
    requires !env.dryRun && WellFormed(r) && Tidy(env, r) && LeadsTo(env, r, site, x)
    requires Named(env, names, site, u, t, v, w) && Meet(env, r, x, u, t, v, w)
    ensures After(env, Fresh(r), MeetingRows(names)).created.sections == 2
  {
    hide Resolve, CacheKey, DryDepartment, Department, Section, Decimal, LeadsTo, WellFormed, Tidy, NoDepartment,
      SiteBranch, Foldable, Sound;
    var rows := MeetingRows(names);
    TwoRows(env, Fresh(r), rows[0], rows[1]);
    var b, d := FirstUnit(env, r, site, x, u, t, v, w, names);
    var s := Resolve(env, Fresh(r), rows[0]).state;
    var e := SecondUnit(env, s, site, b, u, t, v, w, names);
    var m: nat :| r.nextId <= m < s.registry.nextId && d == Decimal(m);
    var n: nat :| s.registry.nextId <= n && e == Decimal(n);
    DecimalsApart(m, n);
    KeysApart(m, n, t, w);
    NotYetIssued(r.nextId, n);
    NoSectionUnder(env, r, e);
    assert NoSection(s.registry, e);
    SectionIsNew(env, Department(env, s, b, Some(names[3])).state, e, names[4], w);
  }

  lemma {:induction false} DecimalsApart(m: nat, n: nat)
    requires m < n
    ensures Decimal(m) != Decimal(n)
  {
    NewIdIsNew(m);
    assert Issued(m + 1, Decimal(m));
  }

  lemma {:induction false} KeysApart(m: nat, n: nat, j: string, k: string)
    requires m < n
    ensures CacheKey(Decimal(n), k) != CacheKey(Decimal(m), j)
  {
    NewIdIsNew(m);
    NewIdIsNew(n);
    DecimalsApart(m, n);
    if CacheKey(Decimal(n), k) == CacheKey(Decimal(m), j) {
      CacheKeyReads(Decimal(n), k, Decimal(m), j);
    }
  }

  /** The fold, the codes and the registry decide where a site leads and what meets, not the mode. */
  lemma {:induction false} MeetIgnoresMode(
    env: Env, r: Registry, site: string, x: Id, u: string, t: string, v: string, w: string)
    requires LeadsTo(env, r, site, x) && Meet(env, r, x, u, t, v, w) && Tidy(env, r)
    ensures LeadsTo(Dry(env), r, site, x) && Meet(Dry(env), r, x, u, t, v, w) && Tidy(Dry(env), r)
  {
    hide MatchBranch, CacheKey, Stored, Issued, Foldable;
    forall k | Foldable(env, k) ensures Foldable(Dry(env), k) {
      FoldIgnoresMode(env, k);
    }
    MatchIgnoresMode(env, r.branches, env.branchCodes[site], site);
    assert LeadsTo(Dry(env), r, site, x);
  }

  lemma {:induction false} FoldIgnoresMode(env: Env, k: string)
    requires Foldable(env, k)
    ensures Foldable(Dry(env), k)
  {
    var name :| env.orgKey(name) == Some(k);
    assert Dry(env).orgKey(name) == Some(k);
  }

  /** Where two sections meet, the dry run counts one and the write run makes two. */
  lemma {:induction false} MeetingHidesSection(
    env: Env, r: Registry, site: string, x: Id, u: string, t: string, v: string, w: string, names: seq<string>)
    requires !env.dryRun && WellFormed(r) && Tidy(env, r) && LeadsTo(env, r, site, x)
    requires Named(env, names, site, u, t, v, w) && Meet(env, r, x, u, t, v, w)
    ensures After(Dry(env), Fresh(r), MeetingRows(names)).created.sections == 1
    ensures After(env, Fresh(r), MeetingRows(names)).created.sections == 2
  {
    hide After, LeadsTo, Meet, WellFormed, Tidy;
    MeetIgnoresMode(env, r, site, x, u, t, v, w);
    DryCountsOneSection(Dry(env), r, site, x, u, t, v, w, names);
    WriteMakesTwoSections(env, r, site, x, u, t, v, w, names);
  }

  lemma {:induction false} MeetingDiffers(env: Env, r: Registry) returns (rows: seq<PlacedRow>)
    requires !env.dryRun && WellFormed(r) && Tidy(env, r) && !NoneMeet(env, r)
    ensures !Alike(env, r, rows)
  {
    hide After, MatchBranch, NoDepartment, CacheKey, WellFormed, Tidy;
    var x, u, t, v, w :| Meet(env, r, x, u, t, v, w);
    var site :| LeadsTo(env, r, site, x);
    var names := [AName(env, site), AName(env, u), AName(env, t), AName(env, v), AName(env, w)];
    MeetingHidesSection(env, r, site, x, u, t, v, w, names);
    rows := MeetingRows(names);
  }

  ghost function AName(env: Env, k: string): (name: string)
    requires Foldable(env, k)
    ensures env.orgKey(name) == Some(k)
  {
    var name :| env.orgKey(name) == Some(k);
    name
  }

  // ---------------------------------------------------------------- when the dry run can be trusted

  /**
   * The dry run tells the truth about every list of rows exactly when no site that is new to the registry shares
   * its code with another site, and no two sections of two departments new to one site read alike.
   */
  lemma {:induction false} AlwaysAlikeIff(env: Env, r: Registry)
    requires Plain(env) && WellFormed(r) && Tidy(env, r)
    ensures (forall rows :: Alike(env, r, rows)) <==> Settled(env, r) && NoneMeet(env, r)
  {
    hide After, Plain, WellFormed, Tidy, Settled, NoneMeet;
    PlainWrites(env);
    if !Settled(env, r) {
      var rows := UnsettledDiffers(env, r);
    } else if !NoneMeet(env, r) {
      var rows := MeetingDiffers(env, r);
    } else {
      forall rows ensures Alike(env, r, rows) {
        DryRunCountsAlike(env, r, rows);
      }
    }
  }

  /** Folds without a separator never meet. */
  lemma {:induction false} BarFreeFoldsApart(env: Env, r: Registry)
    requires forall k :: Foldable(env, k) ==> BarFree(k)
    ensures NoneMeet(env, r)
  {
    hide Foldable, SiteBranch, NoDepartment, CacheKey;
    forall x, u, t, v, w ensures !Meet(env, r, x, u, t, v, w) {
      if Meet(env, r, x, u, t, v, w) {
        CacheKeyReads(u, t, v, w);
      }
    }
  }

  /**
   * A fold that changes nothing makes sections meet at every coded site: section t of department u|v, and section
   * v|t of department u.
   */
  lemma {:induction false} SeparatorHidesSection(env: Env, site: string, u: string, v: string, t: string)
    requires !env.dryRun && (forall name :: env.orgKey(name) == Some(name)) && site in env.branchCodes
    ensures var rows := [Unit(site, u + "|" + v, t), Unit(site, u, v + "|" + t)];
            && After(Dry(env), Fresh(NOTHING), rows).created.sections == 1
            && After(env, Fresh(NOTHING), rows).created.sections == 2
  {
    hide After, MatchBranch;
    var x := match MatchBranch(env, NOTHING.branches, env.branchCodes[site], site)
      case Some(m) => m.id
      case None => DryBranch(env.branchCodes[site]);
    assert forall k :: Foldable(env, k) by {
      forall k ensures Foldable(env, k) {
        assert env.orgKey(k) == Some(k);
      }
    }
    assert LeadsTo(env, NOTHING, site, x);
    assert |u + "|" + v| > |u|;
    assert CacheKey(u + "|" + v, t) == CacheKey(u, v + "|" + t);
    assert Meet(env, NOTHING, x, u + "|" + v, t, u, v + "|" + t);
    MeetingHidesSection(env, NOTHING, site, x, u + "|" + v, t, u, v + "|" + t,
      [site, u + "|" + v, t, u, v + "|" + t]);
  }

  const NOTHING: Registry := Registry([], [], [], [], [], [], 0)
}
