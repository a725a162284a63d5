/**
 * What a writing resolver adds to the registry: at most one unit per folded name and parent, under codes
 * nothing else carries (apps/api/src/workforce-import/org.ts, lines 181-452).
 */
module OrgResolverGrowth {
  import opened Options
  import opened Sequences
  import opened UnitCodes
  import opened YmdText
  import opened OrgResolverSpec
  import opened OrgResolverShapes

  // ---------------------------------------------------------------- lists that only gain new keys

  /** `b` is `a` with rows added, and no added row shares its key with another row. */
  ghost predicate Extends<T(!new), K(!new)>(a: seq<T>, b: seq<T>, key: T -> K) {
    a <= b && forall i, j :: 0 <= i < j < |b| && |a| <= j ==> key(b[i]) != key(b[j])
  }

  lemma {:induction false} ExtendsSame<T(!new), K(!new)>(a: seq<T>, key: T -> K)
    ensures Extends(a, a, key)
  {
  }

  lemma {:induction false} ExtendsSnoc<T(!new), K(!new)>(a: seq<T>, x: T, key: T -> K)
    requires forall i :: 0 <= i < |a| ==> key(a[i]) != key(x)
    ensures Extends(a, a + [x], key)
  {
  }

  lemma {:induction false} ExtendsTrans<T(!new), K(!new)>(a: seq<T>, b: seq<T>, c: seq<T>, key: T -> K)
    requires Extends(a, b, key) && Extends(b, c, key)
    ensures Extends(a, c, key)
  {
    forall i, j | 0 <= i < j < |c| && |a| <= j ensures key(c[i]) != key(c[j]) {
      if j < |b| {
        assert c[i] == b[i] && c[j] == b[j];
      }
    }
  }

  lemma {:induction false} FindSome<T(!new)>(items: seq<T>, p: T -> bool)
    requires Find(items, p).Some?
    ensures Find(items, p).value in items && p(Find(items, p).value)
  {
    if !p(items[0]) {
      FindSome(items[1..], p);
    }
  }

  lemma {:induction false} FindNone<T(!new)>(items: seq<T>, p: T -> bool)
    requires Find(items, p).None?
    ensures forall i :: 0 <= i < |items| ==> !p(items[i])
  {
    if items != [] {
      FindNone(items[1..], p);
      assert forall i :: 1 <= i < |items| ==> items[i] == items[1..][i - 1];
    }
  }

  lemma {:induction false} FindsOne<T(!new)>(items: seq<T>, p: T -> bool, k: nat)
    requires k < |items| && p(items[k])
    ensures Find(items, p).Some?
  {
    if !p(items[0]) {
      FindsOne(items[1..], p, k - 1);
    }
  }

  // ---------------------------------------------------------------- ids and cache keys

  /** An id the registry could hold: not a placeholder, and without the separator of cache keys. */
  predicate Stored(id: Id) {
    '|' !in id && !("dry-run:" <= id)
  }

  /** No id from `n` on is this one. */
  ghost predicate Issued(n: nat, id: Id) {
    forall m: nat :: m >= n ==> Decimal(m) != id
  }

  lemma {:induction false} DigitsStored(s: string)
    requires forall i :: 0 <= i < |s| ==> IsDigit(s[i])
    ensures Stored(s)
  {
    assert "dry-run:"[0] == 'd';
  }

  lemma {:induction false} NewIdIsNew(n: nat)
    ensures Stored(Decimal(n)) && Issued(n + 1, Decimal(n))
    ensures forall id :: Issued(n, id) ==> id != Decimal(n)
  {
    DecimalReads(n);
    DigitsStored(Decimal(n));
    forall m: nat | m >= n + 1 ensures Decimal(m) != Decimal(n) {
      DecimalReads(m);
    }
  }

  lemma {:induction false} IssuedLater(n: nat, m: nat, id: Id)
    requires Issued(n, id) && n <= m
    ensures Issued(m, id)
  {
  }

  /** Ids hold no separator, so a cache key names its parent and its folded name. */
  lemma {:induction false} CacheKeyReads(a: Id, j: string, b: Id, k: string)
    requires '|' !in a && '|' !in b && CacheKey(a, j) == CacheKey(b, k)
    ensures a == b && j == k
  {
    var s := CacheKey(a, j);
    assert s[|a|] == '|' && s[|b|] == '|';
    assert a == s[..|a|] && b == s[..|b|];
    assert j == s[|a| + 1..] && k == s[|b| + 1..];
  }

  lemma {:induction false} MintedAlone(prefix: string, codes: seq<string>, minted: seq<string>)
    ensures var code := NextFreeCode(prefix, codes + minted);
            (forall i :: 0 <= i < |codes| ==> codes[i] != code) && (forall i :: 0 <= i < |minted| ==> minted[i] != code)
  {
    hide NextFreeCode;
    NextFreeCodeIsFresh(prefix, codes + minted);
    var code := NextFreeCode(prefix, codes + minted);
    forall i | 0 <= i < |codes| ensures codes[i] != code {
      assert codes[i] in codes + minted;
    }
    forall i | 0 <= i < |minted| ensures minted[i] != code {
      assert minted[i] in codes + minted;
    }
  }

  // ---------------------------------------------------------------- what a run adds

  function BranchFold(env: Env): BranchRow -> Option<string> {
    (b: BranchRow) => env.orgKey(b.name)
  }

  function DepartmentPlace(env: Env): DepartmentRow -> (Id, Option<string>) {
    (d: DepartmentRow) => (d.branchId, env.orgKey(d.name))
  }

  function SectionPlace(env: Env): SectionRow -> (Id, Option<string>) {
    (x: SectionRow) => (x.departmentId, env.orgKey(x.name))
  }

  function TitleFold(env: Env): TitleRow -> Option<string> {
    (t: TitleRow) => env.orgKey(t.name)
  }

  function EntryFold(env: Env): EntryRow -> Option<string> {
    (e: EntryRow) => env.orgKey(e.name)
  }

  function SubEntryPlace(env: Env): SubEntryRow -> (Id, Option<string>) {
    (e: SubEntryRow) => (e.parentId, env.orgKey(e.name))
  }

  function Itself(code: string): string {
    code
  }

  /** Added units are alone in their place and under their code. */
  ghost predicate RowsGrow(env: Env, r: Registry, t: Registry) {
    && Extends(r.branches, t.branches, BranchFold(env)) && Extends(r.branches, t.branches, BranchCode)
    && Extends(r.departments, t.departments, DepartmentPlace(env))
    && Extends(r.departments, t.departments, DepartmentCode)
    && Extends(r.sections, t.sections, SectionPlace(env)) && Extends(r.sections, t.sections, SectionCode)
    && Extends(r.titles, t.titles, TitleFold(env)) && Extends(r.titles, t.titles, TitleCode)
    && Extends(r.departmentEntries, t.departmentEntries, EntryFold(env))
    && Extends(r.departmentEntries, t.departmentEntries, EntryCode)
    && Extends(r.sectionEntries, t.sectionEntries, SubEntryPlace(env))
    && Extends(r.sectionEntries, t.sectionEntries, SubEntryCode)
  }

  ghost predicate Grows(env: Env, s: State, t: State) {
    RowsGrow(env, s.registry, t.registry) && Extends(s.minted, t.minted, Itself) &&
      s.registry.nextId <= t.registry.nextId
  }

  lemma {:induction false} GrowsTrans(env: Env, s: State, t: State, u: State)
    requires Grows(env, s, t) && Grows(env, t, u)
    ensures Grows(env, s, u)
  {
    hide Extends;
    var a, b, c := s.registry, t.registry, u.registry;
    ExtendsTrans(a.branches, b.branches, c.branches, BranchFold(env));
    ExtendsTrans(a.branches, b.branches, c.branches, BranchCode);
    ExtendsTrans(a.departments, b.departments, c.departments, DepartmentPlace(env));
    ExtendsTrans(a.departments, b.departments, c.departments, DepartmentCode);
    ExtendsTrans(a.sections, b.sections, c.sections, SectionPlace(env));
    ExtendsTrans(a.sections, b.sections, c.sections, SectionCode);
    ExtendsTrans(a.titles, b.titles, c.titles, TitleFold(env));
    ExtendsTrans(a.titles, b.titles, c.titles, TitleCode);
    ExtendsTrans(a.departmentEntries, b.departmentEntries, c.departmentEntries, EntryFold(env));
    ExtendsTrans(a.departmentEntries, b.departmentEntries, c.departmentEntries, EntryCode);
    ExtendsTrans(a.sectionEntries, b.sectionEntries, c.sectionEntries, SubEntryPlace(env));
    ExtendsTrans(a.sectionEntries, b.sectionEntries, c.sectionEntries, SubEntryCode);
    ExtendsTrans(s.minted, t.minted, u.minted, Itself);
  }

  lemma {:induction false} GrowsSame(env: Env, s: State)
    ensures Grows(env, s, s)
  {
    hide Extends;
    var r := s.registry;
    ExtendsSame(r.branches, BranchFold(env));
    ExtendsSame(r.branches, BranchCode);
    ExtendsSame(r.departments, DepartmentPlace(env));
    ExtendsSame(r.departments, DepartmentCode);
    ExtendsSame(r.sections, SectionPlace(env));
    ExtendsSame(r.sections, SectionCode);
    ExtendsSame(r.titles, TitleFold(env));
    ExtendsSame(r.titles, TitleCode);
    ExtendsSame(r.departmentEntries, EntryFold(env));
    ExtendsSame(r.departmentEntries, EntryCode);
    ExtendsSame(r.sectionEntries, SubEntryPlace(env));
    ExtendsSame(r.sectionEntries, SubEntryCode);
    ExtendsSame(s.minted, Itself);
  }

  // ---------------------------------------------------------------- what the catalog caches mean

  ghost predicate HasEntry(env: Env, entries: seq<EntryRow>, id: Id, key: string) {
    exists i :: 0 <= i < |entries| && entries[i].id == id && env.orgKey(entries[i].name) == Some(key)
  }

  ghost predicate EntriesSound(env: Env, entries: seq<EntryRow>, cache: map<string, Id>, n: nat) {
    && (forall i :: 0 <= i < |entries| ==> Issued(n, entries[i].id) && Stored(entries[i].id))
    && (forall i, j :: 0 <= i < j < |entries| ==> entries[i].id != entries[j].id)
    && (forall k :: k in cache ==> HasEntry(env, entries, cache[k], k))
  }

  /** The entry stands where its cache key says. */
  ghost predicate HasSubEntry(env: Env, entries: seq<SubEntryRow>, id: Id, cacheKey: string) {
    exists i :: 0 <= i < |entries| && entries[i].id == id && SubEntryUnder(env, entries[i], cacheKey)
  }

  predicate SubEntryUnder(env: Env, e: SubEntryRow, cacheKey: string) {
    env.orgKey(e.name).Some? && cacheKey == CacheKey(e.parentId, env.orgKey(e.name).value)
  }

  ghost predicate SubEntriesSound(env: Env, entries: seq<SubEntryRow>, cache: map<string, Id>, n: nat) {
    && (forall i :: 0 <= i < |entries| ==> Issued(n, entries[i].id) && Stored(entries[i].parentId))
    && (forall i, j :: 0 <= i < j < |entries| ==> entries[i].id != entries[j].id)
    && (forall k :: k in cache ==> HasSubEntry(env, entries, cache[k], k))
  }

  ghost predicate LinksStored(departments: seq<DepartmentRow>, rowCatalog: map<Id, Option<Id>>) {
    && (forall i :: 0 <= i < |departments| ==> departments[i].catalogId.Some? ==>
      Stored(departments[i].catalogId.value))
    && (forall id :: id in rowCatalog && rowCatalog[id].Some? ==> Stored(rowCatalog[id].value))
  }

  ghost predicate Sound(env: Env, s: State) {
    && EntriesSound(env, s.registry.departmentEntries, s.departmentCatalog, s.registry.nextId)
    && SubEntriesSound(env, s.registry.sectionEntries, s.sectionCatalog, s.registry.nextId)
    && LinksStored(s.registry.departments, s.rowCatalog)
  }

  lemma {:induction false} EntriesLater(env: Env, entries: seq<EntryRow>, cache: map<string, Id>, n: nat, m: nat)
    requires EntriesSound(env, entries, cache, n) && n <= m
    ensures EntriesSound(env, entries, cache, m)
  {
    hide Stored, HasEntry;
    forall i | 0 <= i < |entries| ensures Issued(m, entries[i].id) {
      IssuedLater(n, m, entries[i].id);
    }
  }

  lemma {:induction false} SubEntriesLater(env: Env, entries: seq<SubEntryRow>, cache: map<string, Id>, n: nat, m: nat)
    requires SubEntriesSound(env, entries, cache, n) && n <= m
    ensures SubEntriesSound(env, entries, cache, m)
  {
    hide Stored, HasSubEntry;
    forall i | 0 <= i < |entries| ensures Issued(m, entries[i].id) {
      IssuedLater(n, m, entries[i].id);
    }
  }

  /** A cached entry's name folds to the key it is cached under. */
  lemma {:induction false} EntryNameFolds(env: Env, r: Registry, cache: map<string, Id>, key: string)
    requires EntriesSound(env, r.departmentEntries, cache, r.nextId) && key in cache
    ensures env.orgKey(EntryName(r, cache[key])) == Some(key) && Stored(cache[key])
  {
    hide Find, Stored, Issued;
    var entries, id := r.departmentEntries, cache[key];
    assert HasEntry(env, entries, id, key);
    var i :| 0 <= i < |entries| && entries[i].id == id && env.orgKey(entries[i].name) == Some(key);
    FindsOne(entries, EntryWithId(id), i);
    FindSome(entries, EntryWithId(id));
    var e := Find(entries, EntryWithId(id)).value;
    var j :| 0 <= j < |entries| && entries[j] == e;
    assert entries[j].id == entries[i].id;
  }

  lemma {:induction false} SubEntryNameFolds(env: Env, r: Registry, cache: map<string, Id>, parentId: Id, key: string)
    requires SubEntriesSound(env, r.sectionEntries, cache, r.nextId) && CacheKey(parentId, key) in cache
    requires Stored(parentId)
    ensures env.orgKey(SubEntryName(r, cache[CacheKey(parentId, key)])) == Some(key)
  {
    hide Find, Issued, CacheKey;
    var entries, id := r.sectionEntries, cache[CacheKey(parentId, key)];
    assert HasSubEntry(env, entries, id, CacheKey(parentId, key));
    var i :| 0 <= i < |entries| && entries[i].id == id && SubEntryUnder(env, entries[i], CacheKey(parentId, key));
    CacheKeyReads(parentId, key, entries[i].parentId, env.orgKey(entries[i].name).value);
    FindsOne(entries, SubEntryWithId(id), i);
    FindSome(entries, SubEntryWithId(id));
    var e := Find(entries, SubEntryWithId(id)).value;
    var j :| 0 <= j < |entries| && entries[j] == e;
    assert entries[j].id == entries[i].id;
  }

  // ---------------------------------------------------------------- each lookup, when it writes

  lemma {:induction false} BranchGrows(env: Env, s: State, name: string, key: string)
    requires !env.dryRun && Sound(env, s) && env.orgKey(name) == Some(key)
    ensures var t := NewBranch(env, s, name, key).state; Sound(env, t) && Grows(env, s, t)
  {
    hide Extends, EntriesSound, SubEntriesSound, LinksStored, NewBranch, Find;
    var t := NewBranch(env, s, name, key).state;
    BranchShape(env, s, name, key);
    GrowsSame(env, s);
    BranchRowsGrow(env, s, name, key);
    EntriesLater(env, s.registry.departmentEntries, s.departmentCatalog, s.registry.nextId, t.registry.nextId);
    SubEntriesLater(env, s.registry.sectionEntries, s.sectionCatalog, s.registry.nextId, t.registry.nextId);
  }

  lemma {:induction false} BranchRowsGrow(env: Env, s: State, name: string, key: string)
    requires !env.dryRun && env.orgKey(name) == Some(key)
    ensures var t := NewBranch(env, s, name, key).state.registry;
            && Extends(s.registry.branches, t.branches, BranchFold(env))
            && Extends(s.registry.branches, t.branches, BranchCode)
            && s.registry.nextId <= t.nextId
  {
    hide Extends, Find, NewId, Noted, Matched;
    var rows := s.registry.branches;
    ExtendsSame(rows, BranchFold(env));
    ExtendsSame(rows, BranchCode);
    if key !in env.branchCodes {
      NotedShape(s, SiteHasNoCode(name));
    } else {
      var code := env.branchCodes[key];
      if MatchBranch(env, rows, code, key).Some? {
        MatchedShape(s, MatchBranch(env, rows, code, key).value, code);
      } else {
        FindNone(rows, BranchCoded(code));
        FindNone(rows, BranchNamed(env, key));
        var row := BranchRow(NewId(s.registry), code, name);
        ExtendsSnoc(rows, row, BranchFold(env));
        ExtendsSnoc(rows, row, BranchCode);
      }
    }
  }

  /** A catalog entry for the name, found or made. */
  lemma {:induction false} EntryGrows(env: Env, s: State, name: string, key: string)
    requires !env.dryRun && Sound(env, s) && env.orgKey(name) == Some(key)
    ensures var r := DepartmentEntry(env, s, name, key);
            && Sound(env, r.state) && Grows(env, s, r.state)
            && key in r.state.departmentCatalog && r.value == r.state.departmentCatalog[key]
  {
    hide Extends, EntriesSound, SubEntriesSound, LinksStored, DepartmentEntry;
    var t := DepartmentEntry(env, s, name, key).state;
    DepartmentEntryShape(env, s, name, key);
    GrowsSame(env, s);
    EntryRowsGrow(env, s, name, key);
    SubEntriesLater(env, s.registry.sectionEntries, s.sectionCatalog, s.registry.nextId, t.registry.nextId);
  }

  lemma {:induction false} EntryRowsGrow(env: Env, s: State, name: string, key: string)
    requires !env.dryRun && env.orgKey(name) == Some(key)
    requires EntriesSound(env, s.registry.departmentEntries, s.departmentCatalog, s.registry.nextId)
    ensures var r := DepartmentEntry(env, s, name, key);
            var t := r.state;
            && Extends(s.registry.departmentEntries, t.registry.departmentEntries, EntryFold(env))
            && Extends(s.registry.departmentEntries, t.registry.departmentEntries, EntryCode)
            && Extends(s.minted, t.minted, Itself) && s.registry.nextId <= t.registry.nextId
            && EntriesSound(env, t.registry.departmentEntries, t.departmentCatalog, t.registry.nextId)
            && key in t.departmentCatalog && r.value == t.departmentCatalog[key]
  {
    hide Extends, EntriesSound, NextFreeCode, Find;
    var rows, n := s.registry.departmentEntries, s.registry.nextId;
    ExtendsSame(rows, EntryFold(env));
    ExtendsSame(rows, EntryCode);
    ExtendsSame(s.minted, Itself);
    if key in s.departmentCatalog {
    } else if Find(rows, EntryNamed(env, key)).Some? {
      EntryFound(env, rows, s.departmentCatalog, n, key);
    } else {
      var code := NextFreeCode("DEP", Mapped(rows, EntryCode) + s.minted);
      var row := EntryRow(NewId(s.registry), code, name);
      FindNone(rows, EntryNamed(env, key));
      ExtendsSnoc(rows, row, EntryFold(env));
      MintedAlone("DEP", Mapped(rows, EntryCode), s.minted);
      assert forall i :: 0 <= i < |rows| ==> EntryCode(rows[i]) == Mapped(rows, EntryCode)[i];
      ExtendsSnoc(rows, row, EntryCode);
      ExtendsSnoc(s.minted, code, Itself);
      EntryMade(env, rows, s.departmentCatalog, n, row, key);
    }
  }

  lemma {:induction false} EntryFound(env: Env, rows: seq<EntryRow>, cache: map<string, Id>, n: nat, key: string)
    requires EntriesSound(env, rows, cache, n) && Find(rows, EntryNamed(env, key)).Some?
    ensures EntriesSound(env, rows, cache[key := Find(rows, EntryNamed(env, key)).value.id], n)
  {
    hide Find, Issued, Stored;
    FindSome(rows, EntryNamed(env, key));
    var hit := Find(rows, EntryNamed(env, key)).value;
    var i :| 0 <= i < |rows| && rows[i] == hit;
    assert HasEntry(env, rows, hit.id, key);
  }

  lemma {:induction false} EntryMade(
    env: Env, rows: seq<EntryRow>, cache: map<string, Id>, n: nat, row: EntryRow, key: string)
    requires EntriesSound(env, rows, cache, n) && row.id == Decimal(n) && env.orgKey(row.name) == Some(key)
    ensures EntriesSound(env, rows + [row], cache[key := row.id], n + 1)
  {
    hide Issued, Stored;
    NewIdIsNew(n);
    var more := rows + [row];
    forall i | 0 <= i < |rows| ensures Issued(n + 1, rows[i].id) {
      IssuedLater(n, n + 1, rows[i].id);
    }
    forall k | k in cache ensures HasEntry(env, more, cache[k], k) {
      assert HasEntry(env, rows, cache[k], k);
      var i :| 0 <= i < |rows| && rows[i].id == cache[k] && env.orgKey(rows[i].name) == Some(k);
      assert more[i] == rows[i];
    }
    assert more[|rows|] == row;
    assert HasEntry(env, more, row.id, key);
  }

  lemma {:induction false} DepartmentGrows(env: Env, s: State, branchId: Id, name: string, key: string)
    requires !env.dryRun && Sound(env, s) && env.orgKey(name) == Some(key)
    ensures var t := NewDepartment(env, s, branchId, name, key).state; Sound(env, t) && Grows(env, s, t)
  {
    hide Extends, EntriesSound, SubEntriesSound, LinksStored, DepartmentEntry, Find, NextFreeCode, RowsGrow, EntryName;
    var entry := DepartmentEntry(env, s, name, key);
    var t := entry.state;
    EntryGrows(env, s, name, key);
    EntryNameFolds(env, t.registry, t.departmentCatalog, key);
    var rows := t.registry.departments;
    if Find(rows, DepartmentAt(env, branchId, key)).Some? {
      DepartmentFound(env, rows, t.rowCatalog, branchId, key);
      GrowsSame(env, t);
    } else {
      var made := CreateDepartment(t, branchId, entry.value);
      var n := t.registry.nextId;
      DepartmentMade(env, t, branchId, key, entry.value);
      EntriesLater(env, t.registry.departmentEntries, t.departmentCatalog, n, n + 1);
      SubEntriesLater(env, t.registry.sectionEntries, t.sectionCatalog, n, n + 1);
      GrowsTrans(env, s, t, made);
    }
  }

  lemma {:induction false} DepartmentFound(
    env: Env, rows: seq<DepartmentRow>, rowCatalog: map<Id, Option<Id>>, branchId: Id, key: string)
    requires LinksStored(rows, rowCatalog) && Find(rows, DepartmentAt(env, branchId, key)).Some?
    ensures var hit := Find(rows, DepartmentAt(env, branchId, key)).value;
            LinksStored(rows, rowCatalog[hit.id := hit.catalogId])
  {
    hide Find, Stored;
    FindSome(rows, DepartmentAt(env, branchId, key));
  }

  lemma {:induction false} DepartmentMade(env: Env, t: State, branchId: Id, key: string, catalogId: Id)
    requires env.orgKey(EntryName(t.registry, catalogId)) == Some(key) && Stored(catalogId)
    requires LinksStored(t.registry.departments, t.rowCatalog)
    requires Find(t.registry.departments, DepartmentAt(env, branchId, key)).None?
    ensures Grows(env, t, CreateDepartment(t, branchId, catalogId))
    ensures LinksStored(CreateDepartment(t, branchId, catalogId).registry.departments,
                        t.rowCatalog[NewId(t.registry) := Some(catalogId)])
  {
    hide Extends, NextFreeCode, EntryName, Stored, NewId;
    var rows := t.registry.departments;
    var code := NextFreeCode("DEP", Mapped(rows, DepartmentCode) + t.minted);
    var row := DepartmentRow(NewId(t.registry), code, branchId, EntryName(t.registry, catalogId), Some(catalogId));
    GrowsSame(env, t);
    FindNone(rows, DepartmentAt(env, branchId, key));
    ExtendsSnoc(rows, row, DepartmentPlace(env));
    MintedAlone("DEP", Mapped(rows, DepartmentCode), t.minted);
    assert forall i :: 0 <= i < |rows| ==> DepartmentCode(rows[i]) == Mapped(rows, DepartmentCode)[i];
    ExtendsSnoc(rows, row, DepartmentCode);
    ExtendsSnoc(t.minted, code, Itself);
  }

  lemma {:induction false} SubEntryGrows(env: Env, s: State, parentId: Id, name: string, key: string)
    requires !env.dryRun && Sound(env, s) && env.orgKey(name) == Some(key) && Stored(parentId)
    ensures var r := SectionEntry(env, s, parentId, name, key);
            && Sound(env, r.state) && Grows(env, s, r.state)
            && CacheKey(parentId, key) in r.state.sectionCatalog
            && r.value == r.state.sectionCatalog[CacheKey(parentId, key)]
  {
    hide Extends, EntriesSound, SubEntriesSound, LinksStored, SectionEntry, CacheKey, Stored;
    var t := SectionEntry(env, s, parentId, name, key).state;
    SectionEntryShape(env, s, parentId, name, key);
    GrowsSame(env, s);
    SubEntryRowsGrow(env, s, parentId, name, key);
    EntriesLater(env, s.registry.departmentEntries, s.departmentCatalog, s.registry.nextId, t.registry.nextId);
  }

  lemma {:induction false} SubEntryRowsGrow(env: Env, s: State, parentId: Id, name: string, key: string)
    requires !env.dryRun && env.orgKey(name) == Some(key) && Stored(parentId)
    requires SubEntriesSound(env, s.registry.sectionEntries, s.sectionCatalog, s.registry.nextId)
    ensures var r := SectionEntry(env, s, parentId, name, key);
            var t := r.state;
            && Extends(s.registry.sectionEntries, t.registry.sectionEntries, SubEntryPlace(env))
            && Extends(s.registry.sectionEntries, t.registry.sectionEntries, SubEntryCode)
            && Extends(s.minted, t.minted, Itself) && s.registry.nextId <= t.registry.nextId
            && SubEntriesSound(env, t.registry.sectionEntries, t.sectionCatalog, t.registry.nextId)
            && CacheKey(parentId, key) in t.sectionCatalog && r.value == t.sectionCatalog[CacheKey(parentId, key)]
  {
    hide Extends, SubEntriesSound, NextFreeCode, Find, CacheKey, Stored;
    var rows, n := s.registry.sectionEntries, s.registry.nextId;
    ExtendsSame(rows, SubEntryPlace(env));
    ExtendsSame(rows, SubEntryCode);
    ExtendsSame(s.minted, Itself);
    if CacheKey(parentId, key) in s.sectionCatalog {
    } else if Find(rows, SubEntryAt(env, parentId, key)).Some? {
      SubEntryFound(env, rows, s.sectionCatalog, n, parentId, key);
    } else {
      var code := NextFreeCode("SEC", Mapped(rows, SubEntryCode) + s.minted);
      var row := SubEntryRow(NewId(s.registry), code, parentId, name);
      FindNone(rows, SubEntryAt(env, parentId, key));
      ExtendsSnoc(rows, row, SubEntryPlace(env));
      MintedAlone("SEC", Mapped(rows, SubEntryCode), s.minted);
      assert forall i :: 0 <= i < |rows| ==> SubEntryCode(rows[i]) == Mapped(rows, SubEntryCode)[i];
      ExtendsSnoc(rows, row, SubEntryCode);
      ExtendsSnoc(s.minted, code, Itself);
      SubEntryMade(env, rows, s.sectionCatalog, n, row, key);
    }
  }

  lemma {:induction false} SubEntryFound(
    env: Env, rows: seq<SubEntryRow>, cache: map<string, Id>, n: nat, parentId: Id, key: string)
    requires SubEntriesSound(env, rows, cache, n) && Find(rows, SubEntryAt(env, parentId, key)).Some?
    ensures SubEntriesSound(env, rows,
            cache[CacheKey(parentId, key) := Find(rows, SubEntryAt(env, parentId, key)).value.id], n)
  {
    hide Find, Issued, Stored, CacheKey;
    FindSome(rows, SubEntryAt(env, parentId, key));
    var hit := Find(rows, SubEntryAt(env, parentId, key)).value;
    var i :| 0 <= i < |rows| && rows[i] == hit;
    assert SubEntryUnder(env, rows[i], CacheKey(parentId, key));
    assert HasSubEntry(env, rows, hit.id, CacheKey(parentId, key));
  }

  lemma {:induction false} SubEntryMade(
    env: Env, rows: seq<SubEntryRow>, cache: map<string, Id>, n: nat, row: SubEntryRow, key: string)
    requires SubEntriesSound(env, rows, cache, n) && row.id == Decimal(n)
    requires env.orgKey(row.name) == Some(key) && Stored(row.parentId)
    ensures SubEntriesSound(env, rows + [row], cache[CacheKey(row.parentId, key) := row.id], n + 1)
  {
    hide Issued, Stored, CacheKey;
    NewIdIsNew(n);
    var more := rows + [row];
    forall i | 0 <= i < |rows| ensures Issued(n + 1, rows[i].id) {
      IssuedLater(n, n + 1, rows[i].id);
    }
    forall k | k in cache ensures HasSubEntry(env, more, cache[k], k) {
      assert HasSubEntry(env, rows, cache[k], k);
      var i :| 0 <= i < |rows| && rows[i].id == cache[k] && SubEntryUnder(env, rows[i], k);
      assert more[i] == rows[i];
    }
    assert more[|rows|] == row && SubEntryUnder(env, row, CacheKey(row.parentId, key));
    assert HasSubEntry(env, more, row.id, CacheKey(row.parentId, key));
  }

  /** The name a new section takes folds to the key it was looked up under. */
  lemma {:induction false} DeclaredGrows(env: Env, s: State, departmentId: Id, name: string, key: string)
    requires !env.dryRun && Sound(env, s) && env.orgKey(name) == Some(key)
    ensures var r := DeclaredEntry(env, s, departmentId, name, key);
            && Sound(env, r.state) && Grows(env, s, r.state)
            && env.orgKey(if r.value.Some? then SubEntryName(r.state.registry, r.value.value) else name) == Some(key)
  {
    hide Grows, EntriesSound, SubEntriesSound, SectionEntry, CacheKey, SubEntryName, Stored;
    if departmentId in s.rowCatalog && s.rowCatalog[departmentId].Some? {
      var parentId := s.rowCatalog[departmentId].value;
      SubEntryGrows(env, s, parentId, name, key);
      var t := SectionEntry(env, s, parentId, name, key).state;
      SubEntryNameFolds(env, t.registry, t.sectionCatalog, parentId, key);
    } else {
      GrowsSame(env, s);
    }
  }

  lemma {:induction false} SectionGrows(env: Env, s: State, departmentId: Id, name: string, key: string)
    requires !env.dryRun && Sound(env, s) && env.orgKey(name) == Some(key)
    ensures var t := NewSection(env, s, departmentId, name, key).state; Sound(env, t) && Grows(env, s, t)
  {
    hide Extends, EntriesSound, SubEntriesSound, LinksStored, DeclaredEntry, Find, NextFreeCode, RowsGrow, SubEntryName;
    var rows := s.registry.sections;
    if Find(rows, SectionAt(env, departmentId, key)).Some? {
      GrowsSame(env, s);
    } else {
      var entry := DeclaredEntry(env, s, departmentId, name, key);
      var t := entry.state;
      DeclaredGrows(env, s, departmentId, name, key);
      DeclaredEntryShape(env, s, departmentId, name, key);
      var made := CreateSection(t, rows, departmentId, name, entry.value);
      SectionMade(env, t, departmentId, name, key, entry.value);
      var n := t.registry.nextId;
      EntriesLater(env, t.registry.departmentEntries, t.departmentCatalog, n, n + 1);
      SubEntriesLater(env, t.registry.sectionEntries, t.sectionCatalog, n, n + 1);
      GrowsTrans(env, s, t, made);
    }
  }

  lemma {:induction false} SectionMade(
    env: Env, t: State, departmentId: Id, name: string, key: string, catalogId: Option<Id>)
    requires env.orgKey(if catalogId.Some? then SubEntryName(t.registry, catalogId.value) else name) == Some(key)
    requires Find(t.registry.sections, SectionAt(env, departmentId, key)).None?
    ensures Grows(env, t, CreateSection(t, t.registry.sections, departmentId, name, catalogId))
  {
    hide Extends, NextFreeCode, SubEntryName, NewId;
    var rows := t.registry.sections;
    var code := NextFreeCode("SEC", Mapped(rows, SectionCode) + t.minted);
    var taken := if catalogId.Some? then SubEntryName(t.registry, catalogId.value) else name;
    var row := SectionRow(NewId(t.registry), code, departmentId, taken, catalogId);
    GrowsSame(env, t);
    FindNone(rows, SectionAt(env, departmentId, key));
    ExtendsSnoc(rows, row, SectionPlace(env));
    MintedAlone("SEC", Mapped(rows, SectionCode), t.minted);
    assert forall i :: 0 <= i < |rows| ==> SectionCode(rows[i]) == Mapped(rows, SectionCode)[i];
    ExtendsSnoc(rows, row, SectionCode);
    ExtendsSnoc(t.minted, code, Itself);
  }

  lemma {:induction false} TitleGrows(env: Env, s: State, name: string, key: string)
    requires !env.dryRun && Sound(env, s) && env.orgKey(name) == Some(key)
    ensures var t := NewTitle(env, s, name, key).state; Sound(env, t) && Grows(env, s, t)
  {
    hide Extends, EntriesSound, SubEntriesSound, LinksStored, Find, NextFreeCode;
    var rows, n := s.registry.titles, s.registry.nextId;
    GrowsSame(env, s);
    if Find(rows, TitleNamed(env, key)).Some? {
    } else {
      TitleMade(env, s, name, key);
      EntriesLater(env, s.registry.departmentEntries, s.departmentCatalog, n, n + 1);
      SubEntriesLater(env, s.registry.sectionEntries, s.sectionCatalog, n, n + 1);
    }
  }

  lemma {:induction false} TitleMade(env: Env, s: State, name: string, key: string)
    requires env.orgKey(name) == Some(key) && Find(s.registry.titles, TitleNamed(env, key)).None?
    ensures Grows(env, s, CreateTitle(s, name))
  {
    hide Extends, NextFreeCode, NewId;
    var rows := s.registry.titles;
    var code := NextFreeCode("JOB", Mapped(rows, TitleCode) + s.minted);
    var row := TitleRow(NewId(s.registry), code, name);
    GrowsSame(env, s);
    FindNone(rows, TitleNamed(env, key));
    ExtendsSnoc(rows, row, TitleFold(env));
    MintedAlone("JOB", Mapped(rows, TitleCode), s.minted);
    assert forall i :: 0 <= i < |rows| ==> TitleCode(rows[i]) == Mapped(rows, TitleCode)[i];
    ExtendsSnoc(rows, row, TitleCode);
    ExtendsSnoc(s.minted, code, Itself);
  }

  // ---------------------------------------------------------------- whole runs

  lemma {:induction false} ResolveGrows(env: Env, s: State, row: PlacedRow)
    requires !env.dryRun && Sound(env, s)
    ensures Sound(env, Resolve(env, s, row).state) && Grows(env, s, Resolve(env, s, row).state)
  {
    hide Grows, Sound, NewBranch, NewDepartment, NewSection, NewTitle;
    GrowsSame(env, s);
    var branch := Branch(env, s, row.branchName);
    BranchStep(env, s, row.branchName);
    if branch.value.Some? {
      var department := Department(env, branch.state, branch.value.value, row.departmentName);
      DepartmentStep(env, branch.state, branch.value.value, row.departmentName);
      GrowsTrans(env, s, branch.state, department.state);
      if department.value.Some? {
        var section := Section(env, department.state, department.value.value, row.sectionName);
        SectionStep(env, department.state, department.value.value, row.sectionName);
        GrowsTrans(env, s, department.state, section.state);
        TitleStep(env, section.state, row.jobTitleName);
        GrowsTrans(env, s, section.state, JobTitle(env, section.state, row.jobTitleName).state);
      }
    }
  }

  lemma {:induction false} BranchStep(env: Env, s: State, name: Option<string>)
    requires !env.dryRun && Sound(env, s)
    ensures var t := Branch(env, s, name).state; Sound(env, t) && Grows(env, s, t)
  {
    hide Grows, Sound, NewBranch;
    GrowsSame(env, s);
    if Key(env, name).Some? && Key(env, name).value !in s.branches {
      BranchGrows(env, s, name.value, Key(env, name).value);
    }
  }

  lemma {:induction false} DepartmentStep(env: Env, s: State, branchId: Id, name: Option<string>)
    requires !env.dryRun && Sound(env, s)
    ensures var t := Department(env, s, branchId, name).state; Sound(env, t) && Grows(env, s, t)
  {
    hide Grows, Sound, NewDepartment;
    GrowsSame(env, s);
    if Key(env, name).Some? {
      DepartmentGrows(env, s, branchId, name.value, Key(env, name).value);
    }
  }

  lemma {:induction false} SectionStep(env: Env, s: State, departmentId: Id, name: Option<string>)
    requires !env.dryRun && Sound(env, s)
    ensures var t := Section(env, s, departmentId, name).state; Sound(env, t) && Grows(env, s, t)
  {
    hide Grows, Sound, NewSection;
    GrowsSame(env, s);
    if Key(env, name).Some? {
      SectionGrows(env, s, departmentId, name.value, Key(env, name).value);
    }
  }

  lemma {:induction false} TitleStep(env: Env, s: State, name: Option<string>)
    requires !env.dryRun && Sound(env, s)
    ensures var t := JobTitle(env, s, name).state; Sound(env, t) && Grows(env, s, t)
  {
    hide Grows, Sound, NewTitle;
    GrowsSame(env, s);
    if Key(env, name).Some? {
      TitleGrows(env, s, name.value, Key(env, name).value);
    }
  }

  /** The registry a run starts from: catalog ids are distinct ids of the registry, and links name such ids. */
  ghost predicate WellFormed(r: Registry) {
    && (forall i :: 0 <= i < |r.departmentEntries| ==>
      Issued(r.nextId, r.departmentEntries[i].id) && Stored(r.departmentEntries[i].id))
    && (forall i, j :: 0 <= i < j < |r.departmentEntries| ==> r.departmentEntries[i].id != r.departmentEntries[j].id)
    && (forall i :: 0 <= i < |r.sectionEntries| ==>
      Issued(r.nextId, r.sectionEntries[i].id) && Stored(r.sectionEntries[i].parentId))
    && (forall i, j :: 0 <= i < j < |r.sectionEntries| ==> r.sectionEntries[i].id != r.sectionEntries[j].id)
    && (forall i :: 0 <= i < |r.departments| ==> r.departments[i].catalogId.Some? ==>
      Stored(r.departments[i].catalogId.value))
  }

  lemma {:induction false} FreshIsSound(env: Env, r: Registry)
    requires WellFormed(r)
    ensures Sound(env, Fresh(r))
  {
    hide Issued, Stored;
  }

  /** Over any sequence of rows a run adds at most one unit per folded name and parent, and only new codes. */
  lemma {:induction false} RunGrows(env: Env, r: Registry, rows: seq<PlacedRow>)
    requires !env.dryRun && WellFormed(r)
    ensures Sound(env, After(env, Fresh(r), rows)) && Grows(env, Fresh(r), After(env, Fresh(r), rows))
  {
    hide Grows, Sound, Resolve;
    if rows == [] {
      FreshIsSound(env, r);
      GrowsSame(env, Fresh(r));
    } else {
      var n := |rows| - 1;
      RunGrows(env, r, rows[..n]);
      var s := After(env, Fresh(r), rows[..n]);
      ResolveGrows(env, s, rows[n]);
      GrowsTrans(env, Fresh(r), s, Resolve(env, s, rows[n]).state);
    }
  }

  /** The codes minted during a run are pairwise distinct. */
  lemma {:induction false} MintedDistinct(env: Env, r: Registry, rows: seq<PlacedRow>)
    requires !env.dryRun && WellFormed(r)
    ensures Distinct(After(env, Fresh(r), rows).minted)
  {
    hide WellFormed, RowsGrow, After;
    RunGrows(env, r, rows);
    var minted := After(env, Fresh(r), rows).minted;
    forall i, j | 0 <= i < j < |minted| ensures minted[i] != minted[j] {
      assert Itself(minted[i]) != Itself(minted[j]);
    }
  }
}
