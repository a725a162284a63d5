/**
 * Unit codes and branch matching (apps/api/src/workforce-import/org.ts, lines 496-519), and paged reads (lines
 * 110-121).
 */
module UnitCodes {
  import opened Options
  import opened YmdText
  import opened WorkforceRows

  /** The number of a `PREFIX-digits` code. */
  function CodeNumber(prefix: string, code: string): Option<nat> {
    var n := |prefix| + 1;
    if prefix + "-" <= code && |code| > n && AllDigits(code[n..]) then Some(Value(code[n..])) else None
  }

  function Highest(prefix: string, existing: seq<string>): nat {
    if existing == [] then 0
    else
      var n := |existing| - 1;
      var max, number := Highest(prefix, existing[..n]), CodeNumber(prefix, existing[n]);
      if number.Some? && number.value > max then number.value else max
  }

  /** `nextFreeCode` */
  function NextFreeCode(prefix: string, existing: seq<string>): string {
    prefix + "-" + Pad(Highest(prefix, existing) + 1, 4)
  }

  lemma {:induction false} DecimalReads(n: nat)
    ensures AllDigits(Decimal(n)) && |Decimal(n)| > 0 && Value(Decimal(n)) == n
  {
    if n >= 10 {
      DecimalReads(n / 10);
      assert Decimal(n)[..|Decimal(n)| - 1] == Decimal(n / 10);
    } else {
      assert Decimal(n)[..0] == "";
    }
  }

  lemma {:induction false} PaddedReads(n: nat)
    ensures AllDigits(Pad(n, 4)) && |Pad(n, 4)| > 0 && Value(Pad(n, 4)) == n
  {
    DecimalReads(n);
    if |Decimal(n)| < 4 {
      Tens();
      if n >= 10000 {
        DecimalLength(n, 4);
      }
      PadIsFixed(n, 4);
      ValueOfFixed(n, 4);
    }
  }

  lemma {:induction false} HighestBounds(prefix: string, existing: seq<string>, code: string)
    requires code in existing && CodeNumber(prefix, code).Some?
    ensures CodeNumber(prefix, code).value <= Highest(prefix, existing)
  {
    hide CodeNumber;
    var n := |existing| - 1;
    if code in existing[..n] {
      HighestBounds(prefix, existing[..n], code);
    }
  }

  lemma {:induction false} CodeOfNumber(prefix: string, n: nat)
    ensures CodeNumber(prefix, prefix + "-" + Pad(n, 4)) == Some(n)
  {
    PaddedReads(n);
    var code := prefix + "-" + Pad(n, 4);
    assert code[|prefix| + 1..] == Pad(n, 4);
  }

  /** A minted code is new, and is one past the highest of its prefix. */
  lemma {:induction false} NextFreeCodeIsFresh(prefix: string, existing: seq<string>)
    ensures NextFreeCode(prefix, existing) !in existing
    ensures CodeNumber(prefix, NextFreeCode(prefix, existing)) == Some(Highest(prefix, existing) + 1)
  {
    hide CodeNumber, Highest;
    var code := NextFreeCode(prefix, existing);
    CodeOfNumber(prefix, Highest(prefix, existing) + 1);
    if code in existing {
      HighestBounds(prefix, existing, code);
    }
  }

  // ---------------------------------------------------------------- paged reads

  /** The page a repository answers with: at most `size` rows, never more than it would honour. */
  function PageOf<T>(rows: seq<T>, page: nat, size: nat): seq<T>
    requires page >= 1 && size >= 1
  {
    var start := (page - 1) * size;
    if start >= |rows| then [] else rows[start..if start + size <= |rows| then start + size else |rows|]
  }

  function TotalPages(count: nat, size: nat): nat
    requires size >= 1
  {
    if count == 0 then 1 else (count + size - 1) / size
  }

  /** `readAll`: page after page, until the reader's own count is reached. */
  method ReadAll<T>(rows: seq<T>, size: nat) returns (out: seq<T>)
    requires size >= 1
    ensures out == rows
  {
    out := [];
    var page := 1;
    while true
      invariant page >= 1
      invariant out == rows[..if (page - 1) * size <= |rows| then (page - 1) * size else |rows|]
      invariant (page - 1) * size < |rows| || page == 1
      decreases |rows| - (page - 1) * size
    {
      out := out + PageOf(rows, page, size);
      PagesCover(|rows|, size, page);
      if page >= TotalPages(|rows|, size) {
        assert rows[..|rows|] == rows;
        return;
      }
      assert page * size == (page - 1) * size + size;
      page := page + 1;
    }
  }

  lemma {:induction false} PagesCover(count: nat, size: nat, page: nat)
    requires size >= 1 && page >= 1
    ensures page >= TotalPages(count, size) <==> page * size >= count
  {
    var q, r := (count + size - 1) / size, (count + size - 1) % size;
    assert count + size - 1 == q * size + r;
    if page >= q {
      assert page * size >= q * size;
    } else {
      assert (page + 1) * size <= q * size;
    }
  }
}

/**
 * The registry's units, and what the resolver's lookups do to it and to the caches
 * (apps/api/src/workforce-import/org.ts, lines 123-470 and 496-510). A created row gets the next id
 * of the registry, and takes its name from the catalog entry it is linked to.
 */
module OrgResolverSpec {
  import opened Options
  import opened Sequences
  import opened UnitCodes
  import opened YmdText

  type Id = string

  datatype BranchRow = BranchRow(id: Id, code: string, name: string)
  datatype DepartmentRow = DepartmentRow(id: Id, code: string, branchId: Id, name: string, catalogId: Option<Id>)
  datatype SectionRow = SectionRow(id: Id, code: string, departmentId: Id, name: string, catalogId: Option<Id>)
  datatype TitleRow = TitleRow(id: Id, code: string, name: string)
  datatype EntryRow = EntryRow(id: Id, code: string, name: string)
  datatype SubEntryRow = SubEntryRow(id: Id, code: string, parentId: Id, name: string)

  datatype Registry = Registry(
    branches: seq<BranchRow>,
    departments: seq<DepartmentRow>,
    sections: seq<SectionRow>,
    titles: seq<TitleRow>,
    departmentEntries: seq<EntryRow>,
    sectionEntries: seq<SubEntryRow>,
    nextId: nat)

  datatype Counters = Counters(branches: nat, departments: nat, sections: nat, jobTitles: nat)

  datatype Note = SiteHasNoCode(site: string) | BranchCodeMismatch(name: string, existingCode: string, code: string)

  /** What a run is given: the fold, the derived codes, and whether anything may be written. */
  datatype Env = Env(orgKey: string -> Option<string>, branchCodes: map<string, string>, dryRun: bool)

  datatype State = State(
    registry: Registry,
    branches: map<string, Id>,
    departments: map<string, Id>,
    sections: map<string, Id>,
    jobTitles: map<string, Id>,
    departmentCatalog: map<string, Id>,
    sectionCatalog: map<string, Id>,
    rowCatalog: map<Id, Option<Id>>,
    created: Counters,
    minted: seq<string>,
    problems: seq<Note>)

  datatype Step<T> = Step(state: State, value: T)

  datatype PlacedRow = PlacedRow(
    branchName: Option<string>, departmentName: Option<string>, sectionName: Option<string>,
    jobTitleName: Option<string>)

  datatype Resolution = Resolution(branchId: Id, departmentId: Id, sectionId: Option<Id>, jobTitleId: Id)

  function Key(env: Env, name: Option<string>): Option<string> {
    if name.Some? then env.orgKey(name.value) else None
  }

  function CacheKey(parent: Id, key: string): string {
    parent + "|" + key
  }

  /** `Array.prototype.find` */
  function Find<T(!new)>(items: seq<T>, p: T -> bool): Option<T> {
    if items == [] then None else if p(items[0]) then Some(items[0]) else Find(items[1..], p)
  }

  function BranchCoded(code: string): BranchRow -> bool {
    (b: BranchRow) => b.code == code
  }

  function BranchNamed(env: Env, key: string): BranchRow -> bool {
    (b: BranchRow) => env.orgKey(b.name) == Some(key)
  }

  function DepartmentAt(env: Env, branchId: Id, key: string): DepartmentRow -> bool {
    (d: DepartmentRow) => d.branchId == branchId && env.orgKey(d.name) == Some(key)
  }

  function SectionAt(env: Env, departmentId: Id, key: string): SectionRow -> bool {
    (s: SectionRow) => s.departmentId == departmentId && env.orgKey(s.name) == Some(key)
  }

  function TitleNamed(env: Env, key: string): TitleRow -> bool {
    (t: TitleRow) => env.orgKey(t.name) == Some(key)
  }

  function EntryNamed(env: Env, key: string): EntryRow -> bool {
    (e: EntryRow) => env.orgKey(e.name) == Some(key)
  }

  function SubEntryAt(env: Env, parentId: Id, key: string): SubEntryRow -> bool {
    (e: SubEntryRow) => e.parentId == parentId && env.orgKey(e.name) == Some(key)
  }

  function EntryWithId(id: Id): EntryRow -> bool {
    (e: EntryRow) => e.id == id
  }

  function SubEntryWithId(id: Id): SubEntryRow -> bool {
    (e: SubEntryRow) => e.id == id
  }

  function BranchCode(b: BranchRow): string {
    b.code
  }

  function DepartmentCode(d: DepartmentRow): string {
    d.code
  }

  function SectionCode(s: SectionRow): string {
    s.code
  }

  function TitleCode(t: TitleRow): string {
    t.code
  }

  function EntryCode(e: EntryRow): string {
    e.code
  }

  function SubEntryCode(e: SubEntryRow): string {
    e.code
  }

  /** The id a service's `create` gives. */
  function NewId(r: Registry): Id {
    Decimal(r.nextId)
  }

  function Noted(s: State, note: Note): State {
    if note in s.problems then s else s.(problems := s.problems + [note])
  }

  // ---------------------------------------------------------------- branches

  datatype Match = Match(id: Id, mismatch: Option<BranchRow>)

  /** `matchBranch`: by code first, then by name. */
  function MatchBranch(env: Env, items: seq<BranchRow>, code: string, key: string): Option<Match> {
    match Find(items, BranchCoded(code))
    case Some(b) => Some(Match(b.id, None))
    case None =>
      match Find(items, BranchNamed(env, key))
      case Some(b) => Some(Match(b.id, Some(b)))
      case None => None
  }

  function Matched(s: State, m: Match, code: string): State {
    if m.mismatch.Some? then Noted(s, BranchCodeMismatch(m.mismatch.value.name, m.mismatch.value.code, code)) else s
  }

  function DryBranch(code: string): Id {
    "dry-run:branch:" + code
  }

  function CountBranch(s: State, key: string, id: Id): State {
    s.(branches := s.branches[key := id], created := s.created.(branches := s.created.branches + 1))
  }

  function CreateBranch(r: Registry, code: string, name: string): Registry {
    r.(branches := r.branches + [BranchRow(NewId(r), code, name)], nextId := r.nextId + 1)
  }

  /** The lookup of one site that is not cached. */
  function NewBranch(env: Env, s: State, name: string, key: string): Step<Option<Id>> {
    if key !in env.branchCodes then Step(Noted(s, SiteHasNoCode(name)), None)
    else
      var code := env.branchCodes[key];
      match MatchBranch(env, s.registry.branches, code, key)
      case Some(m) => Step(Matched(s, m, code).(branches := s.branches[key := m.id]), Some(m.id))
      case None =>
        if env.dryRun then Step(CountBranch(s, key, DryBranch(code)), Some(DryBranch(code)))
        else
          var id := NewId(s.registry);
          Step(CountBranch(s.(registry := CreateBranch(s.registry, code, name)), key, id), Some(id))
  }

  function Branch(env: Env, s: State, name: Option<string>): Step<Option<Id>> {
    match Key(env, name)
    case None => Step(s, None)
    case Some(key) => if key in s.branches then Step(s, Some(s.branches[key])) else NewBranch(env, s, name.value, key)
  }

  // ---------------------------------------------------------------- departments

  function DryEntry(key: string): Id {
    "dry-run:departmentCatalog:" + key
  }

  function DepartmentEntry(env: Env, s: State, name: string, key: string): Step<Id> {
    if key in s.departmentCatalog then Step(s, s.departmentCatalog[key])
    else
      var entries := s.registry.departmentEntries;
      match Find(entries, EntryNamed(env, key))
      case Some(hit) => Step(s.(departmentCatalog := s.departmentCatalog[key := hit.id]), hit.id)
      case None =>
        if env.dryRun then
          var id := DryEntry(key);
          Step(s.(departmentCatalog := s.departmentCatalog[key := id]), id)
        else
          var code := NextFreeCode("DEP", Mapped(entries, EntryCode) + s.minted);
          var id := NewId(s.registry);
          var more := entries + [EntryRow(id, code, name)];
          var registry := s.registry.(departmentEntries := more, nextId := s.registry.nextId + 1);
          var cache := s.departmentCatalog[key := id];
          Step(s.(registry := registry, minted := s.minted + [code], departmentCatalog := cache), id)
  }

  /** The name a row linked to an entry takes. */
  function EntryName(r: Registry, id: Id): string {
    match Find(r.departmentEntries, EntryWithId(id))
    case Some(e) => e.name
    case None => ""
  }

  function SubEntryName(r: Registry, id: Id): string {
    match Find(r.sectionEntries, SubEntryWithId(id))
    case Some(e) => e.name
    case None => ""
  }

  function DryDepartment(cacheKey: string): Id {
    "dry-run:department:" + cacheKey
  }

  function CountDepartment(s: State, cacheKey: string, id: Id, catalogId: Id): State {
    s.(departments := s.departments[cacheKey := id],
       rowCatalog := s.rowCatalog[id := Some(catalogId)],
       created := s.created.(departments := s.created.departments + 1))
  }

  function CreateDepartment(s: State, branchId: Id, catalogId: Id): State {
    var r := s.registry;
    var code := NextFreeCode("DEP", Mapped(r.departments, DepartmentCode) + s.minted);
    var row := DepartmentRow(NewId(r), code, branchId, EntryName(r, catalogId), Some(catalogId));
    s.(registry := r.(departments := r.departments + [row], nextId := r.nextId + 1), minted := s.minted + [code])
  }

  /** The lookup of one department that is not cached. */
  function NewDepartment(env: Env, s: State, branchId: Id, name: string, key: string): Step<Id> {
    var cacheKey := CacheKey(branchId, key);
    var entry := DepartmentEntry(env, s, name, key);
    var t := entry.state;
    match Find(t.registry.departments, DepartmentAt(env, branchId, key))
    case Some(hit) =>
      Step(t.(departments := t.departments[cacheKey := hit.id], rowCatalog := t.rowCatalog[hit.id := hit.catalogId]),
        hit.id)
    case None =>
      if env.dryRun then Step(CountDepartment(t, cacheKey, DryDepartment(cacheKey), entry.value),
        DryDepartment(cacheKey))
      else
        var id := NewId(t.registry);
        Step(CountDepartment(CreateDepartment(t, branchId, entry.value), cacheKey, id, entry.value), id)
  }

  function Department(env: Env, s: State, branchId: Id, name: Option<string>): Step<Option<Id>> {
    match Key(env, name)
    case None => Step(s, None)
    case Some(key) =>
      var cacheKey := CacheKey(branchId, key);
      if cacheKey in s.departments then Step(s, Some(s.departments[cacheKey]))
      else
        var made := NewDepartment(env, s, branchId, name.value, key);
        Step(made.state, Some(made.value))
  }

  // ---------------------------------------------------------------- sections

  function DrySubEntry(cacheKey: string): Id {
    "dry-run:sectionCatalog:" + cacheKey
  }

  function SectionEntry(env: Env, s: State, parentId: Id, name: string, key: string): Step<Id> {
    var cacheKey := CacheKey(parentId, key);
    if cacheKey in s.sectionCatalog then Step(s, s.sectionCatalog[cacheKey])
    else
      var entries := s.registry.sectionEntries;
      match Find(entries, SubEntryAt(env, parentId, key))
      case Some(hit) => Step(s.(sectionCatalog := s.sectionCatalog[cacheKey := hit.id]), hit.id)
      case None =>
        if env.dryRun then
          var id := DrySubEntry(cacheKey);
          Step(s.(sectionCatalog := s.sectionCatalog[cacheKey := id]), id)
        else
          var code := NextFreeCode("SEC", Mapped(entries, SubEntryCode) + s.minted);
          var id := NewId(s.registry);
          var more := entries + [SubEntryRow(id, code, parentId, name)];
          var registry := s.registry.(sectionEntries := more, nextId := s.registry.nextId + 1);
          var cache := s.sectionCatalog[cacheKey := id];
          Step(s.(registry := registry, minted := s.minted + [code], sectionCatalog := cache), id)
  }

  /** The entry a new section declares: none under a department that declares none. */
  function DeclaredEntry(env: Env, s: State, departmentId: Id, name: string, key: string): Step<Option<Id>> {
    var parent := if departmentId in s.rowCatalog then s.rowCatalog[departmentId] else None;
    if parent.None? then Step(s, None)
    else
      var entry := SectionEntry(env, s, parent.value, name, key);
      Step(entry.state, Some(entry.value))
  }

  function DrySection(cacheKey: string): Id {
    "dry-run:section:" + cacheKey
  }

  function CountSection(s: State, cacheKey: string, id: Id): State {
    s.(sections := s.sections[cacheKey := id], created := s.created.(sections := s.created.sections + 1))
  }

  function CreateSection(
    s: State, items: seq<SectionRow>, departmentId: Id, name: string, catalogId: Option<Id>): State
  {
    var r := s.registry;
    var code := NextFreeCode("SEC", Mapped(items, SectionCode) + s.minted);
    var taken := if catalogId.Some? then SubEntryName(r, catalogId.value) else name;
    var row := SectionRow(NewId(r), code, departmentId, taken, catalogId);
    s.(registry := r.(sections := r.sections + [row], nextId := r.nextId + 1), minted := s.minted + [code])
  }

  function NewSection(env: Env, s: State, departmentId: Id, name: string, key: string): Step<Id> {
    var cacheKey := CacheKey(departmentId, key);
    var items := s.registry.sections;
    match Find(items, SectionAt(env, departmentId, key))
    case Some(hit) => Step(s.(sections := s.sections[cacheKey := hit.id]), hit.id)
    case None =>
      var entry := DeclaredEntry(env, s, departmentId, name, key);
      var t := entry.state;
      if env.dryRun then Step(CountSection(t, cacheKey, DrySection(cacheKey)), DrySection(cacheKey))
      else
        var id := NewId(t.registry);
        Step(CountSection(CreateSection(t, items, departmentId, name, entry.value), cacheKey, id), id)
  }

  function Section(env: Env, s: State, departmentId: Id, name: Option<string>): Step<Option<Id>> {
    match Key(env, name)
    case None => Step(s, None)
    case Some(key) =>
      var cacheKey := CacheKey(departmentId, key);
      if cacheKey in s.sections then Step(s, Some(s.sections[cacheKey]))
      else
        var made := NewSection(env, s, departmentId, name.value, key);
        Step(made.state, Some(made.value))
  }

  // ---------------------------------------------------------------- job titles

  function DryTitle(key: string): Id {
    "dry-run:jobTitle:" + key
  }

  function CountTitle(s: State, key: string, id: Id): State {
    s.(jobTitles := s.jobTitles[key := id], created := s.created.(jobTitles := s.created.jobTitles + 1))
  }

  function CreateTitle(s: State, name: string): State {
    var r := s.registry;
    var code := NextFreeCode("JOB", Mapped(r.titles, TitleCode) + s.minted);
    s.(registry := r.(titles := r.titles + [TitleRow(NewId(r), code, name)], nextId := r.nextId + 1),
      minted := s.minted + [code])
  }

  function NewTitle(env: Env, s: State, name: string, key: string): Step<Id> {
    match Find(s.registry.titles, TitleNamed(env, key))
    case Some(hit) => Step(s.(jobTitles := s.jobTitles[key := hit.id]), hit.id)
    case None =>
      if env.dryRun then Step(CountTitle(s, key, DryTitle(key)), DryTitle(key))
      else
        var id := NewId(s.registry);
        Step(CountTitle(CreateTitle(s, name), key, id), id)
  }

  function JobTitle(env: Env, s: State, name: Option<string>): Step<Option<Id>> {
    match Key(env, name)
    case None => Step(s, None)
    case Some(key) =>
      if key in s.jobTitles then Step(s, Some(s.jobTitles[key]))
      else
        var made := NewTitle(env, s, name.value, key);
        Step(made.state, Some(made.value))
  }

  // ---------------------------------------------------------------- one row, and all of them

  function Resolve(env: Env, s: State, row: PlacedRow): Step<Option<Resolution>> {
    var branch := Branch(env, s, row.branchName);
    if branch.value.None? then Step(branch.state, None)
    else
      var department := Department(env, branch.state, branch.value.value, row.departmentName);
      if department.value.None? then Step(department.state, None)
      else
        var section := Section(env, department.state, department.value.value, row.sectionName);
        var title := JobTitle(env, section.state, row.jobTitleName);
        Step(title.state,
             if title.value.None? then None
             else Some(Resolution(branch.value.value, department.value.value, section.value, title.value.value)))
  }

  /** The state after resolving the rows in turn. */
  function After(env: Env, s: State, rows: seq<PlacedRow>): State {
    if rows == [] then s else Resolve(env, After(env, s, rows[..|rows| - 1]), rows[|rows| - 1]).state
  }

  /** A resolver that has not resolved anything yet. */
  function Fresh(r: Registry): State {
    State(r, map[], map[], map[], map[], map[], map[], map[], Counters(0, 0, 0, 0), [], [])
  }
}

/**
 * The resolver itself: caches, counters and minted codes in its fields (apps/api/src/workforce-import/org.ts, lines
 * 123-470).
 */
module OrgResolver {
  import opened Options
  import opened Sequences
  import opened UnitCodes
  import opened OrgResolverSpec

  class Resolver {
    const env: Env
    var registry: Registry
    var branches: map<string, Id>
    var departments: map<string, Id>
    var sections: map<string, Id>
    var jobTitles: map<string, Id>
    var departmentCatalog: map<string, Id>
    var sectionCatalog: map<string, Id>
    var rowCatalog: map<Id, Option<Id>>
    var created: Counters
    var minted: seq<string>
    var problems: seq<Note>

    ghost function Now(): State
      reads this
    {
      State(registry, branches, departments, sections, jobTitles, departmentCatalog, sectionCatalog, rowCatalog,
            created, minted, problems)
    }

    constructor (env: Env, registry: Registry)
      ensures this.env == env && Now() == Fresh(registry)
    {
      this.env := env;
      this.registry := registry;
      branches, departments, sections, jobTitles := map[], map[], map[], map[];
      departmentCatalog, sectionCatalog, rowCatalog := map[], map[], map[];
      created := Counters(0, 0, 0, 0);
      minted, problems := [], [];
    }

    method Note(note: OrgResolverSpec.Note)
      modifies this
      ensures Now() == Noted(old(Now()), note)
    {
      if note !in problems {
        problems := problems + [note];
      }
    }

    /** `findBranch`: the match is reported when its code is not the sheet's. */
    method FindBranch(code: string, key: string) returns (id: Option<Id>)
      modifies this
      ensures var m := MatchBranch(env, old(registry).branches, code, key);
              if m.None? then id == None && Now() == old(Now())
              else id == Some(m.value.id) && Now() == Matched(old(Now()), m.value, code)
    {
      var items := ReadAll(registry.branches, 100);
      var m := MatchBranch(env, items, code, key);
      if m.None? {
        return None;
      }
      if m.value.mismatch.Some? {
        Note(BranchCodeMismatch(m.value.mismatch.value.name, m.value.mismatch.value.code, code));
      }
      id := Some(m.value.id);
    }

    method Branch(name: Option<string>) returns (id: Option<Id>)
      modifies this
      ensures Step(Now(), id) == OrgResolverSpec.Branch(env, old(Now()), name)
    {
      hide MatchBranch;
      var key := Key(env, name);
      if key.None? {
        return None;
      }
      if key.value in branches {
        return Some(branches[key.value]);
      }
      if key.value !in env.branchCodes {
        Note(SiteHasNoCode(name.value));
        return None;
      }
      var code := env.branchCodes[key.value];
      id := FindBranch(code, key.value);
      if id.Some? {
        branches := branches[key.value := id.value];
        return;
      }
      if env.dryRun {
        id := Some(DryBranch(code));
      } else {
        id := Some(NewId(registry));
        registry := CreateBranch(registry, code, name.value);
      }
      created := created.(branches := created.branches + 1);
      branches := branches[key.value := id.value];
    }

    method DepartmentEntry(name: string, key: string) returns (id: Id)
      modifies this
      ensures Step(Now(), id) == OrgResolverSpec.DepartmentEntry(env, old(Now()), name, key)
    {
      if key in departmentCatalog {
        return departmentCatalog[key];
      }
      var entries := registry.departmentEntries;
      var hit := Find(entries, EntryNamed(env, key));
      if hit.Some? {
        id := hit.value.id;
      } else if env.dryRun {
        id := DryEntry(key);
      } else {
        var code := NextFreeCode("DEP", Mapped(entries, EntryCode) + minted);
        id := NewId(registry);
        registry := registry.(departmentEntries := entries + [EntryRow(id, code, name)], nextId := registry.nextId + 1);
        minted := minted + [code];
      }
      departmentCatalog := departmentCatalog[key := id];
    }

    /** Counts the department, and creates it unless nothing may be written. */
    method MakeDepartment(branchId: Id, catalogId: Id, cacheKey: string, items: seq<DepartmentRow>) returns (made: Id)
      requires items == registry.departments
      modifies this
      ensures made == if env.dryRun then DryDepartment(cacheKey) else NewId(old(registry))
      ensures Now() == CountDepartment(
        if env.dryRun then old(Now()) else CreateDepartment(old(Now()), branchId, catalogId), cacheKey, made, catalogId)
    {
      hide NextFreeCode, EntryName, NewId, DryDepartment;
      if env.dryRun {
        made := DryDepartment(cacheKey);
      } else {
        var code := NextFreeCode("DEP", Mapped(items, DepartmentCode) + minted);
        made := NewId(registry);
        var row := DepartmentRow(made, code, branchId, EntryName(registry, catalogId), Some(catalogId));
        registry := registry.(departments := registry.departments + [row], nextId := registry.nextId + 1);
        minted := minted + [code];
      }
      created := created.(departments := created.departments + 1);
      departments := departments[cacheKey := made];
      rowCatalog := rowCatalog[made := Some(catalogId)];
    }

    method Department(branchId: Id, name: Option<string>) returns (id: Option<Id>)
      modifies this
      ensures Step(Now(), id) == OrgResolverSpec.Department(env, old(Now()), branchId, name)
    {
      hide OrgResolverSpec.DepartmentEntry, Find, CacheKey, NewId, DryDepartment, DepartmentAt, CountDepartment,
        CreateDepartment;
      var key := Key(env, name);
      if key.None? {
        return None;
      }
      var cacheKey := CacheKey(branchId, key.value);
      if cacheKey in departments {
        return Some(departments[cacheKey]);
      }
      var catalogId := DepartmentEntry(name.value, key.value);
      var items := ReadAll(registry.departments, 100);
      var hit := Find(items, DepartmentAt(env, branchId, key.value));
      if hit.Some? {
        departments := departments[cacheKey := hit.value.id];
        rowCatalog := rowCatalog[hit.value.id := hit.value.catalogId];
        return Some(hit.value.id);
      }
      var made := MakeDepartment(branchId, catalogId, cacheKey, items);
      id := Some(made);
    }

    method SectionEntry(parentId: Id, name: string, key: string) returns (id: Id)
      modifies this
      ensures Step(Now(), id) == OrgResolverSpec.SectionEntry(env, old(Now()), parentId, name, key)
    {
      var cacheKey := CacheKey(parentId, key);
      if cacheKey in sectionCatalog {
        return sectionCatalog[cacheKey];
      }
      var entries := registry.sectionEntries;
      var hit := Find(entries, SubEntryAt(env, parentId, key));
      if hit.Some? {
        id := hit.value.id;
      } else if env.dryRun {
        id := DrySubEntry(cacheKey);
      } else {
        var code := NextFreeCode("SEC", Mapped(entries, SubEntryCode) + minted);
        id := NewId(registry);
        registry :=
          registry.(sectionEntries := entries + [SubEntryRow(id, code, parentId, name)], nextId := registry.nextId + 1);
        minted := minted + [code];
      }
      sectionCatalog := sectionCatalog[cacheKey := id];
    }

    /** Counts the section, and creates it unless nothing may be written. */
    method MakeSection(departmentId: Id, name: string, catalogId: Option<Id>, cacheKey: string, items: seq<SectionRow>)
      returns (made: Id)
      modifies this
      ensures made == if env.dryRun then DrySection(cacheKey) else NewId(old(registry))
      ensures Now() == CountSection(
        if env.dryRun then old(Now()) else CreateSection(old(Now()), items, departmentId, name, catalogId),
        cacheKey, made)
    {
      hide NextFreeCode, SubEntryName, NewId, DrySection;
      if env.dryRun {
        made := DrySection(cacheKey);
      } else {
        var code := NextFreeCode("SEC", Mapped(items, SectionCode) + minted);
        made := NewId(registry);
        var taken := if catalogId.Some? then SubEntryName(registry, catalogId.value) else name;
        var row := SectionRow(made, code, departmentId, taken, catalogId);
        registry := registry.(sections := registry.sections + [row], nextId := registry.nextId + 1);
        minted := minted + [code];
      }
      created := created.(sections := created.sections + 1);
      sections := sections[cacheKey := made];
    }

    method Section(departmentId: Id, name: Option<string>) returns (id: Option<Id>)
      modifies this
      ensures Step(Now(), id) == OrgResolverSpec.Section(env, old(Now()), departmentId, name)
    {
      hide OrgResolverSpec.SectionEntry, Find, CacheKey, NewId, DrySection, SectionAt, CountSection, CreateSection;
      var key := Key(env, name);
      if key.None? {
        return None;
      }
      var cacheKey := CacheKey(departmentId, key.value);
      if cacheKey in sections {
        return Some(sections[cacheKey]);
      }
      var items := ReadAll(registry.sections, 100);
      var hit := Find(items, SectionAt(env, departmentId, key.value));
      if hit.Some? {
        sections := sections[cacheKey := hit.value.id];
        return Some(hit.value.id);
      }
      var catalogId := None;
      if departmentId in rowCatalog && rowCatalog[departmentId].Some? {
        var entry := SectionEntry(rowCatalog[departmentId].value, name.value, key.value);
        catalogId := Some(entry);
      }
      var made := MakeSection(departmentId, name.value, catalogId, cacheKey, items);
      id := Some(made);
    }

    method JobTitle(name: Option<string>) returns (id: Option<Id>)
      modifies this
      ensures Step(Now(), id) == OrgResolverSpec.JobTitle(env, old(Now()), name)
    {
      var key := Key(env, name);
      if key.None? {
        return None;
      }
      if key.value in jobTitles {
        return Some(jobTitles[key.value]);
      }
      var items := ReadAll(registry.titles, 100);
      var hit := Find(items, TitleNamed(env, key.value));
      if hit.Some? {
        jobTitles := jobTitles[key.value := hit.value.id];
        return Some(hit.value.id);
      }
      var made;
      if env.dryRun {
        made := DryTitle(key.value);
      } else {
        var code := NextFreeCode("JOB", Mapped(items, TitleCode) + minted);
        made := NewId(registry);
        registry :=
          registry.(titles := registry.titles + [TitleRow(made, code, name.value)], nextId := registry.nextId + 1);
        minted := minted + [code];
      }
      created := created.(jobTitles := created.jobTitles + 1);
      jobTitles := jobTitles[key.value := made];
      id := Some(made);
    }

    method Resolve(row: PlacedRow) returns (r: Option<Resolution>)
      modifies this
      ensures Step(Now(), r) == OrgResolverSpec.Resolve(env, old(Now()), row)
    {
      hide OrgResolverSpec.Branch, OrgResolverSpec.Department, OrgResolverSpec.Section, OrgResolverSpec.JobTitle;
      var branch := Branch(row.branchName);
      if branch.None? {
        return None;
      }
      var department := Department(branch.value, row.departmentName);
      if department.None? {
        return None;
      }
      var section := Section(department.value, row.sectionName);
      var title := JobTitle(row.jobTitleName);
      if title.None? {
        return None;
      }
      r := Some(Resolution(branch.value, department.value, section, title.value));
    }
  }
}
