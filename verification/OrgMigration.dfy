/**
 * The writes of the org-catalog migration (apps/api/src/org-catalog-migration/apply.ts), as updates to
 * the collections it touches.
 */
module OrgTables {
  import opened Options
  import opened Sequences
  import opened OrgRows
  import opened OrgPlanSpec
  import opened References
  import opened ReferencesSurvey
  import opened ReferencesIndexes

  datatype Department = Department(
    code: string, name: Name, branchId: Id, catalogId: Option<Id>, createdAt: string, isDeleted: bool)

  /** `path` is the materialized `branch/department/section`. */
  datatype Section = Section(
    code: string, name: Name, branchId: Id, departmentId: Option<Id>, catalogId: Option<Id>, createdAt: string,
    path: seq<Id>, isDeleted: bool)

  datatype CatalogEntry = CatalogEntry(code: string, name: Name, isDeleted: bool)

  datatype SectionCatalogEntry = SectionCatalogEntry(
    code: string, name: Name, departmentCatalogId: Id, isDeleted: bool)

  type Departments = map<Id, Department>
  type Sections = map<Id, Section>
  type DepartmentCatalog = map<Id, CatalogEntry>
  type SectionCatalog = map<Id, SectionCatalogEntry>

  // ---------------------------------------------------------------- reading

  function DepartmentRow(id: Id, d: Department): UnitRow {
    UnitRow(id, d.code, d.name, d.branchId, None, d.catalogId, d.createdAt)
  }

  function SectionRow(id: Id, s: Section): UnitRow {
    UnitRow(id, s.code, s.name, s.branchId, s.departmentId, s.catalogId, s.createdAt)
  }

  /** `DepartmentModel.find(live)`, in id order. */
  function LiveDepartments(departments: Departments, n: Id): seq<UnitRow> {
    if n == 0 then []
    else
      var rest := LiveDepartments(departments, n - 1);
      if n - 1 in departments && !departments[n - 1].isDeleted
      then rest + [DepartmentRow(n - 1, departments[n - 1])]
      else rest
  }

  function LiveSections(sections: Sections, n: Id): seq<UnitRow> {
    if n == 0 then []
    else
      var rest := LiveSections(sections, n - 1);
      if n - 1 in sections && !sections[n - 1].isDeleted then rest + [SectionRow(n - 1, sections[n - 1])] else rest
  }

  // ---------------------------------------------------------------- unique indexes

  /** `ux_branch_catalog`: a living, linked department's claim (department.model.ts, lines 48 to 55). */
  function DepartmentClaim(): Department -> Option<(Id, Id)> {
    (d: Department) => if !d.isDeleted && d.catalogId.Some? then Some((d.branchId, d.catalogId.value)) else None
  }

  /** `ux_department_catalog`: the same of a section (section.model.ts, lines 36 to 43). */
  function SectionClaim(): Section -> Option<(Option<Id>, Id)> {
    (s: Section) => if !s.isDeleted && s.catalogId.Some? then Some((s.departmentId, s.catalogId.value)) else None
  }

  /** The codes `ux_code` keeps apart in a catalog (org-catalog.ts, lines 40 to 45). */
  function DepartmentCodes(catalog: DepartmentCatalog): set<string> {
    set id | id in catalog && !catalog[id].isDeleted :: catalog[id].code
  }

  function SectionCodes(catalog: SectionCatalog): set<string> {
    set id | id in catalog && !catalog[id].isDeleted :: catalog[id].code
  }

  /** Every planned code can be given out: none is taken, none is planned twice. */
  ghost predicate CodesFree(taken: set<string>, entries: seq<Entry>) {
    && (forall i :: 0 <= i < |entries| ==> entries[i].code !in taken)
    && (forall i, j :: 0 <= i < j < |entries| ==> entries[i].code != entries[j].code)
  }

  // ---------------------------------------------------------------- sections as documents

  /** What the survey and the sweep see of the sections collection. */
  const SECTION_FIELDS: seq<Field> :=
    [Field("departmentId", ObjectIdType), Field("catalogId", ObjectIdType), Field("isDeleted", OtherType)]

  const SECTION_INDEXES: seq<Index> :=
    [Index(true, [["departmentId"], ["catalogId"]], [IsFlag(["isDeleted"], false), IsId(["catalogId"])])]

  function IdValue(id: Option<Id>): Value {
    match id
    case Some(i) => Ref(i)
    case None => Null
  }

  function SectionDoc(s: Section): Value {
    Obj(map[
      "departmentId" := IdValue(s.departmentId), "catalogId" := IdValue(s.catalogId), "isDeleted" := Flag(s.isDeleted)])
  }

  function SectionDocs(sections: Sections, n: Id): seq<Value> {
    if n == 0 then []
    else
      var rest := SectionDocs(sections, n - 1);
      if n - 1 in sections then rest + [SectionDoc(sections[n - 1])] else rest
  }

  function SectionsCollection(sections: Sections, n: Id): Collection {
    Collection(SECTION_FIELDS, SECTION_INDEXES, SectionDocs(sections, n))
  }

  // ---------------------------------------------------------------- linking

  /** The last entry that lists a row as a member. */
  function EntryIndex(entries: seq<Entry>, id: Id): (r: Option<nat>)
    ensures r.Some? ==> r.value < |entries|
  {
    if entries == [] then None
    else if id in entries[|entries| - 1].memberIds then Some(|entries| - 1)
    else EntryIndex(entries[..|entries| - 1], id)
  }

  /** A member of entry `i` points at entry `base + i` and takes its spelling. */
  function LinkDepartment(id: Id, d: Department, entries: seq<Entry>, base: Id): Department {
    match EntryIndex(entries, id)
    case Some(i) => d.(catalogId := Some(base + i), name := entries[i].name)
    case None => d
  }

  function LinkSection(id: Id, s: Section, entries: seq<Entry>, base: Id): Section {
    match EntryIndex(entries, id)
    case Some(i) => s.(catalogId := Some(base + i), name := entries[i].name)
    case None => s
  }

  function LinkDepartments(departments: Departments, entries: seq<Entry>, base: Id): Departments {
    map id | id in departments :: LinkDepartment(id, departments[id], entries, base)
  }

  function LinkSections(sections: Sections, entries: seq<Entry>, base: Id): Sections {
    map id | id in sections :: LinkSection(id, sections[id], entries, base)
  }

  /** One `updateMany` over an entry's members. */
  function LinkDepartmentMembers(departments: Departments, entry: Entry, catalogId: Id): Departments {
    map id | id in departments ::
      if id in entry.memberIds then departments[id].(catalogId := Some(catalogId), name := entry.name)
      else departments[id]
  }

  function LinkSectionMembers(sections: Sections, entry: Entry, catalogId: Id): Sections {
    map id | id in sections ::
      if id in entry.memberIds then sections[id].(catalogId := Some(catalogId), name := entry.name)
      else sections[id]
  }

  /** The catalog with one new entry per planned one, numbered from `base`. */
  function WithEntries(catalog: DepartmentCatalog, entries: seq<Entry>, base: Id): DepartmentCatalog {
    if entries == [] then catalog
    else
      var n := |entries| - 1;
      WithEntries(catalog, entries[..n], base)[base + n := CatalogEntry(entries[n].code, entries[n].name, false)]
  }

  /** `departmentIdByKey` after the creations. */
  function IdByKey(entries: seq<Entry>, base: Id): map<string, Id> {
    if entries == [] then map[]
    else IdByKey(entries[..|entries| - 1], base)[entries[|entries| - 1].foldedKey := base + |entries| - 1]
  }

  /** The keys of the living catalog entries below `n` that were not known yet, first entry first. */
  function ReadBack(loc: Locale, catalog: DepartmentCatalog, known: map<string, Id>, n: Id): map<string, Id> {
    if n == 0 then known
    else
      var rest := ReadBack(loc, catalog, known, n - 1);
      if n - 1 in catalog && !catalog[n - 1].isDeleted && FoldUnitName(loc, catalog[n - 1].name) !in rest
      then rest[FoldUnitName(loc, catalog[n - 1].name) := n - 1]
      else rest
  }

  predicate ParentsKnown(entries: seq<Entry>, idByKey: map<string, Id>) {
    forall i :: 0 <= i < |entries| ==> entries[i].parentKey.Some? && entries[i].parentKey.value in idByKey
  }

  function WithSectionEntries(
    catalog: SectionCatalog, entries: seq<Entry>, idByKey: map<string, Id>, base: Id
  ): SectionCatalog
    requires ParentsKnown(entries, idByKey)
  {
    if entries == [] then catalog
    else
      var n := |entries| - 1;
      WithSectionEntries(catalog, entries[..n], idByKey, base)
        [base + n := SectionCatalogEntry(entries[n].code, entries[n].name, idByKey[entries[n].parentKey.value], false)]
  }

  // ---------------------------------------------------------------- merging

  /** `sections.departmentId` through the sweep of one merge. */
  function RepointSection(s: Section, m: Merge): Section {
    if s.departmentId == Some(m.loserId) then s.(departmentId := Some(m.winnerId)) else s
  }

  /** The reference, then the path segment. */
  function MergeSection(id: Id, s: Section, m: Merge): Section {
    var moved := RepointSection(s, m);
    if !moved.isDeleted && moved.departmentId == Some(m.winnerId)
    then moved.(path := [moved.branchId, m.winnerId, id])
    else moved
  }

  function MergeSectionAll(id: Id, s: Section, merges: seq<Merge>): Section {
    if merges == [] then s
    else MergeSection(id, MergeSectionAll(id, s, merges[..|merges| - 1]), merges[|merges| - 1])
  }

  function MergeSections(sections: Sections, merges: seq<Merge>): Sections {
    map id | id in sections :: MergeSectionAll(id, sections[id], merges)
  }

  function Retire(departments: Departments, merges: seq<Merge>): Departments {
    map id | id in departments ::
      if LosesIn(merges, id) then departments[id].(isDeleted := true) else departments[id]
  }
}

/** The migration as one step from tables to tables. */
module OrgMigrationSpec {
  import opened Options
  import opened Sequences
  import opened OrgRows
  import opened OrgPlanSpec
  import opened OrgTables

  datatype Tables = Tables(
    departments: Departments,
    sections: Sections,
    departmentCatalog: DepartmentCatalog,
    sectionCatalog: SectionCatalog,
    nextId: Id)

  function PlanOf(loc: Locale, t: Tables, requests: seq<MergeRequest>): Plan {
    PlanFor(loc, LiveDepartments(t.departments, t.nextId), LiveSections(t.sections, t.nextId), requests)
  }

  /** `departmentIdByKey` when the section entries are created. */
  function ParentIds(loc: Locale, t: Tables, plan: Plan): map<string, Id> {
    ReadBack(loc, WithEntries(t.departmentCatalog, plan.departments, t.nextId),
             IdByKey(plan.departments, t.nextId), t.nextId + |plan.departments|)
  }

  /** `createEntries` then `applyMerges`. */
  function Migrate(loc: Locale, t: Tables, plan: Plan): Tables
    requires ParentsKnown(plan.sections, ParentIds(loc, t, plan))
  {
    var base := t.nextId + |plan.departments|;
    Tables(
      Retire(LinkDepartments(t.departments, plan.departments, t.nextId), plan.merges),
      MergeSections(LinkSections(t.sections, plan.sections, base), plan.merges),
      WithEntries(t.departmentCatalog, plan.departments, t.nextId),
      WithSectionEntries(t.sectionCatalog, plan.sections, ParentIds(loc, t, plan), base),
      base + |plan.sections|)
  }
}

/** Step lemmas of the tables, and the rows a run reads. */
module OrgMigration {
  import opened Options
  import opened Sequences
  import opened OrgRows
  import opened OrgPlanSpec
  import opened OrgPlanner
  import opened OrgTables
  import opened OrgMigrationSpec

  lemma {:induction false} EntryIndexSnoc(entries: seq<Entry>, n: nat, id: Id)
    requires n < |entries|
    ensures EntryIndex(entries[..n + 1], id) ==
            if id in entries[n].memberIds then Some(n) else EntryIndex(entries[..n], id)
  {
    assert entries[..n + 1][..n] == entries[..n];
  }

  lemma {:induction false} LinkDepartmentsSnoc(departments: Departments, entries: seq<Entry>, n: nat, base: Id)
    requires n < |entries|
    ensures LinkDepartments(departments, entries[..n + 1], base) ==
            LinkDepartmentMembers(LinkDepartments(departments, entries[..n], base), entries[n], base + n)
  {
    var linked := LinkDepartments(departments, entries[..n], base);
    var a, b := LinkDepartments(departments, entries[..n + 1], base),
      LinkDepartmentMembers(linked, entries[n], base + n);
    forall id | id in departments ensures a[id] == b[id] {
      EntryIndexSnoc(entries, n, id);
      assert linked[id] == LinkDepartment(id, departments[id], entries[..n], base);
      assert a[id] == LinkDepartment(id, departments[id], entries[..n + 1], base);
    }
  }

  lemma {:induction false} LinkSectionsSnoc(sections: Sections, entries: seq<Entry>, n: nat, base: Id)
    requires n < |entries|
    ensures LinkSections(sections, entries[..n + 1], base) ==
            LinkSectionMembers(LinkSections(sections, entries[..n], base), entries[n], base + n)
  {
    var linked := LinkSections(sections, entries[..n], base);
    var a, b := LinkSections(sections, entries[..n + 1], base), LinkSectionMembers(linked, entries[n], base + n);
    forall id | id in sections ensures a[id] == b[id] {
      EntryIndexSnoc(entries, n, id);
      assert linked[id] == LinkSection(id, sections[id], entries[..n], base);
      assert a[id] == LinkSection(id, sections[id], entries[..n + 1], base);
    }
  }

  lemma {:induction false} MergeSectionAllSnoc(id: Id, s: Section, merges: seq<Merge>, n: nat)
    requires n < |merges|
    ensures MergeSectionAll(id, s, merges[..n + 1]) == MergeSection(id, MergeSectionAll(id, s, merges[..n]), merges[n])
  {
    assert merges[..n + 1][..n] == merges[..n];
  }

  lemma {:induction false} MergeSectionsSnoc(sections: Sections, merges: seq<Merge>, n: nat)
    requires n < |merges|
    ensures MergeSections(sections, merges[..n + 1]) ==
            map id | id in sections :: MergeSection(id, MergeSections(sections, merges[..n])[id], merges[n])
  {
    forall id | id in sections
      ensures MergeSections(sections, merges[..n + 1])[id] ==
              MergeSection(id, MergeSections(sections, merges[..n])[id], merges[n])
    {
      MergeSectionAllSnoc(id, sections[id], merges, n);
    }
  }

  lemma {:induction false} RetireSnoc(departments: Departments, merges: seq<Merge>, n: nat)
    requires n < |merges|
    ensures var before, after := Retire(departments, merges[..n]), Retire(departments, merges[..n + 1]);
            var loser := merges[n].loserId;
            after == if loser in before then before[loser := before[loser].(isDeleted := true)] else before
  {
    assert merges[..n + 1] == merges[..n] + [merges[n]];
    forall id | id in departments
      ensures LosesIn(merges[..n + 1], id) <==> LosesIn(merges[..n], id) || merges[n].loserId == id
    {
      LosesInSnoc(merges[..n], merges[n], id);
    }
  }

  // ---------------------------------------------------------------- the rows that are read

  lemma {:induction false} LiveDepartmentsMeaning(departments: Departments, n: Id)
    ensures UniqueIds(LiveDepartments(departments, n))
    ensures forall r :: r in LiveDepartments(departments, n) <==>
              r.id < n && r.id in departments && !departments[r.id].isDeleted &&
                r == DepartmentRow(r.id, departments[r.id])
  {
    if n > 0 {
      LiveDepartmentsMeaning(departments, n - 1);
      var rest := LiveDepartments(departments, n - 1);
      assert forall i :: 0 <= i < |rest| ==> rest[i] in rest && rest[i].id < n - 1;
    }
  }

  lemma {:induction false} LiveSectionsMeaning(sections: Sections, n: Id)
    ensures UniqueIds(LiveSections(sections, n))
    ensures forall r :: r in LiveSections(sections, n) <==>
              r.id < n && r.id in sections && !sections[r.id].isDeleted && r == SectionRow(r.id, sections[r.id])
  {
    if n > 0 {
      LiveSectionsMeaning(sections, n - 1);
      var rest := LiveSections(sections, n - 1);
      assert forall i :: 0 <= i < |rest| ==> rest[i] in rest && rest[i].id < n - 1;
    }
  }
}
