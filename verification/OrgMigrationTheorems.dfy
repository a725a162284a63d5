/** What a written migration leaves behind. */
module OrgMigrationTheorems {
  import opened Options
  import opened Sequences
  import opened OrgRows
  import opened OrgPlanSpec
  import opened OrgPlanner
  import opened OrgPlanTheorems
  import opened OrgEntries
  import opened ReferencesMerges
  import opened OrgTables
  import opened OrgMigrationSpec
  import opened OrgMigration

  // ---------------------------------------------------------------- the starting state

  predicate LiveDepartment(t: Tables, id: Id) {
    id in t.departments && !t.departments[id].isDeleted
  }

  predicate LiveSection(t: Tables, id: Id) {
    id in t.sections && !t.sections[id].isDeleted
  }

  /** Ids are handed out in order, so a new one is fresh. */
  ghost predicate Numbered(t: Tables) {
    && (forall id :: id in t.departments ==> id < t.nextId)
    && (forall id :: id in t.sections ==> id < t.nextId)
    && (forall id :: id in t.departmentCatalog ==> id < t.nextId)
    && (forall id :: id in t.sectionCatalog ==> id < t.nextId)
  }

  ghost predicate NothingLinked(t: Tables) {
    && (forall id :: LiveDepartment(t, id) ==> t.departments[id].catalogId == None)
    && (forall id :: LiveSection(t, id) ==> t.sections[id].catalogId == None)
  }

  ghost predicate CodesUnique(t: Tables) {
    forall a, b :: LiveDepartment(t, a) && LiveDepartment(t, b) && t.departments[a].code == t.departments[b].code ==>
      a == b
  }

  function Fold(loc: Locale, t: Tables, id: Id): string
    requires id in t.departments
  {
    FoldUnitName(loc, t.departments[id].name)
  }

  function DepartmentRows(t: Tables): seq<UnitRow> {
    LiveDepartments(t.departments, t.nextId)
  }

  function SectionRows(t: Tables): seq<UnitRow> {
    LiveSections(t.sections, t.nextId)
  }

  /** A department the plan catalogues: living, not linked by an earlier run, not merged away. */
  predicate OpenDepartment(t: Tables, merges: seq<Merge>, id: Id) {
    LiveDepartment(t, id) && t.departments[id].catalogId == None && !LosesIn(merges, id)
  }

  /** A section the plan catalogues: living and not linked by an earlier run. */
  predicate OpenSection(t: Tables, id: Id) {
    LiveSection(t, id) && t.sections[id].catalogId == None
  }

  function MovedRow(t: Tables, merges: seq<Merge>, id: Id): UnitRow
    requires id in t.sections
  {
    Relocated(merges, SectionRow(id, t.sections[id]))
  }

  function Parents(loc: Locale, t: Tables, merges: seq<Merge>): UnitRow -> Option<string> {
    ParentOf(KeyById(loc, DepartmentRows(t), merges))
  }

  lemma {:induction false} RowsRead(t: Tables)
    requires Numbered(t)
    ensures UniqueIds(DepartmentRows(t)) && UniqueIds(SectionRows(t))
    ensures forall id :: LiveDepartment(t, id) ==> DepartmentRow(id, t.departments[id]) in DepartmentRows(t)
    ensures forall id :: LiveSection(t, id) ==> SectionRow(id, t.sections[id]) in SectionRows(t)
    ensures forall r :: r in DepartmentRows(t) ==>
              LiveDepartment(t, r.id) && r == DepartmentRow(r.id, t.departments[r.id])
    ensures forall r :: r in SectionRows(t) ==> LiveSection(t, r.id) && r == SectionRow(r.id, t.sections[r.id])
  {
    LiveDepartmentsMeaning(t.departments, t.nextId);
    LiveSectionsMeaning(t.sections, t.nextId);
  }

  lemma {:induction false} CodesRead(t: Tables)
    requires Numbered(t) && CodesUnique(t)
    ensures UniqueCodes(DepartmentRows(t))
  {
    RowsRead(t);
    var rows := DepartmentRows(t);
    forall i, j | 0 <= i < j < |rows| ensures rows[i].code != rows[j].code {
      assert rows[i] in rows && rows[j] in rows;
    }
  }

  lemma {:induction false} OpenRows(t: Tables, merges: seq<Merge>)
    requires Numbered(t)
    ensures forall id :: OpenDepartment(t, merges, id) ==>
              DepartmentRow(id, t.departments[id]) in OpenDepartments(DepartmentRows(t), merges)
    ensures forall r :: r in OpenDepartments(DepartmentRows(t), merges) ==>
              OpenDepartment(t, merges, r.id) && r == DepartmentRow(r.id, t.departments[r.id])
  {
    RowsRead(t);
    HavingMember(DepartmentRows(t), OpenOf(merges), true);
    forall id | OpenDepartment(t, merges, id)
      ensures DepartmentRow(id, t.departments[id]) in OpenDepartments(DepartmentRows(t), merges)
    {
      assert OpenOf(merges)(DepartmentRow(id, t.departments[id]));
    }
    forall r | r in OpenDepartments(DepartmentRows(t), merges) ensures OpenDepartment(t, merges, r.id) {
      assert OpenOf(merges)(r);
    }
  }

  lemma {:induction false} OpenSectionRows(t: Tables, merges: seq<Merge>)
    requires Numbered(t)
    ensures forall id :: OpenSection(t, id) ==> MovedRow(t, merges, id) in OpenSections(SectionRows(t), merges)
    ensures forall r :: r in OpenSections(SectionRows(t), merges) ==>
              OpenSection(t, r.id) && r == MovedRow(t, merges, r.id)
  {
    RowsRead(t);
    var rows := Having(SectionRows(t), LinkedOf(), false);
    var moved := OpenSections(SectionRows(t), merges);
    HavingMember(SectionRows(t), LinkedOf(), false);
    forall id | OpenSection(t, id) ensures MovedRow(t, merges, id) in moved {
      var row := SectionRow(id, t.sections[id]);
      assert !LinkedOf()(row) && row in rows;
      var i :| 0 <= i < |rows| && rows[i] == row;
      assert moved[i] == RelocateOf(merges)(row);
    }
    forall r | r in moved ensures OpenSection(t, r.id) && r == MovedRow(t, merges, r.id) {
      var i :| 0 <= i < |moved| && moved[i] == r;
      assert rows[i] in rows && r == RelocateOf(merges)(rows[i]);
      assert !LinkedOf()(rows[i]);
    }
  }

  // ---------------------------------------------------------------- what an accepted plan says

  /** The department entries divide the open departments; no branch holds two of a name. */
  ghost predicate DepartmentPlan(loc: Locale, t: Tables, plan: Plan) {
    var open := OpenDepartments(DepartmentRows(t), plan.merges);
    && Numbered(t)
    && Divides(loc, NoParent(), open, plan.departments)
    && !HoldsTwice(loc, InBranch, open)
  }

  /** The section entries divide the open sections at their new homes, which all exist; no home holds two of a name. */
  ghost predicate SectionPlan(loc: Locale, t: Tables, plan: Plan) {
    var open := OpenSections(SectionRows(t), plan.merges);
    && Numbered(t)
    && Unchained(plan.merges)
    && Divides(loc, Parents(loc, t, plan.merges), open, plan.sections)
    && !HoldsTwice(loc, InDepartment, open)
    && forall r :: r in open ==> Housed(DepartmentRows(t), plan.merges, r)
  }

  lemma {:induction false} AcceptedPlan(loc: Locale, t: Tables, requests: seq<MergeRequest>)
    requires StrictTotalOrder(loc.before) && Numbered(t) && CodesUnique(t) && PlanOf(loc, t, requests).problems == []
    ensures DepartmentPlan(loc, t, PlanOf(loc, t, requests))
    ensures SectionPlan(loc, t, PlanOf(loc, t, requests))
  {
    var departments, sections := DepartmentRows(t), SectionRows(t);
    var plan := PlanFor(loc, departments, sections, requests);
    var keyById := KeyById(loc, departments, plan.merges);
    var open := OpenSections(sections, plan.merges);
    RowsRead(t);
    CodesRead(t);
    PlanAcceptsIff(loc, departments, sections, requests);
    forall r | r in open ensures PlacedOf(keyById)(r) == true {
      PlacedIff(loc, departments, plan.merges, r);
    }
    HavingAll(open, PlacedOf(keyById), true);
    PlanDivides(loc, departments, sections, requests);
    MergesAreSound(loc, departments, sections, requests, |requests|);
  }

  // ---------------------------------------------------------------- which entry a row lands in

  lemma {:induction false} EntryIndexMeaning(entries: seq<Entry>, id: Id)
    ensures EntryIndex(entries, id).Some? ==> id in entries[EntryIndex(entries, id).value].memberIds
    ensures EntryIndex(entries, id).None? ==> forall e :: e in entries ==> id !in e.memberIds
  {
    if entries != [] {
      var n := |entries| - 1;
      EntryIndexMeaning(entries[..n], id);
      assert entries == entries[..n] + [entries[n]];
    }
  }

  /** A row that the entries divide lands in the entry of its own parent and folded name. */
  lemma {:induction false} LandsIn(
    loc: Locale, parentOf: UnitRow -> Option<string>, rows: seq<UnitRow>, entries: seq<Entry>, row: UnitRow)
    returns (j: nat)
    requires Divides(loc, parentOf, rows, entries) && row in rows
    requires forall r :: r in rows && r.id == row.id ==> r == row
    ensures j < |entries| && EntryIndex(entries, row.id) == Some(j) && BelongsTo(loc, parentOf, row, entries[j])
  {
    EntryIndexMeaning(entries, row.id);
    var e :| e in entries && BelongsTo(loc, parentOf, row, e);
    assert Gathers(loc, parentOf, rows, e);
    assert row.id in e.memberIds;
    j := EntryIndex(entries, row.id).value;
    assert entries[j] in entries;
    assert Gathers(loc, parentOf, rows, entries[j]);
    var r :| r in rows && r.id == row.id && BelongsTo(loc, parentOf, r, entries[j]);
  }

  /** A row outside the divided rows is left as it was. */
  lemma {:induction false} LandsNowhere(
    loc: Locale, parentOf: UnitRow -> Option<string>, rows: seq<UnitRow>, entries: seq<Entry>, id: Id)
    requires Divides(loc, parentOf, rows, entries) && forall r :: r in rows ==> r.id != id
    ensures EntryIndex(entries, id) == None
  {
    EntryIndexMeaning(entries, id);
    forall e | e in entries ensures id !in e.memberIds {
      assert Gathers(loc, parentOf, rows, e);
    }
  }

  lemma {:induction false} KeyDecides(entries: seq<Entry>, i: nat, j: nat)
    requires Distinct(Mapped(entries, KeyOfEntry())) && i < |entries| && j < |entries|
    ensures i == j <==> entries[i].parentKey == entries[j].parentKey && entries[i].foldedKey == entries[j].foldedKey
  {
    if i < j {
      assert Mapped(entries, KeyOfEntry())[i] != Mapped(entries, KeyOfEntry())[j];
    } else if j < i {
      assert Mapped(entries, KeyOfEntry())[j] != Mapped(entries, KeyOfEntry())[i];
    }
  }

  /** An entry's own spelling folds to its key. */
  lemma {:induction false} SpellingFolds(
    loc: Locale, parentOf: UnitRow -> Option<string>, rows: seq<UnitRow>, entries: seq<Entry>, e: Entry)
    requires Divides(loc, parentOf, rows, entries) && e in entries
    ensures FoldUnitName(loc, e.name) == e.foldedKey
  {
    assert Gathers(loc, parentOf, rows, e);
  }

  lemma {:induction false} HeldApart(loc: Locale, level: Level, rows: seq<UnitRow>, a: UnitRow, b: UnitRow)
    requires !HoldsTwice(loc, level, rows) && a in rows && b in rows && a != b
    ensures !SameUnit(loc, level, a, b)
  {
    var i :| 0 <= i < |rows| && rows[i] == a;
    var j :| 0 <= j < |rows| && rows[j] == b;
    assert i < j ==> !SameUnit(loc, level, rows[i], rows[j]);
    assert j < i ==> !SameUnit(loc, level, rows[j], rows[i]);
  }

  // ---------------------------------------------------------------- departments

  /** Where a department's catalog link points after `createEntries`. */
  lemma {:induction false} DepartmentLands(loc: Locale, t: Tables, plan: Plan, id: Id) returns (j: nat)
    requires DepartmentPlan(loc, t, plan) && OpenDepartment(t, plan.merges, id)
    ensures j < |plan.departments| && EntryIndex(plan.departments, id) == Some(j)
    ensures plan.departments[j].foldedKey == Fold(loc, t, id) && plan.departments[j].parentKey == None
    ensures FoldUnitName(loc, plan.departments[j].name) == Fold(loc, t, id)
  {
    OpenRows(t, plan.merges);
    var open := OpenDepartments(DepartmentRows(t), plan.merges);
    j := LandsIn(loc, NoParent(), open, plan.departments, DepartmentRow(id, t.departments[id]));
    SpellingFolds(loc, NoParent(), open, plan.departments, plan.departments[j]);
  }

  lemma {:induction false} OthersStay(loc: Locale, t: Tables, plan: Plan, id: Id)
    requires DepartmentPlan(loc, t, plan) && !OpenDepartment(t, plan.merges, id)
    ensures EntryIndex(plan.departments, id) == None
  {
    OpenRows(t, plan.merges);
    LandsNowhere(loc, NoParent(), OpenDepartments(DepartmentRows(t), plan.merges), plan.departments, id);
  }

  /** Two catalogued departments share an entry exactly when their names fold together. */
  lemma {:induction false} ShareIffFold(loc: Locale, t: Tables, plan: Plan, a: Id, b: Id)
    requires DepartmentPlan(loc, t, plan) && OpenDepartment(t, plan.merges, a) && OpenDepartment(t, plan.merges, b)
    ensures EntryIndex(plan.departments, a) == EntryIndex(plan.departments, b) <==> Fold(loc, t, a) == Fold(loc, t, b)
  {
    var i := DepartmentLands(loc, t, plan, a);
    var j := DepartmentLands(loc, t, plan, b);
    KeyDecides(plan.departments, i, j);
  }

  /** THE GATE did its work: one branch has no two catalogued departments of one folded name. */
  lemma {:induction false} BranchHoldsOne(loc: Locale, t: Tables, plan: Plan, a: Id, b: Id)
    requires DepartmentPlan(loc, t, plan) && OpenDepartment(t, plan.merges, a) && OpenDepartment(t, plan.merges, b)
    requires a != b && t.departments[a].branchId == t.departments[b].branchId
    ensures Fold(loc, t, a) != Fold(loc, t, b)
  {
    OpenRows(t, plan.merges);
    HeldApart(loc, InBranch, OpenDepartments(DepartmentRows(t), plan.merges),
              DepartmentRow(a, t.departments[a]), DepartmentRow(b, t.departments[b]));
  }

  // ---------------------------------------------------------------- sections

  /** Where a section stands when the merges are done. */
  function NewHome(merges: seq<Merge>, s: Section): Option<Id> {
    match s.departmentId
    case Some(d) => Some(WinnerFor(merges, d))
    case None => None
  }

  lemma {:induction false} MergedSection(id: Id, s: Section, merges: seq<Merge>)
    requires Unchained(merges)
    ensures var out := MergeSectionAll(id, s, merges);
            && out.departmentId == NewHome(merges, s)
            && out.name == s.name && out.branchId == s.branchId && out.catalogId == s.catalogId
            && out.isDeleted == s.isDeleted
            && (out.path == s.path ||
                (!s.isDeleted && out.departmentId.Some? && out.path == [s.branchId, out.departmentId.value, id]))
            && (out.departmentId != s.departmentId && !s.isDeleted ==>
              out.path == [s.branchId, out.departmentId.value, id])
    decreases |merges|
  {
    if merges != [] {
      var n := |merges| - 1;
      var last := merges[n];
      UnchainedInit(merges);
      MergedSection(id, s, merges[..n]);
      var mid := MergeSectionAll(id, s, merges[..n]);
      if s.departmentId.Some? {
        RenamingStep(merges, s.departmentId.value);
        WinnerForMeaning(merges[..n], s.departmentId.value);
        WinnerForMeaning(merges, s.departmentId.value);
      }
      assert last in merges;
    }
  }

  /** The company-wide parent of a housed section is the folded name of its new home. */
  lemma {:induction false} ParentOfHoused(loc: Locale, t: Tables, merges: seq<Merge>, row: UnitRow)
    requires Numbered(t) && Housed(DepartmentRows(t), merges, row)
    ensures row.departmentId.Some? && LiveDepartment(t, row.departmentId.value)
    ensures t.departments[row.departmentId.value].catalogId == None ==>
              OpenDepartment(t, merges, row.departmentId.value)
    ensures Parents(loc, t, merges)(row) == Some(Fold(loc, t, row.departmentId.value))
  {
    RowsRead(t);
    KeyByIdMeaning(loc, DepartmentRows(t), merges);
    var r :| r in DepartmentRows(t) && row.departmentId == Some(r.id) && (r.catalogId.Some? || !LosesIn(merges, r.id));
    assert r == DepartmentRow(r.id, t.departments[r.id]);
  }

  lemma {:induction false} SectionLands(loc: Locale, t: Tables, plan: Plan, id: Id) returns (j: nat, home: Id)
    requires SectionPlan(loc, t, plan) && OpenSection(t, id)
    ensures j < |plan.sections| && EntryIndex(plan.sections, id) == Some(j)
    ensures NewHome(plan.merges, t.sections[id]) == Some(home) && LiveDepartment(t, home)
    ensures t.departments[home].catalogId == None ==> OpenDepartment(t, plan.merges, home)
    ensures plan.sections[j].parentKey == Some(Fold(loc, t, home))
    ensures plan.sections[j].foldedKey == FoldUnitName(loc, t.sections[id].name)
  {
    OpenSectionRows(t, plan.merges);
    var row := MovedRow(t, plan.merges, id);
    j := LandsIn(loc, Parents(loc, t, plan.merges), OpenSections(SectionRows(t), plan.merges), plan.sections, row);
    ParentOfHoused(loc, t, plan.merges, row);
    home := row.departmentId.value;
  }

  lemma {:induction false} DepartmentHoldsOne(loc: Locale, t: Tables, plan: Plan, a: Id, b: Id)
    requires SectionPlan(loc, t, plan) && OpenSection(t, a) && OpenSection(t, b) && a != b
    requires NewHome(plan.merges, t.sections[a]) == NewHome(plan.merges, t.sections[b])
    ensures FoldUnitName(loc, t.sections[a].name) != FoldUnitName(loc, t.sections[b].name)
  {
    OpenSectionRows(t, plan.merges);
    HeldApart(loc, InDepartment, OpenSections(SectionRows(t), plan.merges),
              MovedRow(t, plan.merges, a), MovedRow(t, plan.merges, b));
  }

  // ---------------------------------------------------------------- the parents of the section entries

  lemma {:induction false} IdByKeyMeaning(entries: seq<Entry>, base: Id)
    ensures forall k :: k in IdByKey(entries, base) ==>
              exists i :: 0 <= i < |entries| && entries[i].foldedKey == k && IdByKey(entries, base)[k] == base + i
    ensures forall i :: 0 <= i < |entries| ==> entries[i].foldedKey in IdByKey(entries, base)
  {
    if entries != [] {
      var n := |entries| - 1;
      var init := entries[..n];
      IdByKeyMeaning(init, base);
      forall k | k in IdByKey(entries, base)
        ensures exists i :: 0 <= i < |entries| && entries[i].foldedKey == k && IdByKey(entries, base)[k] == base + i
      {
        if k != entries[n].foldedKey {
          var i :| 0 <= i < n && init[i].foldedKey == k && IdByKey(init, base)[k] == base + i;
          assert entries[i].foldedKey == k;
        }
      }
      forall i | 0 <= i < |entries| ensures entries[i].foldedKey in IdByKey(entries, base) {
        assert i < n ==> init[i] == entries[i];
      }
    }
  }

  lemma {:induction false} ReadBackKeeps(loc: Locale, catalog: DepartmentCatalog, known: map<string, Id>, n: Id)
    ensures forall k :: k in known ==>
              k in ReadBack(loc, catalog, known, n) && ReadBack(loc, catalog, known, n)[k] == known[k]
  {
    if n > 0 {
      ReadBackKeeps(loc, catalog, known, n - 1);
    }
  }

  lemma {:induction false} IdOfEntry(entries: seq<Entry>, base: Id, j: nat)
    requires Distinct(Mapped(entries, KeyOfEntry())) && j < |entries|
    requires forall e :: e in entries ==> e.parentKey == None
    ensures entries[j].foldedKey in IdByKey(entries, base) && IdByKey(entries, base)[entries[j].foldedKey] == base + j
  {
    IdByKeyMeaning(entries, base);
    var key, known := entries[j].foldedKey, IdByKey(entries, base);
    var i :| 0 <= i < |entries| && entries[i].foldedKey == key && known[key] == base + i;
    assert entries[i] in entries && entries[j] in entries;
    KeyDecides(entries, i, j);
  }

  lemma {:induction false} NoParents(loc: Locale, rows: seq<UnitRow>, entries: seq<Entry>)
    requires Divides(loc, NoParent(), rows, entries)
    ensures forall e :: e in entries ==> e.parentKey == None
  {
    forall e | e in entries ensures e.parentKey == None {
      assert Gathers(loc, NoParent(), rows, e);
      var oldest :| oldest in rows && BelongsTo(loc, NoParent(), oldest, e);
    }
  }

  /** A section entry under a catalogued department hangs from that department's own entry. */
  lemma {:induction false} ParentIs(loc: Locale, t: Tables, plan: Plan, d: Id)
    requires DepartmentPlan(loc, t, plan) && OpenDepartment(t, plan.merges, d)
    ensures Fold(loc, t, d) in ParentIds(loc, t, plan) && EntryIndex(plan.departments, d).Some?
    ensures ParentIds(loc, t, plan)[Fold(loc, t, d)] == t.nextId + EntryIndex(plan.departments, d).value
  {
    hide ReadBack, IdByKey, WithEntries, EntryIndex, Gathers, HoldsTwice, Distinct, OpenDepartment, FoldUnitName;
    var j := DepartmentLands(loc, t, plan, d);
    NoParents(loc, OpenDepartments(DepartmentRows(t), plan.merges), plan.departments);
    IdOfEntry(plan.departments, t.nextId, j);
    ReadBackKeeps(loc, WithEntries(t.departmentCatalog, plan.departments, t.nextId),
                  IdByKey(plan.departments, t.nextId), t.nextId + |plan.departments|);
  }

  /** Every section entry has a row, and that row's new home gives its parent key. */
  lemma {:induction false} EntryHasHome(loc: Locale, t: Tables, plan: Plan, i: nat) returns (home: Id)
    requires SectionPlan(loc, t, plan) && i < |plan.sections|
    ensures LiveDepartment(t, home) && plan.sections[i].parentKey == Some(Fold(loc, t, home))
    ensures t.departments[home].catalogId == None ==> OpenDepartment(t, plan.merges, home)
  {
    var open := OpenSections(SectionRows(t), plan.merges);
    var e := plan.sections[i];
    assert e in plan.sections && Gathers(loc, Parents(loc, t, plan.merges), open, e);
    var row :| row in open && BelongsTo(loc, Parents(loc, t, plan.merges), row, e);
    ParentOfHoused(loc, t, plan.merges, row);
    home := row.departmentId.value;
  }

  /** From a state with nothing linked, no section entry is left without a parent. */
  lemma {:induction false} ParentsAreKnown(loc: Locale, t: Tables, plan: Plan)
    requires DepartmentPlan(loc, t, plan) && SectionPlan(loc, t, plan) && NothingLinked(t)
    ensures ParentsKnown(plan.sections, ParentIds(loc, t, plan))
  {
    forall i | 0 <= i < |plan.sections|
      ensures plan.sections[i].parentKey.Some? && plan.sections[i].parentKey.value in ParentIds(loc, t, plan)
    {
      var home := EntryHasHome(loc, t, plan, i);
      ParentIs(loc, t, plan, home);
    }
  }
}
