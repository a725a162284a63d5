/** The end-to-end theorem of the org-catalog migration, its exact limit, and its idempotence. */
module OrgCatalogTheorem {
  import opened Options
  import opened Sequences
  import opened OrgRows
  import opened OrgPlanSpec
  import opened OrgPlanner
  import opened OrgPlanTheorems
  import opened OrgEntries
  import opened ReferencesMerges
  import opened OrgTables
  import opened OrgMigrationSpec
  import opened OrgMigration
  import opened OrgMigrationTheorems

  // ---------------------------------------------------------------- the state after a run, row by row

  lemma {:induction false} NewEntryAt(catalog: DepartmentCatalog, entries: seq<Entry>, base: Id, j: nat)
    requires j < |entries|
    ensures base + j in WithEntries(catalog, entries, base)
    ensures WithEntries(catalog, entries, base)[base + j] == CatalogEntry(entries[j].code, entries[j].name, false)
    decreases |entries|
  {
    var n := |entries| - 1;
    if j < n {
      NewEntryAt(catalog, entries[..n], base, j);
    }
  }

  lemma {:induction false} NewSectionEntryAt(
    catalog: SectionCatalog, entries: seq<Entry>, idByKey: map<string, Id>, base: Id, j: nat)
    requires ParentsKnown(entries, idByKey) && j < |entries|
    ensures base + j in WithSectionEntries(catalog, entries, idByKey, base)
    ensures WithSectionEntries(catalog, entries, idByKey, base)[base + j] ==
            SectionCatalogEntry(entries[j].code, entries[j].name, idByKey[entries[j].parentKey.value], false)
    decreases |entries|
  {
    var n := |entries| - 1;
    if j < n {
      NewSectionEntryAt(catalog, entries[..n], idByKey, base, j);
    }
  }

  /** A plan that can be written. */
  ghost predicate Writable(loc: Locale, t: Tables, plan: Plan) {
    && DepartmentPlan(loc, t, plan) && SectionPlan(loc, t, plan)
    && ParentsKnown(plan.sections, ParentIds(loc, t, plan))
  }

  lemma {:induction false} MigratedDepartment(loc: Locale, t: Tables, plan: Plan, id: Id)
    requires Writable(loc, t, plan)
    ensures var t' := Migrate(loc, t, plan);
            && (LiveDepartment(t', id) <==> LiveDepartment(t, id) && !LosesIn(plan.merges, id))
            && (LiveDepartment(t', id) ==>
                  && t'.departments[id].branchId == t.departments[id].branchId
                  && if t.departments[id].catalogId.Some?
                     then t'.departments[id].catalogId == t.departments[id].catalogId &&
                       t'.departments[id].name == t.departments[id].name
                     else
                       && EntryIndex(plan.departments, id).Some?
                       && t'.departments[id].catalogId == Some(t.nextId + EntryIndex(plan.departments, id).value)
                       && t'.departments[id].catalogId.value in t'.departmentCatalog
                       && FoldUnitName(loc, t'.departments[id].name) == Fold(loc, t, id))
  {
    if LiveDepartment(t, id) && !LosesIn(plan.merges, id) {
      if OpenDepartment(t, plan.merges, id) {
        var j := DepartmentLands(loc, t, plan, id);
        NewEntryAt(t.departmentCatalog, plan.departments, t.nextId, j);
      } else {
        OthersStay(loc, t, plan, id);
      }
    }
  }

  lemma {:induction false} MigratedSection(loc: Locale, t: Tables, plan: Plan, id: Id)
    requires Writable(loc, t, plan)
    ensures var t' := Migrate(loc, t, plan);
            && (LiveSection(t', id) <==> LiveSection(t, id))
            && (LiveSection(t, id) ==>
                  && t'.sections[id].departmentId == NewHome(plan.merges, t.sections[id])
                  && t'.sections[id].branchId == t.sections[id].branchId
                  && (PathStands(t, id) ==> PathStands(t', id)))
  {
    if id in t.sections {
      var base := t.nextId + |plan.departments|;
      MergedSection(id, LinkSection(id, t.sections[id], plan.sections, base), plan.merges);
    }
  }

  /** `path` is branch/department/section. */
  ghost predicate PathStands(t: Tables, id: Id)
    requires id in t.sections
  {
    t.sections[id].departmentId.Some? ==>
      t.sections[id].path == [t.sections[id].branchId, t.sections[id].departmentId.value, id]
  }

  /** An open section is linked to an entry that hangs from its new home's own entry. */
  lemma {:induction false} SectionLinked(loc: Locale, t: Tables, plan: Plan, id: Id) returns (j: nat, home: Id)
    requires Writable(loc, t, plan) && OpenSection(t, id)
    ensures var t' := Migrate(loc, t, plan);
            var base := t.nextId + |plan.departments|;
            && EntryIndex(plan.sections, id) == Some(j) && j < |plan.sections|
            && t'.sections[id].catalogId == Some(base + j) && base + j in t'.sectionCatalog
            && t'.sections[id].departmentId == Some(home) && LiveDepartment(t, home)
            && (t.departments[home].catalogId == None ==> OpenDepartment(t, plan.merges, home))
            && plan.sections[j].foldedKey == FoldUnitName(loc, t.sections[id].name)
            && plan.sections[j].parentKey == Some(Fold(loc, t, home))
            && Fold(loc, t, home) in ParentIds(loc, t, plan)
            && t'.sectionCatalog[base + j].departmentCatalogId == ParentIds(loc, t, plan)[Fold(loc, t, home)]
  {
    var base := t.nextId + |plan.departments|;
    j, home := SectionLands(loc, t, plan, id);
    MergedSection(id, LinkSection(id, t.sections[id], plan.sections, base), plan.merges);
    NewSectionEntryAt(t.sectionCatalog, plan.sections, ParentIds(loc, t, plan), base, j);
  }

  // ---------------------------------------------------------------- the theorem

  /** Every living department has one entry; two share it exactly when their names fold together. */
  ghost predicate SharesByFold(loc: Locale, t: Tables, t': Tables) {
    forall a, b :: LiveDepartment(t', a) && LiveDepartment(t', b) && a in t.departments && b in t.departments ==>
      && t'.departments[a].catalogId.Some?
      && (t'.departments[a].catalogId == t'.departments[b].catalogId <==> Fold(loc, t, a) == Fold(loc, t, b))
  }

  predicate InOneBranch(t: Tables, a: Id, b: Id)
    requires a in t.departments && b in t.departments
  {
    t.departments[a].branchId == t.departments[b].branchId
  }

  /** No branch holds two departments of one entry. */
  ghost predicate OnePerBranch(t: Tables) {
    forall a, b :: LiveDepartment(t, a) && LiveDepartment(t, b) && a != b && InOneBranch(t, a, b) ==>
      t.departments[a].catalogId != t.departments[b].catalogId
  }

  /** No department holds two sections of one entry. */
  ghost predicate OnePerDepartment(t: Tables) {
    forall a, b ::
      LiveSection(t, a) && LiveSection(t, b) && a != b && t.sections[a].departmentId == t.sections[b].departmentId ==>
      t.sections[a].catalogId != t.sections[b].catalogId
  }

  /** A living section stands under a living department, and its entry hangs from that department's entry. */
  ghost predicate HangsRight(t: Tables, id: Id)
    requires id in t.sections
  {
    && t.sections[id].departmentId.Some? && LiveDepartment(t, t.sections[id].departmentId.value)
    && t.sections[id].catalogId.Some? && t.sections[id].catalogId.value in t.sectionCatalog
    && Some(t.sectionCatalog[t.sections[id].catalogId.value].departmentCatalogId) ==
       t.departments[t.sections[id].departmentId.value].catalogId
  }

  /** A department's link names an existing entry, and its spelling still folds as it did. */
  ghost predicate Listed(loc: Locale, t: Tables, t': Tables, id: Id)
    requires id in t'.departments
  {
    && id in t.departments && t'.departments[id].catalogId.Some?
    && t'.departments[id].catalogId.value in t'.departmentCatalog
    && FoldUnitName(loc, t'.departments[id].name) == Fold(loc, t, id)
  }

  ghost predicate Catalogued(loc: Locale, t: Tables, t': Tables) {
    && SharesByFold(loc, t, t')
    && (forall id :: LiveDepartment(t', id) ==> Listed(loc, t, t', id))
    && OnePerBranch(t')
    && OnePerDepartment(t')
    && (forall id :: LiveSection(t', id) ==> HangsRight(t', id))
    && (forall id :: LiveSection(t', id) ==> PathStands(t', id))
  }

  lemma {:induction false} DepartmentsCatalogued(loc: Locale, t: Tables, plan: Plan)
    requires Writable(loc, t, plan) && NothingLinked(t)
    ensures SharesByFold(loc, t, Migrate(loc, t, plan))
  {
    hide Migrate, DepartmentPlan, SectionPlan, ParentsKnown, ParentIds, EntryIndex, FoldUnitName;
    var t' := Migrate(loc, t, plan);
    forall a, b | LiveDepartment(t', a) && LiveDepartment(t', b) && a in t.departments && b in t.departments
      ensures t'.departments[a].catalogId.Some?
      ensures t'.departments[a].catalogId == t'.departments[b].catalogId <==> Fold(loc, t, a) == Fold(loc, t, b)
    {
      MigratedDepartment(loc, t, plan, a);
      MigratedDepartment(loc, t, plan, b);
      ShareIffFold(loc, t, plan, a, b);
    }
  }

  lemma {:induction false} BranchesHoldOne(loc: Locale, t: Tables, plan: Plan)
    requires Writable(loc, t, plan) && NothingLinked(t)
    ensures OnePerBranch(Migrate(loc, t, plan))
  {
    var t' := Migrate(loc, t, plan);
    forall a, b | LiveDepartment(t', a) && LiveDepartment(t', b) && a != b &&
      t'.departments[a].branchId == t'.departments[b].branchId
      ensures t'.departments[a].catalogId != t'.departments[b].catalogId
    {
      MigratedDepartment(loc, t, plan, a);
      MigratedDepartment(loc, t, plan, b);
      BranchHoldsOne(loc, t, plan, a, b);
      ShareIffFold(loc, t, plan, a, b);
    }
  }

  lemma {:induction false} SectionHangsRight(loc: Locale, t: Tables, plan: Plan, id: Id)
    requires Writable(loc, t, plan) && NothingLinked(t) && LiveSection(t, id)
    ensures id in Migrate(loc, t, plan).sections && HangsRight(Migrate(loc, t, plan), id)
  {
    var j, home := SectionLinked(loc, t, plan, id);
    MigratedDepartment(loc, t, plan, home);
    ParentIs(loc, t, plan, home);
  }

  lemma {:induction false} SectionsApart(loc: Locale, t: Tables, plan: Plan, a: Id, b: Id)
    requires Writable(loc, t, plan) && OpenSection(t, a) && OpenSection(t, b) && a != b
    requires Migrate(loc, t, plan).sections[a].departmentId == Migrate(loc, t, plan).sections[b].departmentId
    ensures Migrate(loc, t, plan).sections[a].catalogId != Migrate(loc, t, plan).sections[b].catalogId
  {
    var i, home := SectionLinked(loc, t, plan, a);
    var j, home' := SectionLinked(loc, t, plan, b);
    MigratedSection(loc, t, plan, a);
    MigratedSection(loc, t, plan, b);
    DepartmentHoldsOne(loc, t, plan, a, b);
  }

  /**
   * From any database with nothing yet linked: whenever the plan has no problems, the run can be
   * written, and it leaves every unit catalogued.
   */
  lemma {:induction false} MigrationCatalogues(loc: Locale, t: Tables, requests: seq<MergeRequest>)
    requires StrictTotalOrder(loc.before) && Numbered(t) && CodesUnique(t) && NothingLinked(t)
    requires forall id :: LiveSection(t, id) ==> PathStands(t, id)
    requires PlanOf(loc, t, requests).problems == []
    ensures ParentsKnown(PlanOf(loc, t, requests).sections, ParentIds(loc, t, PlanOf(loc, t, requests)))
    ensures Catalogued(loc, t, Migrate(loc, t, PlanOf(loc, t, requests)))
  {
    var plan := PlanOf(loc, t, requests);
    AcceptedPlan(loc, t, requests);
    ParentsAreKnown(loc, t, plan);
    WritableCatalogues(loc, t, plan);
  }

  lemma {:induction false} WritableCatalogues(loc: Locale, t: Tables, plan: Plan)
    requires Writable(loc, t, plan) && NothingLinked(t)
    requires forall id :: LiveSection(t, id) ==> PathStands(t, id)
    ensures Catalogued(loc, t, Migrate(loc, t, plan))
  {
    var t' := Migrate(loc, t, plan);
    DepartmentsCatalogued(loc, t, plan);
    BranchesHoldOne(loc, t, plan);
    forall id | LiveDepartment(t', id) ensures Listed(loc, t, t', id) {
      MigratedDepartment(loc, t, plan, id);
    }
    forall id | LiveSection(t', id) ensures HangsRight(t', id) && PathStands(t', id) {
      MigratedSection(loc, t, plan, id);
      SectionHangsRight(loc, t, plan, id);
    }
    forall a, b | LiveSection(t', a) && LiveSection(t', b) && a != b &&
      t'.sections[a].departmentId == t'.sections[b].departmentId
      ensures t'.sections[a].catalogId != t'.sections[b].catalogId
    {
      MigratedSection(loc, t, plan, a);
      MigratedSection(loc, t, plan, b);
      SectionsApart(loc, t, plan, a, b);
    }
  }

  // ---------------------------------------------------------------- the exact limit on a re-run

  /** Linked departments already share their entries by fold, under ids handed out before. */
  ghost predicate LinkedByFold(loc: Locale, t: Tables) {
    && (forall a :: LinkedDepartment(t, a) ==> t.departments[a].catalogId.value < t.nextId)
    && (forall a, b :: LinkedDepartment(t, a) && LinkedDepartment(t, b) ==>
          (t.departments[a].catalogId == t.departments[b].catalogId <==> Fold(loc, t, a) == Fold(loc, t, b)))
  }

  predicate LinkedDepartment(t: Tables, id: Id) {
    LiveDepartment(t, id) && t.departments[id].catalogId.Some?
  }

  /** A department to be catalogued whose name folds like one an earlier run linked. */
  ghost predicate LateComer(loc: Locale, t: Tables, merges: seq<Merge>) {
    exists a, b :: OpenDepartment(t, merges, a) && LiveDepartment(t, b) && t.departments[b].catalogId.Some? &&
      !LosesIn(merges, b) && Fold(loc, t, a) == Fold(loc, t, b)
  }

  lemma {:induction false} PairAfterRerun(loc: Locale, t: Tables, plan: Plan, a: Id, b: Id)
    requires Writable(loc, t, plan) && LinkedByFold(loc, t)
    requires LiveDepartment(t, a) && !LosesIn(plan.merges, a) && LiveDepartment(t, b) && !LosesIn(plan.merges, b)
    ensures var t' := Migrate(loc, t, plan);
            && a in t'.departments && b in t'.departments && t'.departments[a].catalogId.Some?
            && (t'.departments[a].catalogId == t'.departments[b].catalogId <==>
                Fold(loc, t, a) == Fold(loc, t, b) &&
                t.departments[a].catalogId.Some? == t.departments[b].catalogId.Some?)
  {
    MigratedDepartment(loc, t, plan, a);
    MigratedDepartment(loc, t, plan, b);
    if t.departments[a].catalogId.None? && t.departments[b].catalogId.None? {
      ShareIffFold(loc, t, plan, a, b);
    }
  }

  /**
   * On a re-run over a partly linked database, sharing follows the folded names exactly when no new
   * department folds like a linked one: such a late comer gets an entry of its own.
   */
  lemma {:induction false} RerunSharesIff(loc: Locale, t: Tables, plan: Plan)
    requires Writable(loc, t, plan) && LinkedByFold(loc, t)
    ensures SharesByFold(loc, t, Migrate(loc, t, plan)) <==> !LateComer(loc, t, plan.merges)
  {
    var t' := Migrate(loc, t, plan);
    if LateComer(loc, t, plan.merges) {
      var a, b :| OpenDepartment(t, plan.merges, a) && LiveDepartment(t, b) && t.departments[b].catalogId.Some? &&
        !LosesIn(plan.merges, b) && Fold(loc, t, a) == Fold(loc, t, b);
      MigratedDepartment(loc, t, plan, a);
      MigratedDepartment(loc, t, plan, b);
      PairAfterRerun(loc, t, plan, a, b);
      assert LiveDepartment(t', a) && LiveDepartment(t', b);
    } else {
      forall a, b | LiveDepartment(t', a) && LiveDepartment(t', b) && a in t.departments && b in t.departments
        ensures t'.departments[a].catalogId.Some?
        ensures t'.departments[a].catalogId == t'.departments[b].catalogId <==> Fold(loc, t, a) == Fold(loc, t, b)
      {
        MigratedDepartment(loc, t, plan, a);
        MigratedDepartment(loc, t, plan, b);
        PairAfterRerun(loc, t, plan, a, b);
        if Fold(loc, t, a) == Fold(loc, t, b) {
          assert OpenDepartment(t, plan.merges, a) ==> t.departments[b].catalogId.None?;
          assert OpenDepartment(t, plan.merges, b) ==> t.departments[a].catalogId.None?;
        }
      }
    }
  }

  // ---------------------------------------------------------------- section entries on a re-run

  /** The first living catalog entry below `n` whose name folds to a key. */
  function FirstNamed(loc: Locale, catalog: DepartmentCatalog, key: string, n: Id): Option<Id> {
    if n == 0 then None
    else
      var first := FirstNamed(loc, catalog, key, n - 1);
      if first.Some? then first
      else if n - 1 in catalog && !catalog[n - 1].isDeleted &&
        FoldUnitName(loc, catalog[n - 1].name) == key then Some(n - 1)
      else None
  }

  lemma {:induction false} ReadBackFinds(
    loc: Locale, catalog: DepartmentCatalog, known: map<string, Id>, n: Id, key: string)
    ensures var found := ReadBack(loc, catalog, known, n);
            var first := FirstNamed(loc, catalog, key, n);
            if key in known then key in found && found[key] == known[key]
            else (key in found <==> first.Some?) && (key in found ==> found[key] == first.value)
  {
    if n > 0 {
      ReadBackFinds(loc, catalog, known, n - 1, key);
    }
  }

  lemma {:induction false} OldEntriesStay(catalog: DepartmentCatalog, entries: seq<Entry>, base: Id, id: Id)
    requires id < base
    ensures var after := WithEntries(catalog, entries, base);
            (id in after <==> id in catalog) && (id in after ==> after[id] == catalog[id])
    decreases |entries|
  {
    if entries != [] {
      OldEntriesStay(catalog, entries[..|entries| - 1], base, id);
    }
  }

  /** This run's own entries are no answer for a key they do not carry. */
  lemma {:induction false} FirstIsOld(
    loc: Locale, catalog: DepartmentCatalog, entries: seq<Entry>, base: Id, key: string, n: Id)
    requires n <= base + |entries| && forall e :: e in entries ==> FoldUnitName(loc, e.name) != key
    ensures FirstNamed(loc, WithEntries(catalog, entries, base), key, n) ==
            FirstNamed(loc, catalog, key, if n <= base then n else base)
    decreases n
  {
    if n > 0 {
      FirstIsOld(loc, catalog, entries, base, key, n - 1);
      if n - 1 < base {
        OldEntriesStay(catalog, entries, base, n - 1);
      } else {
        NewEntryAt(catalog, entries, base, n - 1 - base);
        assert entries[n - 1 - base] in entries;
      }
    }
  }

  /** Some department this run catalogues folds to the key. */
  ghost predicate Reopened(loc: Locale, t: Tables, merges: seq<Merge>, key: string) {
    exists d :: OpenDepartment(t, merges, d) && Fold(loc, t, d) == key
  }

  lemma {:induction false} KeyIsOpen(loc: Locale, t: Tables, plan: Plan, key: string)
    requires DepartmentPlan(loc, t, plan)
    ensures key in IdByKey(plan.departments, t.nextId) <==> Reopened(loc, t, plan.merges, key)
    ensures !Reopened(loc, t, plan.merges, key) ==> forall e :: e in plan.departments ==>
              FoldUnitName(loc, e.name) != key
  {
    IdByKeyMeaning(plan.departments, t.nextId);
    var open := OpenDepartments(DepartmentRows(t), plan.merges);
    OpenRows(t, plan.merges);
    forall e | e in plan.departments ensures Reopened(loc, t, plan.merges, e.foldedKey) {
      assert Gathers(loc, NoParent(), open, e);
      var r :| r in open && BelongsTo(loc, NoParent(), r, e);
      assert OpenDepartment(t, plan.merges, r.id) && Fold(loc, t, r.id) == e.foldedKey;
    }
    forall e | e in plan.departments ensures FoldUnitName(loc, e.name) == e.foldedKey {
      SpellingFolds(loc, NoParent(), open, plan.departments, e);
    }
    if key in IdByKey(plan.departments, t.nextId) {
      var i :| 0 <= i < |plan.departments| && plan.departments[i].foldedKey == key;
      assert plan.departments[i] in plan.departments;
    }
    if d :| OpenDepartment(t, plan.merges, d) && Fold(loc, t, d) == key {
      var j := DepartmentLands(loc, t, plan, d);
    }
  }

  /** Where a section entry hangs: this run's entry for the key, else the first living one of that name. */
  lemma {:induction false} ParentIdsMean(loc: Locale, t: Tables, plan: Plan, key: string)
    requires DepartmentPlan(loc, t, plan)
    ensures var ids := ParentIds(loc, t, plan);
            var first := FirstNamed(loc, t.departmentCatalog, key, t.nextId);
            && (key in ids <==> Reopened(loc, t, plan.merges, key) || first.Some?)
            && (key in ids && !Reopened(loc, t, plan.merges, key) ==> ids[key] == first.value)
            && (key in ids && Reopened(loc, t, plan.merges, key) ==> ids[key] >= t.nextId)
  {
    hide DepartmentPlan, ReadBack, IdByKey, FirstNamed, Reopened, WithEntries, FoldUnitName;
    KeyIsOpen(loc, t, plan, key);
    IdByKeyMeaning(plan.departments, t.nextId);
    var n := t.nextId + |plan.departments|;
    ReadBackFinds(loc, WithEntries(t.departmentCatalog, plan.departments, t.nextId),
      IdByKey(plan.departments, t.nextId), n, key);
    if !Reopened(loc, t, plan.merges, key) {
      FirstIsOld(loc, t.departmentCatalog, plan.departments, t.nextId, key, n);
    }
  }

  /** A section to be catalogued whose home has an entry to hang it from. */
  ghost predicate HasParent(loc: Locale, t: Tables, merges: seq<Merge>, id: Id)
    requires id in t.sections
  {
    var home := NewHome(merges, t.sections[id]);
    home.Some? && home.value in t.departments &&
    (Reopened(loc, t, merges, Fold(loc, t, home.value)) ||
     FirstNamed(loc, t.departmentCatalog, Fold(loc, t, home.value), t.nextId).Some?)
  }

  /**
   * No section entry is left without a parent exactly when every new section's home shares its folded name
   * with a department this run catalogues or with a living catalog entry.
   */
  lemma {:induction false} ParentsKnownIff(loc: Locale, t: Tables, plan: Plan)
    requires DepartmentPlan(loc, t, plan) && SectionPlan(loc, t, plan)
    ensures ParentsKnown(plan.sections, ParentIds(loc, t, plan)) <==>
            forall id :: OpenSection(t, id) ==> HasParent(loc, t, plan.merges, id)
  {
    if ParentsKnown(plan.sections, ParentIds(loc, t, plan)) {
      forall id | OpenSection(t, id) ensures HasParent(loc, t, plan.merges, id) {
        var j, home := SectionLands(loc, t, plan, id);
        ParentIdsMean(loc, t, plan, Fold(loc, t, home));
      }
    }
    if forall id :: OpenSection(t, id) ==> HasParent(loc, t, plan.merges, id) {
      forall i | 0 <= i < |plan.sections|
        ensures plan.sections[i].parentKey.Some? && plan.sections[i].parentKey.value in ParentIds(loc, t, plan)
      {
        var id, home := EntryHasSection(loc, t, plan, i);
        ParentIdsMean(loc, t, plan, Fold(loc, t, home));
      }
    }
  }

  lemma {:induction false} EntryHasSection(loc: Locale, t: Tables, plan: Plan, i: nat) returns (id: Id, home: Id)
    requires SectionPlan(loc, t, plan) && i < |plan.sections|
    ensures OpenSection(t, id) && NewHome(plan.merges, t.sections[id]) == Some(home) && home in t.departments
    ensures plan.sections[i].parentKey == Some(Fold(loc, t, home))
  {
    var open := OpenSections(SectionRows(t), plan.merges);
    var e := plan.sections[i];
    assert e in plan.sections && Gathers(loc, Parents(loc, t, plan.merges), open, e);
    var row :| row in open && BelongsTo(loc, Parents(loc, t, plan.merges), row, e);
    OpenSectionRows(t, plan.merges);
    ParentOfHoused(loc, t, plan.merges, row);
    id, home := row.id, row.departmentId.value;
  }

  /**
   * The home is catalogued by this run, or linked to the first living entry of its name with no late comer beside it.
   */
  ghost predicate HomeKeepsItsEntry(loc: Locale, t: Tables, merges: seq<Merge>, home: Id)
    requires home in t.departments
  {
    || OpenDepartment(t, merges, home)
    || (!Reopened(loc, t, merges, Fold(loc, t, home)) &&
        FirstNamed(loc, t.departmentCatalog, Fold(loc, t, home), t.nextId) == t.departments[home].catalogId)
  }

  /**
   * A new section's entry hangs from its home's own entry exactly when the home is new too, or is linked to
   * the first living entry of its name and no department of that name is catalogued beside it.
   */
  lemma {:induction false} RerunHangsIff(loc: Locale, t: Tables, plan: Plan, id: Id)
    requires Writable(loc, t, plan) && OpenSection(t, id)
    requires forall d :: LiveDepartment(t, d) && t.departments[d].catalogId.Some? ==>
               t.departments[d].catalogId.value < t.nextId
    ensures var home := NewHome(plan.merges, t.sections[id]);
            && home.Some? && home.value in t.departments
            && id in Migrate(loc, t, plan).sections
            && (HangsRight(Migrate(loc, t, plan), id) <==> HomeKeepsItsEntry(loc, t, plan.merges, home.value))
  {
    var j, home := SectionLinked(loc, t, plan, id);
    MigratedSection(loc, t, plan, id);
    MigratedDepartment(loc, t, plan, home);
    RenamingAvoidsLosers(plan.merges, t.sections[id].departmentId.value);
    ParentIdsMean(loc, t, plan, Fold(loc, t, home));
    if OpenDepartment(t, plan.merges, home) {
      ParentIs(loc, t, plan, home);
    }
  }

  // ---------------------------------------------------------------- running it twice

  /** A written run leaves no living row unlinked. */
  lemma {:induction false} EverythingLinked(loc: Locale, t: Tables, plan: Plan)
    requires Writable(loc, t, plan)
    ensures var t' := Migrate(loc, t, plan);
            && (forall id :: LiveDepartment(t', id) ==> t'.departments[id].catalogId.Some?)
            && (forall id :: LiveSection(t', id) ==> t'.sections[id].catalogId.Some?)
  {
    var t' := Migrate(loc, t, plan);
    forall id | LiveDepartment(t', id) ensures t'.departments[id].catalogId.Some? {
      MigratedDepartment(loc, t, plan, id);
    }
    forall id | LiveSection(t', id) ensures t'.sections[id].catalogId.Some? {
      MigratedSection(loc, t, plan, id);
      if OpenSection(t, id) {
        var j, home := SectionLinked(loc, t, plan, id);
      } else {
        var base := t.nextId + |plan.departments|;
        MergedSection(id, LinkSection(id, t.sections[id], plan.sections, base), plan.merges);
      }
    }
  }

  lemma {:induction false} HavingNone<T(!new), K(!new)>(s: seq<T>, key: T -> K, k: K)
    requires forall x :: x in s ==> key(x) != k
    ensures Having(s, key, k) == []
  {
    HavingMember(s, key, k);
    assert Having(s, key, k) != [] ==> Having(s, key, k)[0] in Having(s, key, k);
  }

  /** With every row linked and nothing asked for, there is nothing to plan. */
  lemma {:induction false} NothingToPlan(loc: Locale, departments: seq<UnitRow>, sections: seq<UnitRow>)
    requires forall r :: r in departments ==> r.catalogId.Some?
    requires forall r :: r in sections ==> r.catalogId.Some?
    ensures var plan := PlanFor(loc, departments, sections, []);
            plan.departments == [] && plan.sections == [] && plan.merges == [] && plan.problems == []
  {
    HavingNone(departments, OpenOf([]), true);
    HavingNone(sections, LinkedOf(), false);
    assert OpenDepartments(departments, []) == [];
    assert OpenSections(sections, []) == [];
  }

  /** Planning again over the state a written run left, with no merges, yields no entries and no problems. */
  lemma {:induction false} SecondRunPlansNothing(loc: Locale, t: Tables, requests: seq<MergeRequest>)
    requires StrictTotalOrder(loc.before) && Numbered(t) && CodesUnique(t)
    requires PlanOf(loc, t, requests).problems == []
    requires ParentsKnown(PlanOf(loc, t, requests).sections, ParentIds(loc, t, PlanOf(loc, t, requests)))
    ensures var again := PlanOf(loc, Migrate(loc, t, PlanOf(loc, t, requests)), []);
            again.departments == [] && again.sections == [] && again.merges == [] && again.problems == []
  {
    var plan := PlanOf(loc, t, requests);
    AcceptedPlan(loc, t, requests);
    EverythingLinked(loc, t, plan);
    LinkedRowsPlanNothing(loc, Migrate(loc, t, plan));
  }

  lemma {:induction false} LinkedRowsPlanNothing(loc: Locale, t: Tables)
    requires forall id :: LiveDepartment(t, id) ==> t.departments[id].catalogId.Some?
    requires forall id :: LiveSection(t, id) ==> t.sections[id].catalogId.Some?
    ensures var again := PlanOf(loc, t, []);
            again.departments == [] && again.sections == [] && again.merges == [] && again.problems == []
  {
    LiveDepartmentsMeaning(t.departments, t.nextId);
    LiveSectionsMeaning(t.sections, t.nextId);
    NothingToPlan(loc, DepartmentRows(t), SectionRows(t));
  }
}
