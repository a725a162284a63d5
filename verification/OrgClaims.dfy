/** What the unique indexes of the four org collections have to say about a run. */
module OrgClaims {
  import opened Options
  import opened Sequences
  import opened OrgRows
  import opened OrgPlanSpec
  import opened OrgPlanner
  import opened OrgPlanTheorems
  import opened OrgEntries
  import opened OrgReadOrder
  import opened References
  import opened ReferencesTheorems
  import opened ReferencesMerges
  import opened ReferencesSurvey
  import opened ReferencesIndexes
  import opened OrgTables
  import opened OrgMigrationSpec
  import opened OrgMigration
  import opened OrgMigrationTheorems
  import opened OrgCatalogTheorem
  import opened KeyedRows

  /** What the database itself keeps true: new ids are fresh, and the unique indexes on links hold. */
  ghost predicate Stored(t: Tables) {
    && Numbered(t)
    && (forall id :: id in t.departments && t.departments[id].catalogId.Some? ==>
      t.departments[id].catalogId.value < t.nextId)
    && (forall id :: id in t.sections && t.sections[id].catalogId.Some? ==> t.sections[id].catalogId.value < t.nextId)
    && KeysApart(t.departments, DepartmentClaim()) && KeysApart(t.sections, SectionClaim())
  }

  /** Living sections have codes of their own. */
  ghost predicate SectionCodesUnique(t: Tables) {
    forall a, b :: LiveSection(t, a) && LiveSection(t, b) && t.sections[a].code == t.sections[b].code ==> a == b
  }

  // ---------------------------------------------------------------- linking never duplicates a claim

  /** Linking entry after entry duplicates no claim on the way. */
  ghost predicate DepartmentLinksFit(departments: Departments, entries: seq<Entry>, base: Id) {
    forall n :: 0 <= n <= |entries| ==> KeysApart(LinkDepartments(departments, entries[..n], base), DepartmentClaim())
  }

  ghost predicate SectionLinksFit(sections: Sections, entries: seq<Entry>, base: Id) {
    forall n :: 0 <= n <= |entries| ==> KeysApart(LinkSections(sections, entries[..n], base), SectionClaim())
  }

  lemma {:induction false} DepartmentMember(loc: Locale, t: Tables, plan: Plan, i: nat, id: Id)
    requires DepartmentPlan(loc, t, plan) && i < |plan.departments| && id in plan.departments[i].memberIds
    ensures OpenDepartment(t, plan.merges, id) && Fold(loc, t, id) == plan.departments[i].foldedKey
  {
    var open := OpenDepartments(DepartmentRows(t), plan.merges);
    OpenRows(t, plan.merges);
    assert plan.departments[i] in plan.departments && Gathers(loc, NoParent(), open, plan.departments[i]);
    var r :| r in open && r.id == id && BelongsTo(loc, NoParent(), r, plan.departments[i]);
  }

  lemma {:induction false} SectionMember(loc: Locale, t: Tables, plan: Plan, i: nat, id: Id)
    requires SectionPlan(loc, t, plan) && i < |plan.sections| && id in plan.sections[i].memberIds
    ensures OpenSection(t, id) && FoldUnitName(loc, t.sections[id].name) == plan.sections[i].foldedKey
  {
    var open := OpenSections(SectionRows(t), plan.merges);
    OpenSectionRows(t, plan.merges);
    assert plan.sections[i] in plan.sections && Gathers(loc, Parents(loc, t, plan.merges), open, plan.sections[i]);
    var r :| r in open && r.id == id && BelongsTo(loc, Parents(loc, t, plan.merges), r, plan.sections[i]);
  }

  lemma {:induction false} PrefixIndex(entries: seq<Entry>, n: nat, id: Id)
    requires n <= |entries|
    ensures EntryIndex(entries[..n], id).Some? ==>
              EntryIndex(entries[..n], id).value < n && id in entries[EntryIndex(entries[..n], id).value].memberIds
  {
    EntryIndexMeaning(entries[..n], id);
  }

  lemma {:induction false} DepartmentLinksApart(loc: Locale, t: Tables, plan: Plan, n: nat, a: Id, b: Id)
    requires DepartmentPlan(loc, t, plan) && Stored(t) && n <= |plan.departments| && a != b
    requires a in t.departments && b in t.departments
    ensures var linked := LinkDepartments(t.departments, plan.departments[..n], t.nextId);
            DepartmentClaim()(linked[a]).Some? ==> DepartmentClaim()(linked[a]) != DepartmentClaim()(linked[b])
  {
    var entries := plan.departments;
    PrefixIndex(entries, n, a);
    PrefixIndex(entries, n, b);
    var i, j := EntryIndex(entries[..n], a), EntryIndex(entries[..n], b);
    if i.Some? && j.Some? {
      if i == j && t.departments[a].branchId == t.departments[b].branchId {
        DepartmentMember(loc, t, plan, i.value, a);
        DepartmentMember(loc, t, plan, i.value, b);
        BranchHoldsOne(loc, t, plan, a, b);
      }
    } else if i.Some? {
    } else if j.Some? {
    } else {
      assert DepartmentClaim()(t.departments[a]).Some? ==>
          DepartmentClaim()(t.departments[a]) != DepartmentClaim()(t.departments[b]);
    }
  }

  lemma {:induction false} SectionLinksApart(loc: Locale, t: Tables, plan: Plan, base: Id, n: nat, a: Id, b: Id)
    requires SectionPlan(loc, t, plan) && Stored(t) && n <= |plan.sections| && a != b && base >= t.nextId
    requires a in t.sections && b in t.sections
    ensures var linked := LinkSections(t.sections, plan.sections[..n], base);
            SectionClaim()(linked[a]).Some? ==> SectionClaim()(linked[a]) != SectionClaim()(linked[b])
  {
    var entries := plan.sections;
    PrefixIndex(entries, n, a);
    PrefixIndex(entries, n, b);
    var i, j := EntryIndex(entries[..n], a), EntryIndex(entries[..n], b);
    if i.Some? && j.Some? {
      if i == j && t.sections[a].departmentId == t.sections[b].departmentId {
        SectionMember(loc, t, plan, i.value, a);
        SectionMember(loc, t, plan, i.value, b);
        DepartmentHoldsOne(loc, t, plan, a, b);
      }
    } else if i.Some? {
    } else if j.Some? {
    } else {
      assert SectionClaim()(t.sections[a]).Some? ==> SectionClaim()(t.sections[a]) != SectionClaim()(t.sections[b]);
    }
  }

  /** An accepted plan can always be linked: the gates leave no branch and no department with two of one new entry. */
  lemma {:induction false} AcceptedLinksFit(loc: Locale, t: Tables, plan: Plan)
    requires DepartmentPlan(loc, t, plan) && SectionPlan(loc, t, plan) && Stored(t)
    ensures DepartmentLinksFit(t.departments, plan.departments, t.nextId)
    ensures SectionLinksFit(t.sections, plan.sections, t.nextId + |plan.departments|)
  {
    hide DepartmentPlan, SectionPlan, Stored;
    forall n, a, b | 0 <= n <= |plan.departments| && a in t.departments && b in t.departments && a != b
      ensures var linked := LinkDepartments(t.departments, plan.departments[..n], t.nextId);
              DepartmentClaim()(linked[a]).Some? ==> DepartmentClaim()(linked[a]) != DepartmentClaim()(linked[b])
    {
      DepartmentLinksApart(loc, t, plan, n, a, b);
    }
    var base := t.nextId + |plan.departments|;
    forall n, a, b | 0 <= n <= |plan.sections| && a in t.sections && b in t.sections && a != b
      ensures var linked := LinkSections(t.sections, plan.sections[..n], base);
              SectionClaim()(linked[a]).Some? ==> SectionClaim()(linked[a]) != SectionClaim()(linked[b])
    {
      SectionLinksApart(loc, t, plan, base, n, a, b);
    }
  }

  // ---------------------------------------------------------------- codes

  lemma {:induction false} EntryCodesApart(
    loc: Locale, parentOf: UnitRow -> Option<string>, rows: seq<UnitRow>, entries: seq<Entry>)
    requires Divides(loc, parentOf, rows, entries)
    requires forall r, r' :: r in rows && r' in rows && r.code == r'.code ==> r == r'
    ensures forall i, j :: 0 <= i < j < |entries| ==> entries[i].code != entries[j].code
  {
    forall i, j | 0 <= i < j < |entries| ensures entries[i].code != entries[j].code {
      assert entries[i] in entries && entries[j] in entries;
      assert Mapped(entries, KeyOfEntry())[i] != Mapped(entries, KeyOfEntry())[j];
      EntryCodesDiffer(loc, parentOf, rows, entries[i], entries[j]);
    }
  }

  /** No two planned entries ask for one code, so only codes a catalog already holds can stop their creation. */
  lemma {:induction false} PlannedCodesApart(loc: Locale, t: Tables, plan: Plan)
    requires DepartmentPlan(loc, t, plan) && SectionPlan(loc, t, plan) && CodesUnique(t) && SectionCodesUnique(t)
    ensures CodesFree({}, plan.departments) && CodesFree({}, plan.sections)
  {
    OpenRows(t, plan.merges);
    OpenSectionRows(t, plan.merges);
    EntryCodesApart(loc, NoParent(), OpenDepartments(DepartmentRows(t), plan.merges), plan.departments);
    EntryCodesApart(loc, Parents(loc, t, plan.merges), OpenSections(SectionRows(t), plan.merges), plan.sections);
  }

  // ---------------------------------------------------------------- the survey of the sections

  lemma {:induction false} SectionRefs()
    ensures Refs(SECTION_FIELDS) == [ScalarRef(["departmentId"])]
    ensures RisksOf(SECTION_INDEXES, ["departmentId"]) == [Risk([["catalogId"]])]
  {
    var f := SECTION_FIELDS;
    assert f[..2] == [f[0], f[1]] && f[..2][..1] == [f[0]] && [f[0]][..0] == [];
    assert Refs([f[0]]) == [ScalarRef(["departmentId"])];
    assert RefsOf(f[1]) == [] && RefsOf(f[2]) == [];
    var keys := [["departmentId"], ["catalogId"]];
    assert keys[..1] == [["departmentId"]] && keys[..1][..0] == [];
    var other := OtherThan(["departmentId"]);
    assert !other(["departmentId"]) && other(["catalogId"]);
    assert Having(keys[..1], other, true) == [];
    assert Having(keys, other, true) == [["catalogId"]];
    assert SECTION_INDEXES[..0] == [];
  }

  lemma {:induction false} SectionDocReads(s: Section)
    ensures ValueAt(SectionDoc(s), ["catalogId"]) == IdValue(s.catalogId)
    ensures Live(SectionDoc(s)) <==> !s.isDeleted
    ensures forall l: Id :: Matches(SectionDoc(s), ["departmentId"], l) <==> s.departmentId == Some(l)
  {
    assert ["catalogId"][1..] == [] && ["isDeleted"][1..] == [];
    assert ValueAt(SectionDoc(s), ["isDeleted"]) == Flag(s.isDeleted);
    forall l: Id ensures Matches(SectionDoc(s), ["departmentId"], l) <==> s.departmentId == Some(l) {
      MatchesField(SectionDoc(s).fields, "departmentId", [], l);
      assert ["departmentId"] + [] == ["departmentId"];
    }
  }

  lemma {:induction false} SectionDocsMeaning(sections: Sections, n: Id)
    ensures forall id :: id in sections && id < n ==> SectionDoc(sections[id]) in SectionDocs(sections, n)
    ensures forall d :: d in SectionDocs(sections, n) ==>
              exists id :: id in sections && id < n && d == SectionDoc(sections[id])
  {
    if n > 0 {
      SectionDocsMeaning(sections, n - 1);
      forall d | d in SectionDocs(sections, n)
        ensures exists id :: id in sections && id < n && d == SectionDoc(sections[id])
      {
        if d in SectionDocs(sections, n - 1) {
          var id :| id in sections && id < n - 1 && d == SectionDoc(sections[id]);
        } else {
          assert n - 1 in sections && d == SectionDoc(sections[n - 1]);
        }
      }
    }
  }

  predicate UnderLoser(t: Tables, merges: seq<Merge>, id: Id)
    requires id in t.sections
  {
    t.sections[id].departmentId.Some? && LosesIn(merges, t.sections[id].departmentId.value)
  }

  /** How the survey prints a section's link: an unlinked one as nothing at all. */
  function PrintedLink(show: Value -> string, s: Section): string {
    match s.catalogId
    case Some(id) => show(Ref(id))
    case None => ""
  }

  /** A living section under a loser and one under no loser whose links print alike. */
  ghost predicate SectionsClash(show: Value -> string, t: Tables, merges: seq<Merge>) {
    exists a, b :: LiveSection(t, a) && LiveSection(t, b) && UnderLoser(t, merges, a) && !UnderLoser(t, merges, b) &&
      PrintedLink(show, t.sections[a]) == PrintedLink(show, t.sections[b])
  }

  lemma {:induction false} SectionDocLoses(show: Value -> string, t: Tables, merges: seq<Merge>, id: Id)
    requires id in t.sections
    ensures var doc := SectionDoc(t.sections[id]);
            && (Loses(doc, ["departmentId"], LosersOf(merges)) <==> UnderLoser(t, merges, id))
            && Shape(show, doc, [["catalogId"]]) == [PrintedLink(show, t.sections[id])]
  {
    SectionDocReads(t.sections[id]);
    if t.sections[id].departmentId.Some? {
      LosersOfMeaning(merges, t.sections[id].departmentId.value);
    }
  }

  lemma {:induction false} SectionsClashIff(show: Value -> string, t: Tables, merges: seq<Merge>)
    requires Numbered(t)
    ensures Clashes(show, SectionDocs(t.sections, t.nextId), ["departmentId"], LosersOf(merges),
            Risk([["catalogId"]])) <==>
            SectionsClash(show, t, merges)
  {
    var docs, path, losers := SectionDocs(t.sections, t.nextId), ["departmentId"], LosersOf(merges);
    SectionDocsMeaning(t.sections, t.nextId);
    if Clashes(show, docs, path, losers, Risk([["catalogId"]])) {
      var d, e :| d in docs && e in docs && Live(d) && Live(e) && Loses(d, path, losers) && !Loses(e, path, losers) &&
        Shape(show, d, [["catalogId"]]) == Shape(show, e, [["catalogId"]]);
      var a :| a in t.sections && d == SectionDoc(t.sections[a]);
      var b :| b in t.sections && e == SectionDoc(t.sections[b]);
      SectionDocReads(t.sections[a]);
      SectionDocReads(t.sections[b]);
      SectionDocLoses(show, t, merges, a);
      SectionDocLoses(show, t, merges, b);
      assert LiveSection(t, a) && LiveSection(t, b);
    }
    if SectionsClash(show, t, merges) {
      var a, b :| LiveSection(t, a) && LiveSection(t, b) && UnderLoser(t, merges, a) && !UnderLoser(t, merges, b) &&
        PrintedLink(show, t.sections[a]) == PrintedLink(show, t.sections[b]);
      SectionDocReads(t.sections[a]);
      SectionDocReads(t.sections[b]);
      SectionDocLoses(show, t, merges, a);
      SectionDocLoses(show, t, merges, b);
      assert SectionDoc(t.sections[a]) in docs && SectionDoc(t.sections[b]) in docs;
    }
  }

  /** The survey of the sections is silent exactly when no living section under a loser prints like one elsewhere. */
  lemma {:induction false} SectionsClearIff(show: Value -> string, t: Tables, merges: seq<Merge>)
    requires Numbered(t)
    ensures Clear(show, SectionsCollection(t.sections, t.nextId), LosersOf(merges)) <==> !SectionsClash(show, t, merges)
  {
    var c, losers := SectionsCollection(t.sections, t.nextId), LosersOf(merges);
    var ref := ScalarRef(["departmentId"]);
    SectionRefs();
    SectionsClashIff(show, t, merges);
    HavingMember(Refs(c.fields), NamedOf(c.docs, losers), true);
    assert ref in Refs(c.fields) && RepointUpdate(ref).Some?;
    assert Risk([["catalogId"]]) in RisksOf(c.indexes, ref.path);
    if ref !in SweepsOf(c, losers) {
      assert !NamesAny(c.docs, ref.path, losers);
    }
  }

  /**
   * From a database with nothing linked, the pre-flight passes the sections exactly when no loser has a
   * living section or no living section stands anywhere else: every unlinked section prints alike,
   * though the index it is compared in covers linked ones only.
   */
  lemma {:induction false} UnlinkedSectionsClearIff(show: Value -> string, t: Tables, merges: seq<Merge>)
    requires Numbered(t) && NothingLinked(t)
    ensures Clear(show, SectionsCollection(t.sections, t.nextId), LosersOf(merges)) <==>
            || (forall id :: LiveSection(t, id) ==> !UnderLoser(t, merges, id))
            || (forall id :: LiveSection(t, id) ==> UnderLoser(t, merges, id))
  {
    SectionsClearIff(show, t, merges);
  }

  // ---------------------------------------------------------------- the sections after the merges

  /** Two linked sections of one entry stand under two different losers of one winner. */
  ghost predicate SectionsMeet(t: Tables, merges: seq<Merge>) {
    exists a, b, l, l' :: LiveSection(t, a) && LiveSection(t, b) && t.sections[a].catalogId.Some? &&
      t.sections[a].catalogId == t.sections[b].catalogId && t.sections[a].departmentId == Some(l) &&
      t.sections[b].departmentId == Some(l') && LoserPair(merges, l, l')
  }

  lemma {:induction false} LinkedSectionStays(loc: Locale, t: Tables, plan: Plan, id: Id)
    requires SectionPlan(loc, t, plan) && !OpenSection(t, id)
    ensures EntryIndex(plan.sections, id) == None
  {
    OpenSectionRows(t, plan.merges);
    LandsNowhere(loc, Parents(loc, t, plan.merges), OpenSections(SectionRows(t), plan.merges), plan.sections, id);
  }

  function FinalSections(t: Tables, plan: Plan): Sections {
    MergeSections(LinkSections(t.sections, plan.sections, t.nextId + |plan.departments|), plan.merges)
  }

  /** A section's claim when the run is over. */
  lemma {:induction false} FinalClaim(loc: Locale, t: Tables, plan: Plan, id: Id)
    requires SectionPlan(loc, t, plan) && id in t.sections
    ensures var s, out := t.sections[id], FinalSections(t, plan)[id];
            var claim := SectionClaim()(out);
            && (claim.Some? <==> !s.isDeleted && (s.catalogId.Some? || EntryIndex(plan.sections, id).Some?))
            && (claim.Some? ==>
                  && claim.value.0 == NewHome(plan.merges, s)
                  && if s.catalogId.Some? then Some(claim.value.1) == s.catalogId
                     else EntryIndex(plan.sections, id).Some? &&
                          claim.value.1 == t.nextId + |plan.departments| + EntryIndex(plan.sections, id).value)
  {
    var s := t.sections[id];
    var base := t.nextId + |plan.departments|;
    MergedSection(id, LinkSection(id, s, plan.sections, base), plan.merges);
    if !OpenSection(t, id) {
      LinkedSectionStays(loc, t, plan, id);
    }
  }

  lemma {:induction false} FinalClaimsApart(show: Value -> string, loc: Locale, t: Tables, plan: Plan, a: Id, b: Id)
    requires SectionPlan(loc, t, plan) && Stored(t) && a in t.sections && b in t.sections && a != b
    requires !SectionsClash(show, t, plan.merges) && !SectionsMeet(t, plan.merges)
    requires SectionClaim()(FinalSections(t, plan)[a]).Some?
    ensures SectionClaim()(FinalSections(t, plan)[a]) != SectionClaim()(FinalSections(t, plan)[b])
  {
    FinalClaim(loc, t, plan, a);
    FinalClaim(loc, t, plan, b);
    if SectionClaim()(FinalSections(t, plan)[a]) == SectionClaim()(FinalSections(t, plan)[b]) {
      if t.sections[a].catalogId.Some? && t.sections[b].catalogId.Some? {
        assert SectionClaim()(t.sections[a]).Some? && SectionClaim()(t.sections[a]) != SectionClaim()(t.sections[b]);
        LinkedPairMeets(show, t, plan.merges, a, b);
      } else if t.sections[a].catalogId.Some? {
      } else if t.sections[b].catalogId.Some? {
      } else {
        var i := EntryIndex(plan.sections, a).value;
        PrefixIndex(plan.sections, |plan.sections|, a);
        PrefixIndex(plan.sections, |plan.sections|, b);
        assert plan.sections[..|plan.sections|] == plan.sections;
        SectionMember(loc, t, plan, i, a);
        SectionMember(loc, t, plan, i, b);
        DepartmentHoldsOne(loc, t, plan, a, b);
      }
    }
  }

  lemma {:induction false} LinkedPairMeets(show: Value -> string, t: Tables, merges: seq<Merge>, a: Id, b: Id)
    requires Unchained(merges) && LiveSection(t, a) && LiveSection(t, b) && t.sections[a].catalogId.Some?
    requires t.sections[a].catalogId == t.sections[b].catalogId &&
             t.sections[a].departmentId != t.sections[b].departmentId
    requires NewHome(merges, t.sections[a]) == NewHome(merges, t.sections[b])
    ensures SectionsClash(show, t, merges) || SectionsMeet(t, merges)
  {
    var d, e := t.sections[a].departmentId.value, t.sections[b].departmentId.value;
    WinnerForMeaning(merges, d);
    WinnerForMeaning(merges, e);
    assert PrintedLink(show, t.sections[a]) == PrintedLink(show, t.sections[b]);
    if UnderLoser(t, merges, a) && UnderLoser(t, merges, b) {
      assert LoserPair(merges, d, e);
    }
  }

  lemma {:induction false} MeetingSectionsCollide(loc: Locale, t: Tables, plan: Plan)
    requires SectionPlan(loc, t, plan) && SectionsMeet(t, plan.merges)
    ensures !KeysApart(FinalSections(t, plan), SectionClaim())
  {
    var a, b, l, l' :| LiveSection(t, a) && LiveSection(t, b) && t.sections[a].catalogId.Some? &&
      t.sections[a].catalogId == t.sections[b].catalogId && t.sections[a].departmentId == Some(l) &&
      t.sections[b].departmentId == Some(l') && LoserPair(plan.merges, l, l');
    FinalClaim(loc, t, plan, a);
    FinalClaim(loc, t, plan, b);
    assert a in FinalSections(t, plan) && b in FinalSections(t, plan) && a != b;
  }

  /**
   * After a silent pre-flight the merges leave the sections' unique index whole exactly when no two losers' sections
   * meet.
   */
  lemma {:induction false} SectionsSurviveIff(show: Value -> string, loc: Locale, t: Tables, plan: Plan)
    requires SectionPlan(loc, t, plan) && Stored(t) && !SectionsClash(show, t, plan.merges)
    ensures KeysApart(FinalSections(t, plan), SectionClaim()) <==> !SectionsMeet(t, plan.merges)
  {
    if SectionsMeet(t, plan.merges) {
      MeetingSectionsCollide(loc, t, plan);
    } else {
      forall a, b | a in t.sections && b in t.sections && a != b && SectionClaim()(FinalSections(t, plan)[a]).Some?
        ensures SectionClaim()(FinalSections(t, plan)[a]) != SectionClaim()(FinalSections(t, plan)[b])
      {
        FinalClaimsApart(show, loc, t, plan, a, b);
      }
    }
  }

  lemma {:induction false} OneLoserNoMeeting(t: Tables, merges: seq<Merge>)
    requires Unchained(merges) && OneLoserEach(merges)
    ensures !SectionsMeet(t, merges)
  {
    forall l, l' | LosesIn(merges, l) && LosesIn(merges, l') && l != l' ensures !LoserPair(merges, l, l') {
      WinnerForMeaning(merges, l);
      WinnerForMeaning(merges, l');
    }
  }
}
