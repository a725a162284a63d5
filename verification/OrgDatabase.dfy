/** When the writes of a run get to the end, and what they leave. */
module OrgRun {
  import opened Options
  import opened Sequences
  import opened OrgRows
  import opened OrgPlanSpec
  import opened OrgPlanner
  import opened OrgPlanTheorems
  import opened References
  import opened ReferencesMerges
  import opened ReferencesSurvey
  import opened ReferencesIndexes
  import opened ReferencesWrites
  import opened OrgTables
  import opened OrgMigrationSpec
  import opened OrgMigration
  import opened OrgMigrationTheorems
  import opened OrgCatalogTheorem
  import opened OrgClaims
  import opened KeyedRows

  // ---------------------------------------------------------------- creating the entries

  /** `createEntries` gets to the end: codes free, parents known, no claim duplicated. */
  ghost predicate CanCreate(loc: Locale, t: Tables, plan: Plan) {
    && CodesFree(DepartmentCodes(t.departmentCatalog), plan.departments)
    && DepartmentLinksFit(t.departments, plan.departments, t.nextId)
    && ParentsKnown(plan.sections, ParentIds(loc, t, plan))
    && CodesFree(SectionCodes(t.sectionCatalog), plan.sections)
    && SectionLinksFit(t.sections, plan.sections, t.nextId + |plan.departments|)
  }

  function EntryCodes(entries: seq<Entry>): set<string> {
    set i | 0 <= i < |entries| :: entries[i].code
  }

  lemma {:induction false} CodesFreeSnoc(taken: set<string>, entries: seq<Entry>, n: nat)
    requires n < |entries| && CodesFree(taken, entries[..n])
    ensures entries[n].code in taken + EntryCodes(entries[..n]) ==> !CodesFree(taken, entries)
    ensures entries[n].code !in taken + EntryCodes(entries[..n]) ==> CodesFree(taken, entries[..n + 1])
    ensures EntryCodes(entries[..n + 1]) == EntryCodes(entries[..n]) + {entries[n].code}
  {
    var init, more := entries[..n], entries[..n + 1];
    forall code ensures code in EntryCodes(more) <==> code in EntryCodes(init) + {entries[n].code} {
      if code in EntryCodes(more) {
        var i :| 0 <= i < n + 1 && more[i].code == code;
        assert i < n ==> init[i].code == code;
      }
      if code in EntryCodes(init) {
        var i :| 0 <= i < n && init[i].code == code;
        assert more[i].code == code;
      }
      assert more[n] == entries[n];
    }
    if entries[n].code in EntryCodes(init) {
      var i :| 0 <= i < n && init[i].code == entries[n].code;
      assert entries[i].code == entries[n].code;
    } else if entries[n].code !in taken {
      forall i, j | 0 <= i < j < n + 1 ensures more[i].code != more[j].code {
        assert init[i].code in EntryCodes(init);
        assert j < n ==> init[i].code != init[j].code;
      }
      forall i | 0 <= i < n + 1 ensures more[i].code !in taken {
        assert i < n ==> init[i].code !in taken;
      }
    }
  }

  lemma {:induction false} DepartmentCodesGrow(catalog: DepartmentCatalog, id: Id, e: CatalogEntry)
    requires id !in catalog && !e.isDeleted
    ensures DepartmentCodes(catalog[id := e]) == DepartmentCodes(catalog) + {e.code}
  {
    var after := catalog[id := e];
    forall code ensures code in DepartmentCodes(after) <==> code in DepartmentCodes(catalog) + {e.code} {
      if code in DepartmentCodes(catalog) {
        var k :| k in catalog && !catalog[k].isDeleted && catalog[k].code == code;
        assert k in after && after[k] == catalog[k];
      }
      assert id in after && after[id] == e;
    }
  }

  lemma {:induction false} SectionCodesGrow(catalog: SectionCatalog, id: Id, e: SectionCatalogEntry)
    requires id !in catalog && !e.isDeleted
    ensures SectionCodes(catalog[id := e]) == SectionCodes(catalog) + {e.code}
  {
    var after := catalog[id := e];
    forall code ensures code in SectionCodes(after) <==> code in SectionCodes(catalog) + {e.code} {
      if code in SectionCodes(catalog) {
        var k :| k in catalog && !catalog[k].isDeleted && catalog[k].code == code;
        assert k in after && after[k] == catalog[k];
      }
      assert id in after && after[id] == e;
    }
  }

  /** A new entry's id is no row's link yet, so nothing stands where its members are written. */
  lemma {:induction false} DepartmentLinkAbsorbs(t: Tables, entry: Entry)
    requires Stored(t)
    ensures Absorbs(t.departments, LinkDepartmentMembers(t.departments, entry, t.nextId), DepartmentClaim())
  {
  }

  lemma {:induction false} SectionLinkAbsorbs(t: Tables, entry: Entry)
    requires Stored(t)
    ensures Absorbs(t.sections, LinkSectionMembers(t.sections, entry, t.nextId), SectionClaim())
  {
  }

  lemma {:induction false} StoredDepartments(t: Tables, entry: Entry, now: Departments)
    requires Stored(t) && KeysApart(now, DepartmentClaim())
    requires Between(t.departments, now, LinkDepartmentMembers(t.departments, entry, t.nextId))
    ensures var catalog := t.departmentCatalog[t.nextId := CatalogEntry(entry.code, entry.name, false)];
            Stored(t.(departments := now, nextId := t.nextId + 1, departmentCatalog := catalog))
  {
    hide KeysApart;
    var after := LinkDepartmentMembers(t.departments, entry, t.nextId);
    forall id | id in now && now[id].catalogId.Some? ensures now[id].catalogId.value < t.nextId + 1 {
      assert now[id] == t.departments[id] || now[id] == after[id];
    }
  }

  lemma {:induction false} StoredSections(t: Tables, entry: Entry, parent: Id, now: Sections)
    requires Stored(t) && KeysApart(now, SectionClaim())
    requires Between(t.sections, now, LinkSectionMembers(t.sections, entry, t.nextId))
    ensures var catalog := t.sectionCatalog[t.nextId := SectionCatalogEntry(entry.code, entry.name, parent, false)];
            Stored(t.(sections := now, nextId := t.nextId + 1, sectionCatalog := catalog))
  {
    hide KeysApart;
    var after := LinkSectionMembers(t.sections, entry, t.nextId);
    forall id | id in now && now[id].catalogId.Some? ensures now[id].catalogId.value < t.nextId + 1 {
      assert now[id] == t.sections[id] || now[id] == after[id];
    }
  }

  // ---------------------------------------------------------------- moving the sections

  function RepointSections(sections: Sections, m: Merge): Sections {
    map id | id in sections :: RepointSection(sections[id], m)
  }

  function RebuildPaths(sections: Sections, winner: Id): Sections {
    map id | id in sections ::
      if !sections[id].isDeleted && sections[id].departmentId == Some(winner)
      then sections[id].(path := [sections[id].branchId, winner, id]) else sections[id]
  }

  lemma {:induction false} RepointAbsorbs(sections: Sections, m: Merge)
    ensures Absorbs(sections, RepointSections(sections, m), SectionClaim())
  {
  }

  lemma {:induction false} PathsClaimNothing(sections: Sections, winner: Id)
    ensures KeysApart(RebuildPaths(sections, winner), SectionClaim()) <==> KeysApart(sections, SectionClaim())
  {
    var out, claim := RebuildPaths(sections, winner), SectionClaim();
    assert forall id :: id in sections ==> claim(out[id]) == claim(sections[id]);
  }

  lemma {:induction false} StoredMoved(t: Tables, m: Merge, now: Sections)
    requires Stored(t) && KeysApart(now, SectionClaim())
    requires now.Keys == t.sections.Keys && forall id :: id in now ==> now[id].catalogId == t.sections[id].catalogId
    ensures Stored(t.(sections := now))
  {
    hide KeysApart;
  }

  lemma {:induction false} StoredRetired(t: Tables, id: Id)
    requires Stored(t) && id in t.departments
    ensures Stored(t.(departments := t.departments[id := t.departments[id].(isDeleted := true)]))
  {
    var after := t.departments[id := t.departments[id].(isDeleted := true)];
    forall a, b | a in after && b in after && a != b && DepartmentClaim()(after[a]).Some?
      ensures DepartmentClaim()(after[a]) != DepartmentClaim()(after[b])
    {
      assert DepartmentClaim()(t.departments[a]).Some? ==>
        DepartmentClaim()(t.departments[a]) != DepartmentClaim()(t.departments[b]);
    }
  }

  /** Where a department reference is after some merges, whatever the merges. */
  function HomeAfter(home: Option<Id>, merges: seq<Merge>): Option<Id> {
    if merges == [] then home
    else
      var m := merges[|merges| - 1];
      var now := HomeAfter(home, merges[..|merges| - 1]);
      if now == Some(m.loserId) then Some(m.winnerId) else now
  }

  lemma {:induction false} HomesStayTogether(a: Option<Id>, b: Option<Id>, merges: seq<Merge>, n: nat)
    requires n <= |merges| && HomeAfter(a, merges[..n]) == HomeAfter(b, merges[..n])
    ensures HomeAfter(a, merges) == HomeAfter(b, merges)
    decreases |merges| - n
  {
    if n < |merges| {
      assert merges[..n + 1][..n] == merges[..n];
      HomesStayTogether(a, b, merges, n + 1);
    } else {
      assert merges[..n] == merges;
    }
  }

  lemma {:induction false} MergedHome(id: Id, s: Section, merges: seq<Merge>)
    ensures var out := MergeSectionAll(id, s, merges);
            out.departmentId == HomeAfter(s.departmentId, merges) && out.catalogId == s.catalogId &&
              out.isDeleted == s.isDeleted
    decreases |merges|
  {
    if merges != [] {
      MergedHome(id, s, merges[..|merges| - 1]);
    }
  }

  /** Two sections that collide after some of the merges still collide after all of them. */
  lemma {:induction false} SectionCollisionStays(sections: Sections, merges: seq<Merge>, n: nat)
    requires n <= |merges| && !KeysApart(MergeSections(sections, merges[..n]), SectionClaim())
    ensures !KeysApart(MergeSections(sections, merges), SectionClaim())
  {
    var some, all, claim := MergeSections(sections, merges[..n]), MergeSections(sections, merges), SectionClaim();
    var a, b :| a in some && b in some && a != b && claim(some[a]).Some? && claim(some[a]) == claim(some[b]);
    MergedHome(a, sections[a], merges[..n]);
    MergedHome(b, sections[b], merges[..n]);
    MergedHome(a, sections[a], merges);
    MergedHome(b, sections[b], merges);
    HomesStayTogether(sections[a].departmentId, sections[b].departmentId, merges, n);
    assert claim(all[a]).Some? && claim(all[a]) == claim(all[b]);
  }

  lemma {:induction false} MergeSectionsStep(sections: Sections, merges: seq<Merge>, n: nat)
    requires n < |merges|
    ensures var before, after := MergeSections(sections, merges[..n]), MergeSections(sections, merges[..n + 1]);
            && after == RebuildPaths(RepointSections(before, merges[n]), merges[n].winnerId)
            && (KeysApart(after, SectionClaim()) <==> KeysApart(RepointSections(before, merges[n]), SectionClaim()))
  {
    var before, after := MergeSections(sections, merges[..n]), MergeSections(sections, merges[..n + 1]);
    var moved := RebuildPaths(RepointSections(before, merges[n]), merges[n].winnerId);
    MergeSectionsSnoc(sections, merges, n);
    forall id | id in sections ensures after[id] == moved[id] {
      assert after[id] == MergeSection(id, before[id], merges[n]);
    }
    assert after == moved;
    PathsClaimNothing(RepointSections(before, merges[n]), merges[n].winnerId);
  }

  // ---------------------------------------------------------------- the other collections

  ghost predicate AllFit(collections: seq<Collection>) {
    forall k :: 0 <= k < |collections| ==> Fits(collections[k].indexes, collections[k].docs)
  }

  /** Every surveyed sweep of every merge can be written. */
  ghost predicate CollectionsMerge(collections: seq<Collection>, sweeps: seq<seq<RefPath>>, merges: seq<Merge>)
    requires |collections| == |sweeps|
  {
    forall k :: 0 <= k < |collections| ==>
      MergeAll(collections[k].indexes, collections[k].docs, sweeps[k], merges).Some?
  }

  /** What the sweeps leave: the same collections with the merged documents. */
  ghost predicate MergedCollections(
    before: seq<Collection>, after: seq<Collection>, sweeps: seq<seq<RefPath>>, merges: seq<Merge>)
    requires |before| == |sweeps|
  {
    && |after| == |before|
    && forall k :: 0 <= k < |before| ==>
         && after[k].fields == before[k].fields && after[k].indexes == before[k].indexes
         && MergeAll(before[k].indexes, before[k].docs, sweeps[k], merges) == Some(after[k].docs)
  }

  ghost predicate SweptCollections(
    before: seq<Collection>, after: seq<Collection>, sweeps: seq<seq<RefPath>>, m: Merge, n: nat)
    requires |before| == |sweeps|
  {
    && |after| == |before|
    && (forall k :: n <= k < |before| ==> after[k] == before[k])
    && forall k :: 0 <= k < |before| && k < n ==>
         && after[k].fields == before[k].fields && after[k].indexes == before[k].indexes
         && SweepAll(before[k].indexes, before[k].docs, sweeps[k], m.loserId, m.winnerId) == Some(after[k].docs)
  }

  ghost predicate SomeSweepStops(collections: seq<Collection>, sweeps: seq<seq<RefPath>>, m: Merge)
    requires |collections| == |sweeps|
  {
    exists k :: 0 <= k < |collections| &&
      SweepAll(collections[k].indexes, collections[k].docs, sweeps[k], m.loserId, m.winnerId) == None
  }

  /** The collections before `k` are swept, `k` is swept as far as `stop`, and those after it are as they were. */
  ghost predicate SweepsStopAt(
    before: seq<Collection>, after: seq<Collection>, sweeps: seq<seq<RefPath>>, m: Merge, k: nat, stop: Stop)
    requires |before| == |sweeps|
  {
    && |after| == |before| && k < |before|
    && SweptCollections(before, after[k := before[k]], sweeps, m, k)
    && after[k] == before[k].(docs := after[k].docs)
    && SweepStops(before[k].indexes, before[k].docs, after[k].docs, sweeps[k], m, stop)
  }

  ghost predicate SweepsBrokeOff(
    before: seq<Collection>, after: seq<Collection>, sweeps: seq<seq<RefPath>>, m: Merge)
    requires |before| == |sweeps|
  {
    exists k: nat, stop: Stop :: SweepsStopAt(before, after, sweeps, m, k, stop)
  }

  /**
   * Of merge `m` the collections are swept in part and no section has moved, or all of them are swept and some
   * sections refer to the winner already; no path has changed.
   */
  ghost predicate MergeBrokeOff(
    was: Sections, now: Sections, before: seq<Collection>, after: seq<Collection>, sweeps: seq<seq<RefPath>>, m: Merge)
    requires |before| == |sweeps|
  {
    || (now == was && SweepsBrokeOff(before, after, sweeps, m))
    || (&& Between(was, now, RepointSections(was, m)) && !KeysApart(RepointSections(was, m), SectionClaim())
        && SweptCollections(before, after, sweeps, m, |before|))
  }

  /** The first `done` merges are applied whole, and the next one broke off. */
  ghost predicate MergesBrokeOff(
    was: Sections, now: Sections, before: seq<Collection>, after: seq<Collection>, sweeps: seq<seq<RefPath>>,
    merges: seq<Merge>, done: nat)
    requires |before| == |sweeps|
  {
    && done < |merges|
    && exists mid :: MergedCollections(before, mid, sweeps, merges[..done]) &&
         MergeBrokeOff(MergeSections(was, merges[..done]), now, mid, after, sweeps, merges[done])
  }

  lemma {:induction false} NextMerge(
    start: seq<Collection>, before: seq<Collection>, after: seq<Collection>, sweeps: seq<seq<RefPath>>,
    merges: seq<Merge>, n: nat)
    requires |start| == |sweeps| && n < |merges| && MergedCollections(start, before, sweeps, merges[..n])
    requires SweptCollections(before, after, sweeps, merges[n], |before|)
    ensures MergedCollections(start, after, sweeps, merges[..n + 1])
  {
    forall k | 0 <= k < |start|
      ensures after[k].fields == start[k].fields && after[k].indexes == start[k].indexes
      ensures MergeAll(start[k].indexes, start[k].docs, sweeps[k], merges[..n + 1]) == Some(after[k].docs)
    {
      MergeAllSnoc(start[k].indexes, start[k].docs, sweeps[k], merges, n);
    }
  }

  lemma {:induction false} StoppedMerge(
    start: seq<Collection>, before: seq<Collection>, sweeps: seq<seq<RefPath>>, merges: seq<Merge>, n: nat)
    requires |start| == |sweeps| && n < |merges| && MergedCollections(start, before, sweeps, merges[..n])
    requires SomeSweepStops(before, sweeps, merges[n])
    ensures !CollectionsMerge(start, sweeps, merges)
  {
    var k :| 0 <= k < |before| &&
      SweepAll(before[k].indexes, before[k].docs, sweeps[k], merges[n].loserId, merges[n].winnerId) == None;
    MergeAllSnoc(start[k].indexes, start[k].docs, sweeps[k], merges, n);
    MergeAllFails(start[k].indexes, start[k].docs, sweeps[k], merges, n + 1);
  }

  // ---------------------------------------------------------------- the whole run

  /** Anything that makes the plan unsafe: its own problems, the survey's, or a `Mixed` carrier naming a loser. */
  ghost predicate Objections(
    show: Value -> string, t: Tables, collections: seq<Collection>, mixed: set<Id>, plan: Plan) {
    || plan.problems != []
    || !Clear(show, SectionsCollection(t.sections, t.nextId), LosersOf(plan.merges))
    || (exists k :: 0 <= k < |collections| && !Clear(show, collections[k], LosersOf(plan.merges)))
    || (exists id :: id in mixed && LosesIn(plan.merges, id))
  }

  ghost predicate SurveyedSweeps(collections: seq<Collection>, sweeps: seq<seq<RefPath>>, merges: seq<Merge>) {
    && |sweeps| == |collections|
    && forall k :: 0 <= k < |collections| ==> sweeps[k] == SweepsOf(collections[k], LosersOf(merges))
  }

  /** Every write of the run succeeds. */
  ghost predicate CanWrite(loc: Locale, t: Tables, collections: seq<Collection>, plan: Plan, sweeps: seq<seq<RefPath>>)
    requires |collections| == |sweeps|
  {
    && CanCreate(loc, t, plan)
    && CollectionsMerge(collections, sweeps, plan.merges)
    && KeysApart(FinalSections(t, plan), SectionClaim())
  }

  /** No living catalog entry holds a code the plan gives out. */
  ghost predicate CatalogsHaveRoom(t: Tables, plan: Plan) {
    && (forall e :: e in plan.departments ==> e.code !in DepartmentCodes(t.departmentCatalog))
    && (forall e :: e in plan.sections ==> e.code !in SectionCodes(t.sectionCatalog))
  }

  /** No code is taken, every section entry has a parent, and no two losers of one winner meet in a unique index. */
  ghost predicate NothingInTheWay(loc: Locale, t: Tables, collections: seq<Collection>, plan: Plan) {
    && CatalogsHaveRoom(t, plan) && ParentsKnown(plan.sections, ParentIds(loc, t, plan))
    && !SectionsMeet(t, plan.merges)
    && forall k :: 0 <= k < |collections| ==> !LosersMeet(collections[k], plan.merges)
  }

  /** What a run may count on: stored tables with unique codes, sound collections whose indexes hold. */
  ghost predicate Ready(loc: Locale, t: Tables, collections: seq<Collection>) {
    && StrictTotalOrder(loc.before) && Stored(t) && CodesUnique(t) && SectionCodesUnique(t) && AllFit(collections)
    && forall k :: 0 <= k < |collections| ==> Sound(collections[k])
  }

  /** Every collection has every declared slot renamed, and its unique indexes hold. */
  ghost predicate AllRenamed(before: seq<Collection>, after: seq<Collection>, merges: seq<Merge>) {
    && |after| == |before| && AllFit(after)
    && forall k :: 0 <= k < |before| ==>
         after[k] == before[k].(docs := Renamed(before[k].fields, before[k].docs, merges))
  }

  lemma {:induction false} CodesFreeIff(taken: set<string>, entries: seq<Entry>)
    requires CodesFree({}, entries)
    ensures CodesFree(taken, entries) <==> forall e :: e in entries ==> e.code !in taken
  {
    if CodesFree(taken, entries) {
      forall e | e in entries ensures e.code !in taken {
        var i :| 0 <= i < |entries| && entries[i] == e;
      }
    } else {
      var i :| 0 <= i < |entries| && entries[i].code in taken;
      assert entries[i] in entries;
    }
  }

  lemma {:induction false} CanCreateIff(loc: Locale, t: Tables, plan: Plan)
    requires DepartmentPlan(loc, t, plan) && SectionPlan(loc, t, plan)
    requires Stored(t) && CodesUnique(t) && SectionCodesUnique(t)
    ensures CanCreate(loc, t, plan) <==>
              CatalogsHaveRoom(t, plan) && ParentsKnown(plan.sections, ParentIds(loc, t, plan))
  {
    hide DepartmentPlan, SectionPlan, Stored, CodesFree, DepartmentLinksFit, SectionLinksFit, ParentIds, ParentsKnown;
    AcceptedLinksFit(loc, t, plan);
    PlannedCodesApart(loc, t, plan);
    CodesFreeIff(DepartmentCodes(t.departmentCatalog), plan.departments);
    CodesFreeIff(SectionCodes(t.sectionCatalog), plan.sections);
  }

  lemma {:induction false} CollectionsMergeIff(
    show: Value -> string, collections: seq<Collection>, sweeps: seq<seq<RefPath>>, merges: seq<Merge>)
    requires AllFit(collections) && Unchained(merges) && SurveyedSweeps(collections, sweeps, merges)
    requires forall k :: 0 <= k < |collections| ==>
               Sound(collections[k]) && Clear(show, collections[k], LosersOf(merges))
    ensures CollectionsMerge(collections, sweeps, merges) <==>
            forall k :: 0 <= k < |collections| ==> !LosersMeet(collections[k], merges)
  {
    hide Sound, Clear, Fits, LosersMeet, MergeAll, SweepsOf, Unchained;
    forall k | 0 <= k < |collections|
      ensures MergeAll(collections[k].indexes, collections[k].docs, sweeps[k], merges).Some? <==>
                !LosersMeet(collections[k], merges)
    {
      WritesRename(collections[k], merges);
      CollectionSurvivesIff(show, collections[k], merges);
    }
  }

  lemma {:induction false} MergedIsRenamed(
    before: seq<Collection>, after: seq<Collection>, sweeps: seq<seq<RefPath>>, merges: seq<Merge>)
    requires AllFit(before) && Unchained(merges) && SurveyedSweeps(before, sweeps, merges)
    requires forall k :: 0 <= k < |before| ==> Sound(before[k])
    requires MergedCollections(before, after, sweeps, merges)
    ensures AllRenamed(before, after, merges)
  {
    hide Sound, Fits, MergeAll, SweepsOf, Unchained;
    forall k | 0 <= k < |before|
      ensures Fits(after[k].indexes, after[k].docs)
      ensures after[k] == before[k].(docs := Renamed(before[k].fields, before[k].docs, merges))
    {
      WritesRename(before[k], merges);
    }
  }

  /**
   * A plan nothing objects to is written to the end exactly when no catalog holds one of its codes, every
   * section entry has a parent, and no two losers of one winner meet in a unique index.
   */
  lemma {:induction false} CanWriteIff(
    show: Value -> string, loc: Locale, t: Tables, collections: seq<Collection>, mixed: set<Id>,
    requests: seq<MergeRequest>, sweeps: seq<seq<RefPath>>)
    requires Ready(loc, t, collections) && !Objections(show, t, collections, mixed, PlanOf(loc, t, requests))
    requires SurveyedSweeps(collections, sweeps, PlanOf(loc, t, requests).merges)
    ensures var plan := PlanOf(loc, t, requests);
            CanWrite(loc, t, collections, plan, sweeps) <==> NothingInTheWay(loc, t, collections, plan)
  {
    hide Stored, CodesUnique, SectionCodesUnique, Sound, Clear, SweepsOf, AllFit, CanCreate, CollectionsMerge,
      KeysApart, FinalSections, SectionsMeet, LosersMeet, PlanOf, DepartmentPlan, ParentIds, ParentsKnown,
      CatalogsHaveRoom;
    var plan := PlanOf(loc, t, requests);
    AcceptedIsSound(loc, t, requests);
    CanCreateIff(loc, t, plan);
    CollectionsMergeIff(show, collections, sweeps, plan.merges);
    StoredIsNumbered(t);
    SectionsClearIff(show, t, plan.merges);
    SectionsSurviveIff(show, loc, t, plan);
  }

  lemma {:induction false} StoredIsNumbered(t: Tables)
    requires Stored(t)
    ensures Numbered(t) && KeysApart(t.departments, DepartmentClaim()) && KeysApart(t.sections, SectionClaim())
  {
  }

  lemma {:induction false} AcceptedIsSound(loc: Locale, t: Tables, requests: seq<MergeRequest>)
    requires StrictTotalOrder(loc.before) && Stored(t) && CodesUnique(t) && PlanOf(loc, t, requests).problems == []
    ensures DepartmentPlan(loc, t, PlanOf(loc, t, requests)) && SectionPlan(loc, t, PlanOf(loc, t, requests))
    ensures Unchained(PlanOf(loc, t, requests).merges)
  {
    AcceptedPlan(loc, t, requests);
  }

  /** Where nothing is linked yet, one loser per winner and free codes are enough for a run to be written to the end. */
  lemma {:induction false} FreshRunWrites(
    show: Value -> string, loc: Locale, t: Tables, collections: seq<Collection>, mixed: set<Id>,
    requests: seq<MergeRequest>, sweeps: seq<seq<RefPath>>)
    requires Ready(loc, t, collections) && !Objections(show, t, collections, mixed, PlanOf(loc, t, requests))
    requires SurveyedSweeps(collections, sweeps, PlanOf(loc, t, requests).merges)
    requires NothingLinked(t) && OneLoserEach(PlanOf(loc, t, requests).merges)
    requires CatalogsHaveRoom(t, PlanOf(loc, t, requests))
    ensures CanWrite(loc, t, collections, PlanOf(loc, t, requests), sweeps)
  {
    hide Stored, Sound, Clear, SweepsOf, AllFit, CanWrite, SectionsMeet, LosersMeet, PlanOf, DepartmentPlan,
      SectionPlan, ParentIds, ParentsKnown, CatalogsHaveRoom, NothingLinked, OneLoserEach, Unchained;
    var plan := PlanOf(loc, t, requests);
    AcceptedIsSound(loc, t, requests);
    ParentsAreKnown(loc, t, plan);
    OneLoserNoMeeting(t, plan.merges);
    forall k | 0 <= k < |collections| ensures !LosersMeet(collections[k], plan.merges) {
      OneLoserPerWinner(collections[k], plan.merges);
    }
    CanWriteIff(show, loc, t, collections, mixed, requests, sweeps);
  }

  /** Nothing is linked, paths are right, every winner has one loser and no code of the plan is taken. */
  ghost predicate FreshStart(t: Tables, plan: Plan) {
    && NothingLinked(t) && (forall id :: LiveSection(t, id) ==> PathStands(t, id))
    && OneLoserEach(plan.merges) && CatalogsHaveRoom(t, plan)
  }

  /** What a run that was not refused means. */
  lemma {:induction false} RunMeans(
    show: Value -> string, loc: Locale, t: Tables, collections: seq<Collection>, mixed: set<Id>,
    requests: seq<MergeRequest>, sweeps: seq<seq<RefPath>>, t': Tables, after: seq<Collection>, ok: bool)
    requires !Objections(show, t, collections, mixed, PlanOf(loc, t, requests))
    requires SurveyedSweeps(collections, sweeps, PlanOf(loc, t, requests).merges)
    requires ok <==> CanWrite(loc, t, collections, PlanOf(loc, t, requests), sweeps)
    requires ok ==> ParentsKnown(PlanOf(loc, t, requests).sections, ParentIds(loc, t, PlanOf(loc, t, requests)))
    requires ok ==> t' == Migrate(loc, t, PlanOf(loc, t, requests))
    requires ok ==> MergedCollections(collections, after, sweeps, PlanOf(loc, t, requests).merges)
    ensures Ready(loc, t, collections) ==> (ok <==> NothingInTheWay(loc, t, collections, PlanOf(loc, t, requests)))
    ensures Ready(loc, t, collections) && ok ==> AllRenamed(collections, after, PlanOf(loc, t, requests).merges)
    ensures Ready(loc, t, collections) && FreshStart(t, PlanOf(loc, t, requests)) ==> ok && Catalogued(loc, t, t')
  {
    hide Stored, CodesUnique, SectionCodesUnique, Sound, Clear, SweepsOf, AllFit, CanWrite, SectionsMeet, LosersMeet,
      PlanOf, DepartmentPlan, SectionPlan, ParentIds, ParentsKnown, CatalogsHaveRoom, NothingLinked, OneLoserEach,
      Unchained, Migrate, MergedCollections, AllRenamed, Catalogued, NothingInTheWay;
    var plan := PlanOf(loc, t, requests);
    if Ready(loc, t, collections) {
      AcceptedIsSound(loc, t, requests);
      StoredIsNumbered(t);
      CanWriteIff(show, loc, t, collections, mixed, requests, sweeps);
      if ok {
        MergedIsRenamed(collections, after, sweeps, plan.merges);
      }
      if FreshStart(t, plan) {
        FreshRunWrites(show, loc, t, collections, mixed, requests, sweeps);
        MigrationCatalogues(loc, t, requests);
      }
    }
  }

  // ---------------------------------------------------------------- starting points of the loops

  lemma {:induction false} LinkNoDepartments(departments: Departments, entries: seq<Entry>, base: Id)
    ensures LinkDepartments(departments, entries[..0], base) == departments
    ensures EntryCodes(entries[..0]) == {} && forall taken :: CodesFree(taken, entries[..0])
  {
    assert entries[..0] == [];
  }

  lemma {:induction false} LinkNoSections(sections: Sections, entries: seq<Entry>, base: Id)
    ensures LinkSections(sections, entries[..0], base) == sections
    ensures EntryCodes(entries[..0]) == {} && forall taken :: CodesFree(taken, entries[..0])
  {
    assert entries[..0] == [];
  }

  lemma {:induction false} NoMerges(departments: Departments, sections: Sections, merges: seq<Merge>)
    ensures MergeSections(sections, merges[..0]) == sections && Retire(departments, merges[..0]) == departments
  {
    assert merges[..0] == [];
  }

  lemma {:induction false} NoSweeps(collections: seq<Collection>, sweeps: seq<seq<RefPath>>, merges: seq<Merge>)
    requires |collections| == |sweeps|
    ensures MergedCollections(collections, collections, sweeps, merges[..0])
  {
    assert merges[..0] == [];
  }

  lemma {:induction false} MergedIsMerge(
    before: seq<Collection>, after: seq<Collection>, sweeps: seq<seq<RefPath>>, merges: seq<Merge>)
    requires |before| == |sweeps| && MergedCollections(before, after, sweeps, merges)
    ensures CollectionsMerge(before, sweeps, merges)
  {
  }
}

module OrgDatabase {
  import opened Options
  import opened Sequences
  import opened OrgRows
  import opened OrgPlanSpec
  import opened OrgPlanner
  import opened References
  import opened ReferencesMerges
  import opened ReferencesSurvey
  import opened ReferencesIndexes
  import opened ReferencesWrites
  import opened OrgTables
  import opened OrgMigrationSpec
  import opened OrgMigration
  import opened OrgMigrationTheorems
  import opened OrgCatalogTheorem
  import opened OrgClaims
  import opened OrgRun
  import opened OrgMergeOrder
  import opened KeyedRows

  /** How a run ends: refused whole, broken off by a write that failed, or written. */
  datatype Outcome = RefusedWhole | BrokenOff | Written

  function Before(n: nat): nat {
    if n == 0 then 0 else n - 1
  }

  /** The entries of `made` are linked, but for some members of the last. */
  ghost predicate DepartmentsLinkedTo(was: Departments, now: Departments, entries: seq<Entry>, base: Id, made: nat)
    requires made <= |entries|
  {
    Between(LinkDepartments(was, entries[..Before(made)], base), now, LinkDepartments(was, entries[..made], base))
  }

  ghost predicate SectionsLinkedTo(was: Sections, now: Sections, entries: seq<Entry>, base: Id, made: nat)
    requires made <= |entries|
  {
    Between(LinkSections(was, entries[..Before(made)], base), now, LinkSections(was, entries[..made], base))
  }

  lemma {:induction false} LinkedSoFar(was: Departments, now: Departments, entries: seq<Entry>, base: Id, made: nat)
    requires made <= |entries| && now == LinkDepartments(was, entries[..made], base)
    ensures DepartmentsLinkedTo(was, now, entries, base, made)
  {
  }

  lemma {:induction false} SectionsLinkedSoFar(was: Sections, now: Sections, entries: seq<Entry>, base: Id, made: nat)
    requires made <= |entries| && now == LinkSections(was, entries[..made], base)
    ensures SectionsLinkedTo(was, now, entries, base, made)
  {
  }

  /** `createEntries` after `made` department and `sectionsMade` section entries. */
  ghost predicate CreatedTo(loc: Locale, t: Tables, now: Tables, plan: Plan, made: nat, sectionsMade: nat) {
    var base, parents := t.nextId + |plan.departments|, ParentIds(loc, t, plan);
    && made <= |plan.departments| && sectionsMade <= |plan.sections| && now.nextId == t.nextId + made + sectionsMade
    && now.departmentCatalog == WithEntries(t.departmentCatalog, plan.departments[..made], t.nextId)
    && DepartmentsLinkedTo(t.departments, now.departments, plan.departments, t.nextId, made)
    && (sectionsMade > 0 ==>
          made == |plan.departments| && now.departments == LinkDepartments(t.departments, plan.departments, t.nextId))
    && ParentsKnown(plan.sections[..sectionsMade], parents)
    && now.sectionCatalog == WithSectionEntries(t.sectionCatalog, plan.sections[..sectionsMade], parents, base)
    && SectionsLinkedTo(t.sections, now.sections, plan.sections, base, sectionsMade)
  }

  /** All entries are created and linked, the first `done` merges applied, and the next one broke off. */
  ghost predicate MergedUpTo(
    loc: Locale, t: Tables, now: Tables, before: seq<Collection>, after: seq<Collection>, plan: Plan,
    sweeps: seq<seq<RefPath>>, done: nat)
    requires |before| == |sweeps|
  {
    var base, parents := t.nextId + |plan.departments|, ParentIds(loc, t, plan);
    && done < |plan.merges| && ParentsKnown(plan.sections, parents) && now.nextId == base + |plan.sections|
    && now.departmentCatalog == WithEntries(t.departmentCatalog, plan.departments, t.nextId)
    && now.sectionCatalog == WithSectionEntries(t.sectionCatalog, plan.sections, parents, base)
    && now.departments == Retire(LinkDepartments(t.departments, plan.departments, t.nextId), plan.merges[..done])
    && MergesBrokeOff(
         LinkSections(t.sections, plan.sections, base), now.sections, before, after, sweeps, plan.merges, done)
  }

  /** What a run leaves that breaks off: some of the entries and no merge, or every entry and some of the merges. */
  ghost predicate LeftHalfway(
    loc: Locale, t: Tables, now: Tables, before: seq<Collection>, after: seq<Collection>, plan: Plan,
    sweeps: seq<seq<RefPath>>)
    requires |before| == |sweeps|
  {
    if CanCreate(loc, t, plan) then exists done: nat :: MergedUpTo(loc, t, now, before, after, plan, sweeps, done)
    else after == before && exists made: nat, sectionsMade: nat :: CreatedTo(loc, t, now, plan, made, sectionsMade)
  }

  lemma {:induction false} SectionEntriesSnoc(
    catalog: SectionCatalog, entries: seq<Entry>, idByKey: map<string, Id>, base: Id, n: nat)
    requires n < |entries| && ParentsKnown(entries[..n], idByKey)
    ensures (entries[n].parentKey.Some? && entries[n].parentKey.value in idByKey) <==>
              ParentsKnown(entries[..n + 1], idByKey)
    ensures !ParentsKnown(entries[..n + 1], idByKey) ==> !ParentsKnown(entries, idByKey)
    ensures ParentsKnown(entries[..n + 1], idByKey) ==>
              entries[n].parentKey.Some? && entries[n].parentKey.value in idByKey &&
              WithSectionEntries(catalog, entries[..n + 1], idByKey, base) ==
              WithSectionEntries(catalog, entries[..n], idByKey, base)
                [base + n :=
                  SectionCatalogEntry(entries[n].code, entries[n].name, idByKey[entries[n].parentKey.value], false)]
  {
    assert entries[..n + 1][..n] == entries[..n];
    assert forall i :: 0 <= i < n ==> entries[..n + 1][i] == entries[..n][i];
    assert entries[..n + 1][n] == entries[n];
  }

  lemma {:induction false} NoSectionEntries(
    sections: Sections, catalog: SectionCatalog, entries: seq<Entry>, idByKey: map<string, Id>, base: Id)
    ensures ParentsKnown(entries[..0], idByKey) && WithSectionEntries(catalog, entries[..0], idByKey, base) == catalog
    ensures SectionsLinkedTo(sections, sections, entries, base, 0)
  {
    LinkNoSections(sections, entries, base);
  }

  /** The collections the migration reads and writes. */
  class Database {
    var departments: Departments
    var sections: Sections
    var departmentCatalog: DepartmentCatalog
    var sectionCatalog: SectionCatalog
    var nextId: Id
    /** Every other collection, in the order `collectModelRefs` sorts them. */
    var collections: seq<Collection>
    /** The ids mentioned inside the `Mixed` carriers. */
    var mixed: set<Id>

    ghost function View(): Tables
      reads this
    {
      Tables(departments, sections, departmentCatalog, sectionCatalog, nextId)
    }

    /** New ids are fresh and every unique index holds, as the database itself sees to. */
    ghost predicate Valid()
      reads this
    {
      Stored(View()) && AllFit(collections)
    }

    constructor (t: Tables, collections: seq<Collection>, mixed: set<Id>)
      requires Stored(t) && AllFit(collections)
      ensures Valid() && View() == t && this.collections == collections && this.mixed == mixed
    {
      departments, sections, nextId := t.departments, t.sections, t.nextId;
      departmentCatalog, sectionCatalog := t.departmentCatalog, t.sectionCatalog;
      this.collections, this.mixed := collections, mixed;
    }

    /** One department entry and its `updateMany`: stops at a code that is taken or a duplicated claim. */
    method CreateDepartmentEntry(entry: Entry) returns (created: bool, ok: bool)
      requires Valid()
      modifies this`departments, this`departmentCatalog, this`nextId
      ensures Valid()
      ensures created <==> entry.code !in DepartmentCodes(old(departmentCatalog))
      ensures !created ==> !ok && View() == old(View())
      ensures created ==>
                && nextId == old(nextId) + 1
                && departmentCatalog ==
                  old(departmentCatalog)[old(nextId) := CatalogEntry(entry.code, entry.name, false)]
                && DepartmentCodes(departmentCatalog) == DepartmentCodes(old(departmentCatalog)) + {entry.code}
                && Between(old(departments), departments, LinkDepartmentMembers(old(departments), entry, old(nextId)))
                && (ok <==> KeysApart(LinkDepartmentMembers(old(departments), entry, old(nextId)), DepartmentClaim()))
                && (ok ==> departments == LinkDepartmentMembers(old(departments), entry, old(nextId)))
    {
      hide KeysApart, Absorbs, Between;
      created := entry.code !in DepartmentCodes(departmentCatalog);
      if !created {
        return false, false;
      }
      ghost var t := View();
      var id := nextId;
      DepartmentCodesGrow(departmentCatalog, id, CatalogEntry(entry.code, entry.name, false));
      DepartmentLinkAbsorbs(t, entry);
      var now;
      ok, now := WriteRows(departments, LinkDepartmentMembers(departments, entry, id), DepartmentClaim());
      StoredDepartments(t, entry, now);
      nextId := nextId + 1;
      departmentCatalog := departmentCatalog[id := CatalogEntry(entry.code, entry.name, false)];
      departments := now;
    }

    /** The department half of `createEntries`. */
    method CreateDepartmentEntries(entries: seq<Entry>) returns (ok: bool, made: nat, idByKey: map<string, Id>)
      requires Valid()
      modifies this`departments, this`departmentCatalog, this`nextId
      ensures Valid()
      ensures ok <==> CodesFree(DepartmentCodes(old(departmentCatalog)), entries) &&
                      DepartmentLinksFit(old(departments), entries, old(nextId))
      ensures made <= |entries| && nextId == old(nextId) + made
      ensures departmentCatalog == WithEntries(old(departmentCatalog), entries[..made], old(nextId))
      ensures DepartmentsLinkedTo(old(departments), departments, entries, old(nextId), made)
      ensures ok ==> made == |entries| && departments == LinkDepartments(old(departments), entries, old(nextId)) &&
                     idByKey == IdByKey(entries, old(nextId))
    {
      hide KeysApart, CodesFree, Stored, LinkDepartments, LinkDepartmentMembers;
      idByKey, made := map[], 0;
      ghost var taken := DepartmentCodes(departmentCatalog);
      LinkNoDepartments(departments, entries, nextId);
      StoredIsNumbered(View());
      while made < |entries|
        invariant Valid() && made <= |entries| && nextId == old(nextId) + made
        invariant CodesFree(taken, entries[..made]) &&
                  DepartmentCodes(departmentCatalog) == taken + EntryCodes(entries[..made])
        invariant forall n :: 0 <= n <= made ==>
                    KeysApart(LinkDepartments(old(departments), entries[..n], old(nextId)), DepartmentClaim())
        invariant departments == LinkDepartments(old(departments), entries[..made], old(nextId))
        invariant departmentCatalog == WithEntries(old(departmentCatalog), entries[..made], old(nextId))
        invariant idByKey == IdByKey(entries[..made], old(nextId))
      {
        var entry, id := entries[made], nextId;
        assert entries[..made + 1][..made] == entries[..made];
        LinkDepartmentsSnoc(old(departments), entries, made, old(nextId));
        CodesFreeSnoc(taken, entries, made);
        var created;
        created, ok := CreateDepartmentEntry(entry);
        if !created {
          LinkedSoFar(old(departments), departments, entries, old(nextId), made);
          return false, made, idByKey;
        }
        made := made + 1;
        if !ok {
          return false, made, idByKey;
        }
        idByKey := idByKey[entry.foldedKey := id];
      }
      assert entries[..|entries|] == entries;
      LinkedSoFar(old(departments), departments, entries, old(nextId), made);
      ok := true;
    }

    /** One section entry and its `updateMany`. */
    method CreateSectionEntry(entry: Entry, parent: Id) returns (created: bool, ok: bool)
      requires Valid()
      modifies this`sections, this`sectionCatalog, this`nextId
      ensures Valid()
      ensures created <==> entry.code !in SectionCodes(old(sectionCatalog))
      ensures !created ==> !ok && View() == old(View())
      ensures created ==>
                && nextId == old(nextId) + 1
                && sectionCatalog ==
                  old(sectionCatalog)[old(nextId) := SectionCatalogEntry(entry.code, entry.name, parent, false)]
                && SectionCodes(sectionCatalog) == SectionCodes(old(sectionCatalog)) + {entry.code}
                && Between(old(sections), sections, LinkSectionMembers(old(sections), entry, old(nextId)))
                && (ok <==> KeysApart(LinkSectionMembers(old(sections), entry, old(nextId)), SectionClaim()))
                && (ok ==> sections == LinkSectionMembers(old(sections), entry, old(nextId)))
    {
      hide KeysApart, Absorbs, Between;
      created := entry.code !in SectionCodes(sectionCatalog);
      if !created {
        return false, false;
      }
      ghost var t := View();
      var id := nextId;
      SectionCodesGrow(sectionCatalog, id, SectionCatalogEntry(entry.code, entry.name, parent, false));
      SectionLinkAbsorbs(t, entry);
      var now;
      ok, now := WriteRows(sections, LinkSectionMembers(sections, entry, id), SectionClaim());
      StoredSections(t, entry, parent, now);
      nextId := nextId + 1;
      sectionCatalog := sectionCatalog[id := SectionCatalogEntry(entry.code, entry.name, parent, false)];
      sections := now;
    }

    /** The section half of `createEntries`; it also stops at the first entry whose parent is unknown. */
    method CreateSectionEntries(entries: seq<Entry>, idByKey: map<string, Id>) returns (ok: bool, made: nat)
      requires Valid()
      modifies this`sections, this`sectionCatalog, this`nextId
      ensures Valid()
      ensures ok <==> && ParentsKnown(entries, idByKey) && CodesFree(SectionCodes(old(sectionCatalog)), entries)
                      && SectionLinksFit(old(sections), entries, old(nextId))
      ensures made <= |entries| && nextId == old(nextId) + made && ParentsKnown(entries[..made], idByKey)
      ensures sectionCatalog == WithSectionEntries(old(sectionCatalog), entries[..made], idByKey, old(nextId))
      ensures SectionsLinkedTo(old(sections), sections, entries, old(nextId), made)
      ensures ok ==> made == |entries| && sections == LinkSections(old(sections), entries, old(nextId))
    {
      hide KeysApart, CodesFree, Stored, AllFit, LinkSections, LinkSectionMembers, ParentsKnown, WithSectionEntries,
        EntryCodes, SectionCodes;
      made := 0;
      ghost var taken := SectionCodes(sectionCatalog);
      LinkNoSections(sections, entries, nextId);
      NoSectionEntries(sections, sectionCatalog, entries, idByKey, nextId);
      StoredIsNumbered(View());
      while made < |entries|
        invariant Valid() && made <= |entries| && nextId == old(nextId) + made
        invariant ParentsKnown(entries[..made], idByKey)
        invariant CodesFree(taken, entries[..made]) &&
                  SectionCodes(sectionCatalog) == taken + EntryCodes(entries[..made])
        invariant forall n :: 0 <= n <= made ==>
                    KeysApart(LinkSections(old(sections), entries[..n], old(nextId)), SectionClaim())
        invariant sections == LinkSections(old(sections), entries[..made], old(nextId))
        invariant sectionCatalog == WithSectionEntries(old(sectionCatalog), entries[..made], idByKey, old(nextId))
      {
        var entry := entries[made];
        SectionEntriesSnoc(old(sectionCatalog), entries, idByKey, old(nextId), made);
        if entry.parentKey.None? || entry.parentKey.value !in idByKey {
          SectionsLinkedSoFar(old(sections), sections, entries, old(nextId), made);
          return false, made;
        }
        LinkSectionsSnoc(old(sections), entries, made, old(nextId));
        CodesFreeSnoc(taken, entries, made);
        var created;
        created, ok := CreateSectionEntry(entry, idByKey[entry.parentKey.value]);
        if !created {
          SectionsLinkedSoFar(old(sections), sections, entries, old(nextId), made);
          return false, made;
        }
        made := made + 1;
        if !ok {
          return false, made;
        }
      }
      assert entries[..|entries|] == entries;
      SectionsLinkedSoFar(old(sections), sections, entries, old(nextId), made);
      ok := true;
    }

    /** Parents an earlier run catalogued, found by the fold the plan used. */
    method ReadBackParents(loc: Locale, known: map<string, Id>) returns (idByKey: map<string, Id>)
      ensures idByKey == ReadBack(loc, departmentCatalog, known, nextId)
    {
      idByKey := known;
      for n := 0 to nextId
        invariant idByKey == ReadBack(loc, departmentCatalog, known, n)
      {
        if n in departmentCatalog && !departmentCatalog[n].isDeleted {
          var key := FoldUnitName(loc, departmentCatalog[n].name);
          if key !in idByKey {
            idByKey := idByKey[key := n];
          }
        }
      }
    }

    /** `createEntries`; `made` and `sectionsMade` are the entries it created, also when it broke off. */
    method CreateEntries(loc: Locale, plan: Plan) returns (ok: bool, made: nat, sectionsMade: nat)
      requires Valid()
      modifies this`departments, this`sections, this`departmentCatalog, this`sectionCatalog, this`nextId
      ensures Valid()
      ensures ok <==> CanCreate(loc, old(View()), plan)
      ensures CreatedTo(loc, old(View()), View(), plan, made, sectionsMade)
      ensures ok ==>
                && departments == LinkDepartments(old(departments), plan.departments, old(nextId))
                && sections == LinkSections(old(sections), plan.sections, old(nextId) + |plan.departments|)
                && made == |plan.departments| && sectionsMade == |plan.sections|
                && nextId == old(nextId) + |plan.departments| + |plan.sections|
    {
      hide KeysApart, CodesFree, Stored, LinkSections, LinkDepartments, DepartmentLinksFit, SectionLinksFit,
        ParentsKnown, WithEntries, WithSectionEntries, IdByKey, ReadBack, DepartmentsLinkedTo;
      var created;
      ok, made, created := CreateDepartmentEntries(plan.departments);
      sectionsMade := 0;
      if !ok {
        NoSectionEntries(sections, sectionCatalog, plan.sections, ParentIds(loc, old(View()), plan),
          old(nextId) + |plan.departments|);
        return;
      }
      assert plan.departments[..made] == plan.departments;
      var idByKey := ReadBackParents(loc, created);
      assert idByKey == ParentIds(loc, old(View()), plan);
      ok, sectionsMade := CreateSectionEntries(plan.sections, idByKey);
      assert plan.sections[..|plan.sections|] == plan.sections;
    }

    /** The sweep of `sections.departmentId`, then the path of every living section under the winner. */
    method MoveSections(merge: Merge) returns (ok: bool)
      requires Valid()
      modifies this`sections
      ensures Valid()
      ensures ok <==> KeysApart(RepointSections(old(sections), merge), SectionClaim())
      ensures ok ==> sections == RebuildPaths(RepointSections(old(sections), merge), merge.winnerId)
      ensures !ok ==> Between(old(sections), sections, RepointSections(old(sections), merge))
    {
      hide KeysApart, Absorbs;
      ghost var t := View();
      RepointAbsorbs(sections, merge);
      var now;
      ok, now := WriteRows(sections, RepointSections(sections, merge), SectionClaim());
      StoredMoved(t, merge, now);
      sections := now;
      if ok {
        PathsClaimNothing(sections, merge.winnerId);
        sections := RebuildPaths(sections, merge.winnerId);
        StoredMoved(t, merge, sections);
      }
    }

    /** One merge's sweeps over every other collection. A failed write stops the run. */
    method SweepCollections(merge: Merge, sweeps: seq<seq<RefPath>>) returns (ok: bool)
      requires |sweeps| == |collections| && AllFit(collections)
      modifies this`collections
      ensures AllFit(collections) && |collections| == old(|collections|)
      ensures ok <==> !SomeSweepStops(old(collections), sweeps, merge)
      ensures ok ==> SweptCollections(old(collections), collections, sweeps, merge, |collections|)
      ensures !ok ==> SweepsBrokeOff(old(collections), collections, sweeps, merge)
    {
      hide Fits, SweepAll, SweepStops;
      for k := 0 to |collections|
        invariant AllFit(collections)
        invariant SweptCollections(old(collections), collections, sweeps, merge, k)
      {
        var c := collections[k];
        var done, docs, stop := SweepDocs(c.indexes, c.docs, sweeps[k], merge);
        ghost var before := collections;
        collections := collections[k := c.(docs := docs)];
        if !done {
          assert collections[k := c] == before;
          assert SweepsStopAt(old(collections), collections, sweeps, merge, k, stop);
          return false;
        }
      }
      ok := true;
    }

    /** Retires one department. */
    method RetireDepartment(id: Id)
      requires Valid()
      modifies this`departments
      ensures Valid()
      ensures departments ==
              if id in old(departments) then old(departments)[id := old(departments)[id].(isDeleted := true)]
                             else old(departments)
    {
      if id in departments {
        StoredRetired(View(), id);
        departments := departments[id := departments[id].(isDeleted := true)];
      }
    }

    /** `applyMerges`; `done` merges were applied whole. */
    method ApplyMerges(merges: seq<Merge>, sweeps: seq<seq<RefPath>>) returns (ok: bool, done: nat)
      requires Valid() && |sweeps| == |collections|
      modifies this`departments, this`sections, this`collections
      ensures Valid() && |collections| == old(|collections|)
      ensures ok <==> && CollectionsMerge(old(collections), sweeps, merges)
                      && KeysApart(MergeSections(old(sections), merges), SectionClaim())
      ensures done <= |merges| && (ok <==> done == |merges|)
      ensures departments == Retire(old(departments), merges[..done])
      ensures ok ==> sections == MergeSections(old(sections), merges)
      ensures ok ==> MergedCollections(old(collections), collections, sweeps, merges)
      ensures !ok ==> MergesBrokeOff(old(sections), sections, old(collections), collections, sweeps, merges, done)
      ensures SurveyedSweeps(old(collections), sweeps, merges) ==>
                AfterMerges(old(departments), old(sections), old(collections), merges) ==
                if ok then Some(Merged(departments, sections, collections)) else None
    {
      hide KeysApart, SurveyedSweeps, AfterMerges, Stored, AllFit, Retire, MergeSections, MergeAll, SweepAll,
        RepointSections, RebuildPaths, SweepsBrokeOff, Between;
      done := 0;
      NoMerges(departments, sections, merges);
      NoSweeps(collections, sweeps, merges);
      StoredIsNumbered(View());
      while done < |merges|
        invariant Valid() && done <= |merges|
        invariant sections == MergeSections(old(sections), merges[..done])
        invariant KeysApart(MergeSections(old(sections), merges[..done]), SectionClaim())
        invariant departments == Retire(old(departments), merges[..done])
        invariant MergedCollections(old(collections), collections, sweeps, merges[..done])
      {
        ghost var before, was := collections, sections;
        var swept := SweepCollections(merges[done], sweeps);
        if !swept {
          StoppedMerge(old(collections), before, sweeps, merges, done);
          assert MergeBrokeOff(sections, sections, before, collections, sweeps, merges[done]);
          if SurveyedSweeps(old(collections), sweeps, merges) {
            BrokenMerges(old(departments), old(sections), old(collections), sweeps, merges);
          }
          return false, done;
        }
        NextMerge(old(collections), before, collections, sweeps, merges, done);
        MergeSectionsStep(old(sections), merges, done);
        var moved := MoveSections(merges[done]);
        if !moved {
          SectionCollisionStays(old(sections), merges, done + 1);
          assert MergeBrokeOff(was, sections, before, collections, sweeps, merges[done]);
          if SurveyedSweeps(old(collections), sweeps, merges) {
            BrokenMerges(old(departments), old(sections), old(collections), sweeps, merges);
          }
          return false, done;
        }
        RetireSnoc(old(departments), merges, done);
        RetireDepartment(merges[done].loserId);
        done := done + 1;
      }
      assert merges[..|merges|] == merges;
      MergedIsMerge(old(collections), collections, sweeps, merges);
      if SurveyedSweeps(old(collections), sweeps, merges) {
        AppliedMerges(old(departments), old(sections), old(collections), collections, sweeps, merges);
      }
      ok := true;
    }

    method ReadDepartments() returns (rows: seq<UnitRow>)
      ensures rows == LiveDepartments(departments, nextId)
    {
      rows := [];
      for n := 0 to nextId
        invariant rows == LiveDepartments(departments, n)
      {
        if n in departments && !departments[n].isDeleted {
          rows := rows + [DepartmentRow(n, departments[n])];
        }
      }
    }

    method ReadSections() returns (rows: seq<UnitRow>, docs: seq<Value>)
      ensures rows == LiveSections(sections, nextId)
      ensures docs == SectionDocs(sections, nextId)
    {
      rows, docs := [], [];
      for n := 0 to nextId
        invariant rows == LiveSections(sections, n) && docs == SectionDocs(sections, n)
      {
        if n in sections {
          docs := docs + [SectionDoc(sections[n])];
          if !sections[n].isDeleted {
            rows := rows + [SectionRow(n, sections[n])];
          }
        }
      }
    }

    /** Steps 1 and 2: read, plan, and check the plan against the rest of the database. */
    method Preflight(loc: Locale, show: Value -> string, requests: seq<MergeRequest>)
      returns (plan: Plan, sweeps: seq<seq<RefPath>>, objections: bool)
      ensures plan == PlanOf(loc, View(), requests)
      ensures SurveyedSweeps(collections, sweeps, plan.merges)
      ensures objections <==> Objections(show, View(), collections, mixed, plan)
    {
      var departmentRows := ReadDepartments();
      var sectionRows, sectionDocs := ReadSections();
      LiveDepartmentsMeaning(departments, nextId);
      LiveSectionsMeaning(sections, nextId);
      plan := PlanOrgCatalog(loc, departmentRows, sectionRows, requests);
      var losers := LosersOf(plan.merges);
      var clear, silent, paths;
      sweeps, clear := SurveyAll(show, collections, losers);
      paths, silent := SurveyCollection(show, Collection(SECTION_FIELDS, SECTION_INDEXES, sectionDocs), losers);
      objections := plan.problems != [] || !silent || !clear || exists id :: id in mixed && LosesIn(plan.merges, id);
    }

    /** Step 4: create the catalog entries, link every row to one, apply the merges. */
    method Write(loc: Locale, plan: Plan, sweeps: seq<seq<RefPath>>) returns (ok: bool)
      requires Valid() && |sweeps| == |collections|
      modifies this`departments, this`sections, this`departmentCatalog, this`sectionCatalog, this`nextId,
        this`collections
      ensures Valid() && |collections| == old(|collections|)
      ensures ok <==> CanWrite(loc, old(View()), old(collections), plan, sweeps)
      ensures ok ==>
                && ParentsKnown(plan.sections, ParentIds(loc, old(View()), plan))
                && View() == Migrate(loc, old(View()), plan)
                && MergedCollections(old(collections), collections, sweeps, plan.merges)
      ensures !ok ==> LeftHalfway(loc, old(View()), View(), old(collections), collections, plan, sweeps)
    {
      hide KeysApart, CodesFree, Stored, AllFit, LinkSections, LinkDepartments, DepartmentLinksFit, SectionLinksFit,
        WithEntries, WithSectionEntries, MergeSections, Retire, MergedCollections, CollectionsMerge, MergesBrokeOff;
      var made, sectionsMade;
      ok, made, sectionsMade := CreateEntries(loc, plan);
      assert plan.departments[..|plan.departments|] == plan.departments;
      assert plan.sections[..|plan.sections|] == plan.sections;
      if ok {
        var done;
        ok, done := ApplyMerges(plan.merges, sweeps);
        assert plan.merges[..|plan.merges|] == plan.merges;
        assert !ok ==> MergedUpTo(loc, old(View()), View(), old(collections), collections, plan, sweeps, done);
      } else {
        assert CreatedTo(loc, old(View()), View(), plan, made, sectionsMade);
      }
    }

    /**
     * `runOrgCatalogMigration`. A single objection refuses the whole run and changes nothing; otherwise
     * the run is written, or breaks off at the first write that fails. Where nothing is linked yet, one
     * loser per winner and free codes are enough: every unit ends up catalogued, every declared slot
     * renamed and every unique index whole.
     */
    method RunOrgCatalogMigration(loc: Locale, show: Value -> string, requests: seq<MergeRequest>, write: bool)
      returns (outcome: Outcome, plan: Plan, ghost sweeps: seq<seq<RefPath>>)
      requires Valid()
      modifies this`departments, this`sections, this`departmentCatalog, this`sectionCatalog, this`nextId,
        this`collections
      ensures Valid()
      ensures plan == PlanOf(loc, old(View()), requests) && SurveyedSweeps(old(collections), sweeps, plan.merges)
      ensures outcome == RefusedWhole <==> !write || Objections(show, old(View()), old(collections), mixed, plan)
      ensures outcome == RefusedWhole ==> View() == old(View()) && collections == old(collections)
      ensures outcome == Written ==> CanWrite(loc, old(View()), old(collections), plan, sweeps)
      ensures outcome == BrokenOff ==>
                && !CanWrite(loc, old(View()), old(collections), plan, sweeps)
                && LeftHalfway(loc, old(View()), View(), old(collections), collections, plan, sweeps)
      ensures outcome == Written ==>
                && ParentsKnown(plan.sections, ParentIds(loc, old(View()), plan))
                && View() == Migrate(loc, old(View()), plan)
                && MergedCollections(old(collections), collections, sweeps, plan.merges)
      ensures outcome != RefusedWhole && Ready(loc, old(View()), old(collections)) ==>
                (outcome == Written <==> NothingInTheWay(loc, old(View()), old(collections), plan))
      ensures outcome == Written && Ready(loc, old(View()), old(collections)) ==>
                AllRenamed(old(collections), collections, plan.merges)
      ensures outcome != RefusedWhole && Ready(loc, old(View()), old(collections)) && FreshStart(old(View()), plan) ==>
                outcome == Written && Catalogued(loc, old(View()), View())
    {
      hide KeysApart, Stored, AllFit, Objections, CanWrite, Migrate, MergedCollections, AllRenamed, Catalogued,
        NothingInTheWay, FreshStart, PlanOf, ParentsKnown, ParentIds, Ready, SweepsOf, LeftHalfway;
      ghost var t, was := View(), collections;
      var paths, objections;
      plan, paths, objections := Preflight(loc, show, requests);
      sweeps := paths;
      if !write || objections {
        return RefusedWhole, plan, sweeps;
      }
      var ok := Write(loc, plan, paths);
      outcome := if ok then Written else BrokenOff;
      RunMeans(show, loc, t, was, mixed, requests, sweeps, View(), collections, ok);
    }
  }
}
