/** Any order of the merges leaves the same database. */
module OrgMergeOrder {
  import opened Options
  import opened Sequences
  import opened OrgRows
  import opened OrgPlanSpec
  import opened OrgPlanner
  import opened References
  import opened ReferencesMerges
  import opened ReferencesSurvey
  import opened ReferencesIndexes
  import opened ReferencesWrites
  import opened OrgTables
  import opened OrgMigrationTheorems
  import opened OrgClaims
  import opened OrgRun
  import opened KeyedRows

  // ---------------------------------------------------------------- sections and departments

  predicate TakesPart(merges: seq<Merge>, id: Id) {
    exists m :: m in merges && (m.loserId == id || m.winnerId == id)
  }

  /** A section when the merges are done: at its new home, its path rebuilt if it lives where a merge took place. */
  function MovedSection(id: Id, s: Section, merges: seq<Merge>): Section {
    var moved := s.(departmentId := NewHome(merges, s));
    if !s.isDeleted && s.departmentId.Some? && TakesPart(merges, s.departmentId.value)
    then moved.(path := [s.branchId, moved.departmentId.value, id])
    else moved
  }

  lemma {:induction false} TakesPartSnoc(merges: seq<Merge>, id: Id)
    requires merges != []
    ensures var n := |merges| - 1;
            TakesPart(merges, id) <==> TakesPart(merges[..n], id) || merges[n].loserId == id || merges[n].winnerId == id
  {
    var n := |merges| - 1;
    assert merges == merges[..n] + [merges[n]];
  }

  /** The path is rebuilt exactly when the section lives and its department loses or wins. */
  lemma {:induction false} MergedExactly(id: Id, s: Section, merges: seq<Merge>)
    requires Unchained(merges)
    ensures MergeSectionAll(id, s, merges) == MovedSection(id, s, merges)
    decreases |merges|
  {
    if merges != [] {
      var n := |merges| - 1;
      var init, last := merges[..n], merges[n];
      UnchainedInit(merges);
      MergedExactly(id, s, init);
      if s.departmentId.Some? {
        var d := s.departmentId.value;
        RenamingStep(merges, d);
        TakesPartSnoc(merges, d);
        WinnerForMeaning(init, d);
        WinnerForMeaning(merges, d);
        assert last in merges;
        if WinnerFor(init, d) == last.winnerId {
          assert TakesPart(merges, d);
        }
        MovedStep(id, s, init, last);
      }
    }
  }

  lemma {:induction false} MovedStep(id: Id, s: Section, init: seq<Merge>, last: Merge)
    requires s.departmentId.Some? && last.loserId != last.winnerId
    requires var d := s.departmentId.value;
             TakesPart(init + [last], d) <==> TakesPart(init, d) || WinnerFor(init, d) in {last.loserId, last.winnerId}
    requires var d := s.departmentId.value;
             WinnerFor(init + [last], d) ==
             if WinnerFor(init, d) == last.loserId then last.winnerId else WinnerFor(init, d)
    ensures MergeSection(id, MovedSection(id, s, init), last) == MovedSection(id, s, init + [last])
  {
  }

  lemma {:induction false} SectionsInAnyOrder(sections: Sections, merges: seq<Merge>, others: seq<Merge>)
    requires Unchained(merges) && multiset(merges) == multiset(others)
    ensures MergeSections(sections, merges) == MergeSections(sections, others)
  {
    UnchainedPermuted(merges, others);
    PermutedMembers(merges, others);
    forall id | id in sections
      ensures MergeSectionAll(id, sections[id], merges) == MergeSectionAll(id, sections[id], others)
    {
      MergedExactly(id, sections[id], merges);
      MergedExactly(id, sections[id], others);
      if sections[id].departmentId.Some? {
        SameRenaming(merges, others, sections[id].departmentId.value);
      }
    }
  }

  lemma {:induction false} RetiredInAnyOrder(departments: Departments, merges: seq<Merge>, others: seq<Merge>)
    requires multiset(merges) == multiset(others)
    ensures Retire(departments, merges) == Retire(departments, others)
  {
    PermutedMembers(merges, others);
    assert forall id :: LosesIn(merges, id) <==> LosesIn(others, id);
  }

  // ---------------------------------------------------------------- the other collections

  lemma {:induction false} RenamedInAnyOrder(c: Collection, merges: seq<Merge>, others: seq<Merge>)
    requires Sound(c) && Unchained(merges) && multiset(merges) == multiset(others)
    ensures Renamed(c.fields, c.docs, merges) == Renamed(c.fields, c.docs, others)
  {
    UnchainedPermuted(merges, others);
    forall i | 0 <= i < |c.docs|
      ensures MapObject(c.fields, c.docs[i], Renaming(merges)) == MapObject(c.fields, c.docs[i], Renaming(others))
    {
      forall id: Id ensures Renaming(others)(id) == Renaming(merges)(id) {
        SameRenaming(merges, others, id);
      }
      var same := (id: Id) => id;
      MapObjectIdentity(c.fields, c.docs[i], same);
      MapObjectCompose(c.fields, c.docs[i], same, Renaming(merges), Renaming(others));
    }
  }

  lemma {:induction false} WritesInAnyOrder(c: Collection, merges: seq<Merge>, others: seq<Merge>)
    requires Sound(c) && Fits(c.indexes, c.docs) && Unchained(merges) && multiset(merges) == multiset(others)
    ensures MergeAll(c.indexes, c.docs, SweepsOf(c, LosersOf(merges)), merges) ==
            MergeAll(c.indexes, c.docs, SweepsOf(c, LosersOf(others)), others)
  {
    UnchainedPermuted(merges, others);
    RenamedInAnyOrder(c, merges, others);
    WritesRename(c, merges);
    WritesRename(c, others);
  }

  // ---------------------------------------------------------------- the state the merges leave

  /** Everything `applyMerges` writes. */
  datatype Merged = Merged(departments: Departments, sections: Sections, collections: seq<Collection>)

  function SurveyOf(collections: seq<Collection>, merges: seq<Merge>): (r: seq<seq<RefPath>>)
    ensures |r| == |collections|
  {
    seq(|collections|, k requires 0 <= k < |collections| => SweepsOf(collections[k], LosersOf(merges)))
  }

  /** A collection with its documents merged, or as it is if a write fails. */
  function Rewritten(c: Collection, merges: seq<Merge>): Collection {
    match MergeAll(c.indexes, c.docs, SweepsOf(c, LosersOf(merges)), merges)
    case Some(docs) => c.(docs := docs)
    case None => c
  }

  /** What the merges leave of the departments, the sections and every other collection, or nothing if a write fails. */
  ghost function AfterMerges(
    departments: Departments, sections: Sections, collections: seq<Collection>, merges: seq<Merge>): Option<Merged>
  {
    if CollectionsMerge(collections, SurveyOf(collections, merges), merges) &&
       KeysApart(MergeSections(sections, merges), SectionClaim())
    then Some(Merged(Retire(departments, merges), MergeSections(sections, merges),
                     seq(|collections|, k requires 0 <= k < |collections| => Rewritten(collections[k], merges))))
    else None
  }

  /** That is what a run of the merges leaves. */
  lemma {:induction false} AppliedMerges(
    departments: Departments, sections: Sections, before: seq<Collection>, after: seq<Collection>,
    sweeps: seq<seq<RefPath>>, merges: seq<Merge>)
    requires SurveyedSweeps(before, sweeps, merges) && MergedCollections(before, after, sweeps, merges)
    requires KeysApart(MergeSections(sections, merges), SectionClaim())
    ensures AfterMerges(departments, sections, before, merges) ==
            Some(Merged(Retire(departments, merges), MergeSections(sections, merges), after))
  {
    hide KeysApart, MergeAll, SweepsOf, MergeSections, Retire;
    assert sweeps == SurveyOf(before, merges);
    var out := seq(|before|, k requires 0 <= k < |before| => Rewritten(before[k], merges));
    forall k | 0 <= k < |before| ensures out[k] == after[k] {
      assert MergeAll(before[k].indexes, before[k].docs, sweeps[k], merges) == Some(after[k].docs);
    }
    assert out == after;
  }

  lemma {:induction false} BrokenMerges(
    departments: Departments, sections: Sections, before: seq<Collection>, sweeps: seq<seq<RefPath>>,
    merges: seq<Merge>)
    requires SurveyedSweeps(before, sweeps, merges)
    requires !CollectionsMerge(before, sweeps, merges) || !KeysApart(MergeSections(sections, merges), SectionClaim())
    ensures AfterMerges(departments, sections, before, merges) == None
  {
    hide KeysApart, MergeAll, SweepsOf, MergeSections;
    assert sweeps == SurveyOf(before, merges);
  }

  /** Any order of the merges succeeds alike and leaves the same departments, sections, paths and documents. */
  lemma {:induction false} MergesInAnyOrder(
    departments: Departments, sections: Sections, collections: seq<Collection>, merges: seq<Merge>, others: seq<Merge>)
    requires Unchained(merges) && multiset(merges) == multiset(others)
    requires AllFit(collections) && forall k :: 0 <= k < |collections| ==> Sound(collections[k])
    ensures AfterMerges(departments, sections, collections, merges) ==
            AfterMerges(departments, sections, collections, others)
  {
    hide Fits, Sound, Unchained, MergeAll, SweepsOf, MergeSections, Retire, KeysApart;
    SectionsInAnyOrder(sections, merges, others);
    RetiredInAnyOrder(departments, merges, others);
    forall k | 0 <= k < |collections|
      ensures MergeAll(collections[k].indexes, collections[k].docs, SurveyOf(collections, merges)[k], merges) ==
              MergeAll(collections[k].indexes, collections[k].docs, SurveyOf(collections, others)[k], others)
      ensures Rewritten(collections[k], merges) == Rewritten(collections[k], others)
    {
      WritesInAnyOrder(collections[k], merges, others);
    }
    assert CollectionsMerge(collections, SurveyOf(collections, merges), merges) <==>
           CollectionsMerge(collections, SurveyOf(collections, others), others);
    assert seq(|collections|, k requires 0 <= k < |collections| => Rewritten(collections[k], merges)) ==
           seq(|collections|, k requires 0 <= k < |collections| => Rewritten(collections[k], others));
  }
}
