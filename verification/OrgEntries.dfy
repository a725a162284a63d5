/** How the planned entries divide the rows, and why read order cannot change them. */
module OrgEntries {
  import opened Options
  import opened Sequences
  import opened OrgRows
  import opened OrgPlanSpec
  import opened OrgPlanner
  import opened OrgPlanTheorems

  function NoParent(): UnitRow -> Option<string> {
    (row: UnitRow) => None
  }

  function KeyOfEntry(): Entry -> (Option<string>, string) {
    (e: Entry) => (e.parentKey, e.foldedKey)
  }

  /** A row belongs under an entry when its folded name and its company-wide parent are the entry's. */
  ghost predicate BelongsTo(loc: Locale, parentOf: UnitRow -> Option<string>, row: UnitRow, e: Entry) {
    FoldUnitName(loc, row.name) == e.foldedKey && parentOf(row) == e.parentKey
  }

  /** The entry is named and coded after its oldest member, which it lists first. */
  ghost predicate NamedAfterOldest(loc: Locale, parentOf: UnitRow -> Option<string>, rows: seq<UnitRow>, e: Entry) {
    exists oldest :: oldest in rows && BelongsTo(loc, parentOf, oldest, e)
      && e.memberIds != [] && e.memberIds[0] == oldest.id && e.code == oldest.code && e.name == oldest.name
      && forall r :: r in rows && BelongsTo(loc, parentOf, r, e) ==> !OldestFirst(loc)(r, oldest)
  }

  ghost predicate Gathers(loc: Locale, parentOf: UnitRow -> Option<string>, rows: seq<UnitRow>, e: Entry) {
    && (forall id :: id in e.memberIds <==> exists r :: r in rows && r.id == id && BelongsTo(loc, parentOf, r, e))
    && NamedAfterOldest(loc, parentOf, rows, e)
  }

  /** One entry per (parent, folded name) that occurs, holding exactly the rows that carry it. */
  ghost predicate Divides(loc: Locale, parentOf: UnitRow -> Option<string>, rows: seq<UnitRow>, entries: seq<Entry>) {
    && Distinct(Mapped(entries, KeyOfEntry()))
    && (forall e :: e in entries ==> Gathers(loc, parentOf, rows, e))
    && (forall r :: r in rows ==> exists e :: e in entries && BelongsTo(loc, parentOf, r, e))
  }

  lemma {:induction false} MappedIds(rows: seq<UnitRow>, id: Id)
    ensures id in Mapped(rows, IdOf()) <==> exists r :: r in rows && r.id == id
  {
    var ids := Mapped(rows, IdOf());
    if id in ids {
      var i :| 0 <= i < |ids| && ids[i] == id;
      assert rows[i] in rows && rows[i].id == id;
    }
    if r :| r in rows && r.id == id {
      var i :| 0 <= i < |rows| && rows[i] == r;
      assert ids[i] == id;
    }
  }

  /** The entry made of one non-empty group. */
  lemma {:induction false} EntryGathers(
    loc: Locale, parentOf: UnitRow -> Option<string>, rows: seq<UnitRow>, group: seq<UnitRow>,
    key: string, parent: Option<string>)
    requires StrictTotalOrder(loc.before) && group != []
    requires forall r :: r in group <==> r in rows && FoldUnitName(loc, r.name) == key && parentOf(r) == parent
    ensures Gathers(loc, parentOf, rows, EntryOf(loc, key, group, parent))
  {
    OrdersAreWeak(loc);
    var ordered := Sort(group, OldestFirst(loc));
    SortPermutes(group, OldestFirst(loc));
    SortSorts(group, OldestFirst(loc));
    var e := EntryOf(loc, key, group, parent);
    assert forall r :: r in group <==> r in rows && BelongsTo(loc, parentOf, r, e);
    forall id: Id
      ensures id in e.memberIds <==> exists r :: r in rows && r.id == id && BelongsTo(loc, parentOf, r, e)
    {
      MappedIds(ordered, id);
    }
    var oldest := ordered[0];
    assert oldest in ordered;
    forall r | r in rows && BelongsTo(loc, parentOf, r, e) ensures !OldestFirst(loc)(r, oldest) {
      assert r in ordered;
      var i :| 0 <= i < |ordered| && ordered[i] == r;
      assert i == 0 || !OldestFirst(loc)(ordered[i], ordered[0]);
      assert i == 0 ==> !OldestFirst(loc)(r, r);
    }
  }

  lemma {:induction false} EntriesGather(
    loc: Locale, parentOf: UnitRow -> Option<string>, rows: seq<UnitRow>, under: seq<UnitRow>, parent: Option<string>)
    requires StrictTotalOrder(loc.before)
    requires forall r :: r in under <==> r in rows && parentOf(r) == parent
    ensures forall e :: e in Entries(loc, under, parent) ==> e.parentKey == parent && Gathers(loc, parentOf, rows, e)
    ensures forall r :: r in under ==> exists e :: e in Entries(loc, under, parent) && BelongsTo(loc, parentOf, r, e)
    ensures Distinct(Mapped(Entries(loc, under, parent), KeyOfEntry()))
  {
    var keys := KeysOf(under, FoldOf(loc));
    var entries := Entries(loc, under, parent);
    KeysOfMember(under, FoldOf(loc));
    forall i | 0 <= i < |keys|
      ensures entries[i].foldedKey == keys[i] && entries[i].parentKey == parent
      ensures Gathers(loc, parentOf, rows, entries[i])
    {
      var group := Having(under, FoldOf(loc), keys[i]);
      HavingMember(under, FoldOf(loc), keys[i]);
      assert keys[i] in keys;
      var x :| x in under && FoldOf(loc)(x) == keys[i];
      assert x in group;
      assert forall r :: r in group <==> r in under && FoldOf(loc)(r) == keys[i];
      EntryGathers(loc, parentOf, rows, group, keys[i], parent);
      assert entries[i] == EntryOf(loc, keys[i], group, parent);
    }
    forall r | r in under ensures exists e :: e in entries && BelongsTo(loc, parentOf, r, e) {
      assert FoldOf(loc)(r) in keys;
      var i :| 0 <= i < |keys| && keys[i] == FoldOf(loc)(r);
      assert entries[i] in entries;
    }
  }

  /** Sorting the entries for the report changes nothing about how they divide the rows. */
  lemma {:induction false} DividesSorted(
    loc: Locale, parentOf: UnitRow -> Option<string>, rows: seq<UnitRow>, entries: seq<Entry>,
    before: (Entry, Entry) -> bool)
    requires Divides(loc, parentOf, rows, entries)
    ensures Divides(loc, parentOf, rows, Sort(entries, before))
  {
    SortPermutes(entries, before);
    MappedPermuted(entries, Sort(entries, before), KeyOfEntry());
    PermutationKeepsDistinct(Mapped(entries, KeyOfEntry()), Mapped(Sort(entries, before), KeyOfEntry()));
  }

  lemma {:induction false} DepartmentsDivide(loc: Locale, rows: seq<UnitRow>)
    requires StrictTotalOrder(loc.before)
    ensures Divides(loc, NoParent(), rows, Entries(loc, rows, None))
  {
    assert forall r :: r in rows <==> r in rows && NoParent()(r) == None;
    EntriesGather(loc, NoParent(), rows, rows, None);
  }

  /** The entries made for some of the parents divide the rows under those parents. */
  ghost predicate DividesUnder(
    loc: Locale, rows: seq<UnitRow>, keyById: map<Id, string>, parents: seq<Option<string>>, entries: seq<Entry>)
  {
    && Distinct(Mapped(entries, KeyOfEntry()))
    && (forall e :: e in entries ==> e.parentKey in parents && Gathers(loc, ParentOf(keyById), rows, e))
    && (forall r :: r in rows && ParentOf(keyById)(r) in parents ==>
          exists e :: e in entries && BelongsTo(loc, ParentOf(keyById), r, e))
  }

  lemma {:induction false} SectionsDivideUpTo(
    loc: Locale, rows: seq<UnitRow>, keyById: map<Id, string>, parents: seq<Option<string>>)
    requires StrictTotalOrder(loc.before) && Distinct(parents)
    ensures DividesUnder(loc, rows, keyById, parents, EntriesUnder(loc, rows, keyById, parents))
  {
    if parents != [] {
      var n := |parents| - 1;
      var init, parent := parents[..n], parents[n];
      SectionsDivideUpTo(loc, rows, keyById, init);
      var before := EntriesUnder(loc, rows, keyById, init);
      var under := Having(rows, ParentOf(keyById), parent);
      HavingMember(rows, ParentOf(keyById), parent);
      EntriesGather(loc, ParentOf(keyById), rows, under, parent);
      SectionsDivideOneMore(loc, rows, keyById, init, parent, before, Entries(loc, under, parent));
      assert parents == init + [parent];
    }
  }

  lemma {:induction false} SectionsDivideOneMore(
    loc: Locale, rows: seq<UnitRow>, keyById: map<Id, string>, init: seq<Option<string>>, parent: Option<string>,
    before: seq<Entry>, more: seq<Entry>)
    requires parent !in init && DividesUnder(loc, rows, keyById, init, before)
    requires Distinct(Mapped(more, KeyOfEntry()))
    requires forall e :: e in more ==> e.parentKey == parent && Gathers(loc, ParentOf(keyById), rows, e)
    requires forall r :: r in rows && ParentOf(keyById)(r) == parent ==>
               exists e :: e in more && BelongsTo(loc, ParentOf(keyById), r, e)
    ensures DividesUnder(loc, rows, keyById, init + [parent], before + more)
  {
    var all := before + more;
    var keys := Mapped(all, KeyOfEntry());
    forall i, j | 0 <= i < j < |keys| ensures keys[i] != keys[j] {
      if j < |before| {
        assert Mapped(before, KeyOfEntry())[i] == keys[i] && Mapped(before, KeyOfEntry())[j] == keys[j];
      } else if i < |before| {
        assert before[i] in before && more[j - |before|] in more;
      } else {
        assert Mapped(more, KeyOfEntry())[i - |before|] == keys[i] &&
          Mapped(more, KeyOfEntry())[j - |before|] == keys[j];
      }
    }
    forall r | r in rows && ParentOf(keyById)(r) in init + [parent]
      ensures exists e :: e in all && BelongsTo(loc, ParentOf(keyById), r, e)
    {
      if ParentOf(keyById)(r) in init {
        var e :| e in before && BelongsTo(loc, ParentOf(keyById), r, e);
        assert e in all;
      } else {
        var e :| e in more && BelongsTo(loc, ParentOf(keyById), r, e);
        assert e in all;
      }
    }
  }

  lemma {:induction false} SectionsDivide(loc: Locale, rows: seq<UnitRow>, keyById: map<Id, string>)
    requires StrictTotalOrder(loc.before)
    ensures Divides(loc, ParentOf(keyById), rows, EntriesUnder(loc, rows, keyById, KeysOf(rows, ParentOf(keyById))))
  {
    KeysOfMember(rows, ParentOf(keyById));
    SectionsDivideUpTo(loc, rows, keyById, KeysOf(rows, ParentOf(keyById)));
  }

  /** The plan's entries divide the rows it decided to catalogue. */
  lemma {:induction false} PlanDivides(
    loc: Locale, departments: seq<UnitRow>, sections: seq<UnitRow>, requests: seq<MergeRequest>)
    requires StrictTotalOrder(loc.before)
    ensures var plan := PlanFor(loc, departments, sections, requests);
            var keyById := KeyById(loc, departments, plan.merges);
            && Divides(loc, NoParent(), OpenDepartments(departments, plan.merges), plan.departments)
            && Divides(loc, ParentOf(keyById),
                       Having(OpenSections(sections, plan.merges), PlacedOf(keyById), true), plan.sections)
  {
    var plan := PlanFor(loc, departments, sections, requests);
    var open := OpenDepartments(departments, plan.merges);
    DepartmentsDivide(loc, open);
    DividesSorted(loc, NoParent(), open, Entries(loc, open, None), ByReach(loc));
    var keyById := KeyById(loc, departments, plan.merges);
    var placed := Having(OpenSections(sections, plan.merges), PlacedOf(keyById), true);
    SectionsDivide(loc, placed, keyById);
    DividesSorted(loc, ParentOf(keyById), placed,
                  EntriesUnder(loc, placed, keyById, KeysOf(placed, ParentOf(keyById))), ByReach(loc));
  }
}
