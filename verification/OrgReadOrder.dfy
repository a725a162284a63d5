/** The planned entries are the same for every order the rows may be read in. */
module OrgReadOrder {
  import opened Options
  import opened Sequences
  import opened OrgRows
  import opened OrgPlanSpec
  import opened OrgPlanner
  import opened OrgPlanTheorems
  import opened OrgEntries

  lemma {:induction false} SamePermutationMembers<T(!new)>(s: seq<T>, t: seq<T>)
    requires multiset(s) == multiset(t)
    ensures forall x :: x in s <==> x in t
  {
    assert forall x :: x in s <==> x in multiset(s);
    assert forall x :: x in t <==> x in multiset(t);
  }

  lemma {:induction false} UniqueCodesByMember(rows: seq<UnitRow>)
    ensures UniqueCodes(rows) ==> forall r, r' :: r in rows && r' in rows && r.code == r'.code ==> r == r'
  {
  }

  lemma {:induction false} HavingSameKey<T(!new), K(!new)>(s: seq<T>, f: T -> K, g: T -> K, k: K)
    requires forall x :: f(x) == g(x)
    ensures Having(s, f, k) == Having(s, g, k)
  {
    if s != [] {
      HavingSameKey(s[..|s| - 1], f, g, k);
    }
  }

  // ---------------------------------------------------------------- merges

  /** The same merge, up to the order its sections are listed in. */
  ghost predicate SameMerges(a: seq<Merge>, b: seq<Merge>) {
    && |a| == |b|
    && forall i :: 0 <= i < |a| ==> a[i].(movedSectionIds := []) == b[i].(movedSectionIds := [])
  }

  lemma {:induction false} SameLosers(a: seq<Merge>, b: seq<Merge>, id: Id)
    requires SameMerges(a, b)
    ensures LosesIn(a, id) <==> LosesIn(b, id)
  {
    if m :| m in a && m.loserId == id {
      var i :| 0 <= i < |a| && a[i] == m;
      assert b[i] in b && b[i].loserId == a[i].(movedSectionIds := []).loserId;
    }
    if m :| m in b && m.loserId == id {
      var i :| 0 <= i < |b| && b[i] == m;
      assert a[i] in a && a[i].loserId == b[i].(movedSectionIds := []).loserId;
    }
  }

  lemma {:induction false} SameWinners(a: seq<Merge>, b: seq<Merge>, id: Id)
    requires SameMerges(a, b)
    ensures WinnerFor(a, id) == WinnerFor(b, id)
  {
    if a != [] {
      var n := |a| - 1;
      SameWinners(a[..n], b[..n], id);
      assert a[n].(movedSectionIds := []) == b[n].(movedSectionIds := []);
    }
  }

  lemma {:induction false} SameByCode(departments: seq<UnitRow>, others: seq<UnitRow>)
    requires UniqueCodes(departments) && UniqueCodes(others) && multiset(departments) == multiset(others)
    ensures ByCode(departments) == ByCode(others)
  {
    SamePermutationMembers(departments, others);
    ByCodeMeaning(departments);
    ByCodeMeaning(others);
    UniqueCodesByMember(departments);
    forall c | c in ByCode(departments) ensures c in ByCode(others) && ByCode(others)[c] == ByCode(departments)[c] {
      assert ByCode(departments)[c] in others;
    }
    forall c | c in ByCode(others) ensures c in ByCode(departments) {
      assert ByCode(others)[c] in departments;
    }
  }

  lemma {:induction false} JudgedTheSame(
    loc: Locale, departments: seq<UnitRow>, others: seq<UnitRow>, sections: seq<UnitRow>, otherSections: seq<UnitRow>,
    requests: seq<MergeRequest>, a: seq<Merge>, b: seq<Merge>, q: MergeRequest)
    requires ByCode(departments) == ByCode(others) && SameMerges(a, b)
    ensures var v := Judge(loc, departments, sections, requests, a, q);
            var w := Judge(loc, others, otherSections, requests, b, q);
            && v.Accepted? == w.Accepted?
            && (v.Accepted? ==> v.merge.(movedSectionIds := []) == w.merge.(movedSectionIds := []))
  {
    if q.loserCode in ByCode(departments) {
      SameLosers(a, b, ByCode(departments)[q.loserCode].id);
    }
  }

  lemma {:induction false} MergedTheSame(
    loc: Locale, departments: seq<UnitRow>, others: seq<UnitRow>, sections: seq<UnitRow>, otherSections: seq<UnitRow>,
    requests: seq<MergeRequest>, n: nat)
    requires ByCode(departments) == ByCode(others) && n <= |requests|
    ensures SameMerges(MergesUpTo(loc, departments, sections, requests, n).merges,
                       MergesUpTo(loc, others, otherSections, requests, n).merges)
  {
    if n > 0 {
      MergedTheSame(loc, departments, others, sections, otherSections, requests, n - 1);
      var a := MergesUpTo(loc, departments, sections, requests, n - 1).merges;
      var b := MergesUpTo(loc, others, otherSections, requests, n - 1).merges;
      JudgedTheSame(loc, departments, others, sections, otherSections, requests, a, b, requests[n - 1]);
    }
  }

  // ---------------------------------------------------------------- entries

  lemma {:induction false} RowsNeverTie(loc: Locale, rows: seq<UnitRow>)
    requires StrictTotalOrder(loc.before)
    requires forall r, r' :: r in rows && r' in rows && r.code == r'.code ==> r == r'
    ensures NoTies(rows, OldestFirst(loc))
  {
    var older := OldestFirst(loc);
    forall i, j | 0 <= i < |rows| && 0 <= j < |rows| && rows[i] != rows[j]
      ensures older(rows[i], rows[j]) || older(rows[j], rows[i])
    {
      assert rows[i].code != rows[j].code;
      assert loc.before(rows[i].code, rows[j].code) || loc.before(rows[j].code, rows[i].code);
      assert rows[i].createdAt == rows[j].createdAt || loc.before(rows[i].createdAt, rows[j].createdAt)
          || loc.before(rows[j].createdAt, rows[i].createdAt);
    }
  }

  lemma {:induction false} SameEntry(
    loc: Locale, rows: seq<UnitRow>, others: seq<UnitRow>, key: string, parent: Option<string>)
    requires StrictTotalOrder(loc.before) && multiset(rows) == multiset(others)
    requires forall r, r' :: r in rows && r' in rows && r.code == r'.code ==> r == r'
    ensures EntryFrom(loc, rows, parent)(key) == EntryFrom(loc, others, parent)(key)
  {
    var group, other := Having(rows, FoldOf(loc), key), Having(others, FoldOf(loc), key);
    HavingPermuted(rows, others, FoldOf(loc), key);
    HavingMember(rows, FoldOf(loc), key);
    RowsNeverTie(loc, group);
    OrdersAreWeak(loc);
    SortOfPermutation(group, other, OldestFirst(loc));
  }

  lemma {:induction false} SameKeys<T(!new), K(!new)>(rows: seq<T>, others: seq<T>, key: T -> K)
    requires multiset(rows) == multiset(others)
    ensures forall k :: k in KeysOf(rows, key) <==> k in KeysOf(others, key)
  {
    SamePermutationMembers(rows, others);
    KeysOfMember(rows, key);
    KeysOfMember(others, key);
  }

  lemma {:induction false} SameEntries(
    loc: Locale, rows: seq<UnitRow>, others: seq<UnitRow>, parent: Option<string>, e: Entry)
    requires StrictTotalOrder(loc.before) && multiset(rows) == multiset(others)
    requires forall r, r' :: r in rows && r' in rows && r.code == r'.code ==> r == r'
    requires e in Entries(loc, rows, parent)
    ensures e in Entries(loc, others, parent)
  {
    var keys, keys' := KeysOf(rows, FoldOf(loc)), KeysOf(others, FoldOf(loc));
    var i :| 0 <= i < |keys| && Entries(loc, rows, parent)[i] == e;
    SameKeys(rows, others, FoldOf(loc));
    assert keys[i] in keys';
    var j :| 0 <= j < |keys'| && keys'[j] == keys[i];
    SameEntry(loc, rows, others, keys[i], parent);
    assert Entries(loc, others, parent)[j] == e;
  }

  lemma {:induction false} EntriesUnderMember(
    loc: Locale, rows: seq<UnitRow>, keyById: map<Id, string>, parents: seq<Option<string>>, e: Entry)
    ensures e in EntriesUnder(loc, rows, keyById, parents) <==>
            exists p :: p in parents && e in Entries(loc, Having(rows, ParentOf(keyById), p), p)
  {
    if parents != [] {
      var n := |parents| - 1;
      EntriesUnderMember(loc, rows, keyById, parents[..n], e);
      assert parents == parents[..n] + [parents[n]];
      assert parents[n] in parents;
    }
  }

  lemma {:induction false} SameSectionEntries(
    loc: Locale, rows: seq<UnitRow>, others: seq<UnitRow>, keyById: map<Id, string>, e: Entry)
    requires StrictTotalOrder(loc.before) && multiset(rows) == multiset(others)
    requires forall r, r' :: r in rows && r' in rows && r.code == r'.code ==> r == r'
    requires e in EntriesUnder(loc, rows, keyById, KeysOf(rows, ParentOf(keyById)))
    ensures e in EntriesUnder(loc, others, keyById, KeysOf(others, ParentOf(keyById)))
  {
    EntriesUnderMember(loc, rows, keyById, KeysOf(rows, ParentOf(keyById)), e);
    var p :| p in KeysOf(rows, ParentOf(keyById)) && e in Entries(loc, Having(rows, ParentOf(keyById), p), p);
    SameKeys(rows, others, ParentOf(keyById));
    HavingPermuted(rows, others, ParentOf(keyById), p);
    HavingMember(rows, ParentOf(keyById), p);
    SameEntries(loc, Having(rows, ParentOf(keyById), p), Having(others, ParentOf(keyById), p), p, e);
    EntriesUnderMember(loc, others, keyById, KeysOf(others, ParentOf(keyById)), e);
  }

  lemma {:induction false} DividedAreDistinct(entries: seq<Entry>)
    requires Distinct(Mapped(entries, KeyOfEntry()))
    ensures Distinct(entries)
  {
    forall i, j | 0 <= i < j < |entries| ensures entries[i] != entries[j] {
      assert Mapped(entries, KeyOfEntry())[i] != Mapped(entries, KeyOfEntry())[j];
    }
  }

  /** No two entries share a code, so the report order is settled by the rows alone. */
  lemma {:induction false} EntriesNeverTie(
    loc: Locale, parentOf: UnitRow -> Option<string>, rows: seq<UnitRow>, entries: seq<Entry>)
    requires StrictTotalOrder(loc.before)
    requires forall r, r' :: r in rows && r' in rows && r.code == r'.code ==> r == r'
    requires Divides(loc, parentOf, rows, entries)
    ensures NoTies(entries, ByReach(loc))
  {
    var reach := ByReach(loc);
    forall i, j | 0 <= i < |entries| && 0 <= j < |entries| && entries[i] != entries[j]
      ensures reach(entries[i], entries[j]) || reach(entries[j], entries[i])
    {
      assert entries[i] in entries && entries[j] in entries;
      assert Mapped(entries, KeyOfEntry())[i] != Mapped(entries, KeyOfEntry())[j];
      EntryCodesDiffer(loc, parentOf, rows, entries[i], entries[j]);
      assert loc.before(entries[i].code, entries[j].code) || loc.before(entries[j].code, entries[i].code);
    }
  }

  lemma {:induction false} EntryCodesDiffer(
    loc: Locale, parentOf: UnitRow -> Option<string>, rows: seq<UnitRow>, e: Entry, e': Entry)
    requires forall r, r' :: r in rows && r' in rows && r.code == r'.code ==> r == r'
    requires NamedAfterOldest(loc, parentOf, rows, e) && NamedAfterOldest(loc, parentOf, rows, e')
    requires KeyOfEntry()(e) != KeyOfEntry()(e')
    ensures e.code != e'.code
  {
    var oldest :| oldest in rows && BelongsTo(loc, parentOf, oldest, e) && e.code == oldest.code;
    var oldest' :| oldest' in rows && BelongsTo(loc, parentOf, oldest', e') && e'.code == oldest'.code;
    assert oldest != oldest';
  }

  /** Two lists that divide the same rows and hold the same entries are reported in the same order. */
  lemma {:induction false} SameReport(
    loc: Locale, parentOf: UnitRow -> Option<string>, rows: seq<UnitRow>, a: seq<Entry>, b: seq<Entry>)
    requires StrictTotalOrder(loc.before)
    requires forall r, r' :: r in rows && r' in rows && r.code == r'.code ==> r == r'
    requires Divides(loc, parentOf, rows, a) && Distinct(Mapped(b, KeyOfEntry()))
    requires forall e :: e in a <==> e in b
    ensures Sort(a, ByReach(loc)) == Sort(b, ByReach(loc))
  {
    DividedAreDistinct(a);
    DividedAreDistinct(b);
    DistinctSameElements(a, b);
    EntriesNeverTie(loc, parentOf, rows, a);
    OrdersAreWeak(loc);
    SortOfPermutation(a, b, ByReach(loc));
  }

  lemma {:induction false} SameDepartmentReport(loc: Locale, rows: seq<UnitRow>, others: seq<UnitRow>)
    requires StrictTotalOrder(loc.before) && multiset(rows) == multiset(others)
    requires forall r, r' :: r in rows && r' in rows && r.code == r'.code ==> r == r'
    ensures Sort(Entries(loc, rows, None), ByReach(loc)) == Sort(Entries(loc, others, None), ByReach(loc))
  {
    SamePermutationMembers(rows, others);
    DepartmentsDivide(loc, rows);
    DepartmentsDivide(loc, others);
    forall e: Entry ensures e in Entries(loc, rows, None) <==> e in Entries(loc, others, None) {
      if e in Entries(loc, rows, None) { SameEntries(loc, rows, others, None, e); }
      if e in Entries(loc, others, None) { SameEntries(loc, others, rows, None, e); }
    }
    SameReport(loc, NoParent(), rows, Entries(loc, rows, None), Entries(loc, others, None));
  }

  lemma {:induction false} SameSectionReport(
    loc: Locale, rows: seq<UnitRow>, others: seq<UnitRow>, keyById: map<Id, string>)
    requires StrictTotalOrder(loc.before) && multiset(rows) == multiset(others)
    requires forall r, r' :: r in rows && r' in rows && r.code == r'.code ==> r == r'
    ensures Sort(EntriesUnder(loc, rows, keyById, KeysOf(rows, ParentOf(keyById))), ByReach(loc)) ==
            Sort(EntriesUnder(loc, others, keyById, KeysOf(others, ParentOf(keyById))), ByReach(loc))
  {
    var a := EntriesUnder(loc, rows, keyById, KeysOf(rows, ParentOf(keyById)));
    var b := EntriesUnder(loc, others, keyById, KeysOf(others, ParentOf(keyById)));
    SamePermutationMembers(rows, others);
    SectionsDivide(loc, rows, keyById);
    SectionsDivide(loc, others, keyById);
    forall e: Entry ensures e in a <==> e in b {
      if e in a { SameSectionEntries(loc, rows, others, keyById, e); }
      if e in b { SameSectionEntries(loc, others, rows, keyById, e); }
    }
    SameReport(loc, ParentOf(keyById), rows, a, b);
  }

  // ---------------------------------------------------------------- the theorem

  lemma {:induction false} SameOpenRows(departments: seq<UnitRow>, others: seq<UnitRow>, a: seq<Merge>, b: seq<Merge>)
    requires multiset(departments) == multiset(others) && SameMerges(a, b)
    ensures multiset(OpenDepartments(departments, a)) == multiset(OpenDepartments(others, b))
  {
    forall r: UnitRow ensures OpenOf(a)(r) == OpenOf(b)(r) {
      SameLosers(a, b, r.id);
    }
    HavingSameKey(others, OpenOf(a), OpenOf(b), true);
    HavingPermuted(departments, others, OpenOf(a), true);
  }

  lemma {:induction false} SameOpenSections(sections: seq<UnitRow>, others: seq<UnitRow>, a: seq<Merge>, b: seq<Merge>)
    requires multiset(sections) == multiset(others) && SameMerges(a, b)
    ensures multiset(OpenSections(sections, a)) == multiset(OpenSections(others, b))
  {
    HavingPermuted(sections, others, LinkedOf(), false);
    var rows, rows' := Having(sections, LinkedOf(), false), Having(others, LinkedOf(), false);
    MappedPermuted(rows, rows', RelocateOf(a));
    forall i | 0 <= i < |rows'| ensures Mapped(rows', RelocateOf(a))[i] == Mapped(rows', RelocateOf(b))[i] {
      if rows'[i].departmentId.Some? {
        SameWinners(a, b, rows'[i].departmentId.value);
      }
    }
    assert Mapped(rows', RelocateOf(a)) == Mapped(rows', RelocateOf(b));
  }

  lemma {:induction false} SameKeyById(
    loc: Locale, departments: seq<UnitRow>, others: seq<UnitRow>, a: seq<Merge>, b: seq<Merge>)
    requires UniqueIds(departments) && UniqueIds(others)
    requires multiset(departments) == multiset(others) && SameMerges(a, b)
    ensures KeyById(loc, departments, a) == KeyById(loc, others, b)
  {
    SamePermutationMembers(departments, others);
    forall id: Id ensures LosesIn(a, id) == LosesIn(b, id) {
      SameLosers(a, b, id);
    }
    KeyByIdMeaning(loc, departments, a);
    KeyByIdIs(loc, others, b, KeyById(loc, departments, a));
  }

  /** Relocated rows keep their codes, and a filtered list keeps its rows. */
  lemma {:induction false} OpenSectionsKeepCodes(sections: seq<UnitRow>, merges: seq<Merge>, r: UnitRow, r': UnitRow)
    requires UniqueCodes(sections) && r.code == r'.code
    requires r in OpenSections(sections, merges) && r' in OpenSections(sections, merges)
    ensures r == r'
  {
    var rows := Having(sections, LinkedOf(), false);
    HavingMember(sections, LinkedOf(), false);
    UniqueCodesByMember(sections);
    var i :| 0 <= i < |rows| && Relocated(merges, rows[i]) == r;
    var j :| 0 <= j < |rows| && Relocated(merges, rows[j]) == r';
    assert rows[i] in rows && rows[j] in rows;
  }

  /** The planned entries (code, name, ordered members) do not depend on the order of the rows. */
  lemma {:induction false} PlanIgnoresReadOrder(
    loc: Locale, departments: seq<UnitRow>, others: seq<UnitRow>, sections: seq<UnitRow>, otherSections: seq<UnitRow>,
    requests: seq<MergeRequest>)
    requires StrictTotalOrder(loc.before)
    requires multiset(departments) == multiset(others) && multiset(sections) == multiset(otherSections)
    requires UniqueIds(departments) && UniqueIds(others) && UniqueCodes(departments) && UniqueCodes(others)
    requires UniqueCodes(sections)
    ensures PlanFor(loc, departments, sections, requests).departments ==
            PlanFor(loc, others, otherSections, requests).departments
    ensures PlanFor(loc, departments, sections, requests).sections ==
            PlanFor(loc, others, otherSections, requests).sections
  {
    SameByCode(departments, others);
    MergedTheSame(loc, departments, others, sections, otherSections, requests, |requests|);
    var a := MergesUpTo(loc, departments, sections, requests, |requests|).merges;
    var b := MergesUpTo(loc, others, otherSections, requests, |requests|).merges;
    SameDepartmentEntriesFor(loc, departments, others, a, b);
    SameSectionEntriesFor(loc, departments, others, sections, otherSections, a, b);
  }

  lemma {:induction false} SameDepartmentEntriesFor(
    loc: Locale, departments: seq<UnitRow>, others: seq<UnitRow>, a: seq<Merge>, b: seq<Merge>)
    requires StrictTotalOrder(loc.before) && SameMerges(a, b)
    requires multiset(departments) == multiset(others) && UniqueCodes(departments)
    ensures Sort(Entries(loc, OpenDepartments(departments, a), None), ByReach(loc)) ==
            Sort(Entries(loc, OpenDepartments(others, b), None), ByReach(loc))
  {
    SameOpenRows(departments, others, a, b);
    HavingMember(departments, OpenOf(a), true);
    UniqueCodesByMember(departments);
    SameDepartmentReport(loc, OpenDepartments(departments, a), OpenDepartments(others, b));
  }

  lemma {:induction false} SameSectionEntriesFor(
    loc: Locale, departments: seq<UnitRow>, others: seq<UnitRow>, sections: seq<UnitRow>, otherSections: seq<UnitRow>,
    a: seq<Merge>, b: seq<Merge>)
    requires StrictTotalOrder(loc.before) && SameMerges(a, b)
    requires multiset(departments) == multiset(others) && multiset(sections) == multiset(otherSections)
    requires UniqueIds(departments) && UniqueIds(others) && UniqueCodes(sections)
    ensures var keyById, keyById' := KeyById(loc, departments, a), KeyById(loc, others, b);
            var placed := Having(OpenSections(sections, a), PlacedOf(keyById), true);
            var placed' := Having(OpenSections(otherSections, b), PlacedOf(keyById'), true);
            Sort(EntriesUnder(loc, placed, keyById, KeysOf(placed, ParentOf(keyById))), ByReach(loc)) ==
            Sort(EntriesUnder(loc, placed', keyById', KeysOf(placed', ParentOf(keyById'))), ByReach(loc))
  {
    var keyById := KeyById(loc, departments, a);
    SameKeyById(loc, departments, others, a, b);
    SameOpenSections(sections, otherSections, a, b);
    var open := OpenSections(sections, a);
    HavingPermuted(open, OpenSections(otherSections, b), PlacedOf(keyById), true);
    HavingMember(open, PlacedOf(keyById), true);
    forall r, r' | r in open && r' in open && r.code == r'.code ensures r == r' {
      OpenSectionsKeepCodes(sections, a, r, r');
    }
    SameSectionReport(loc, Having(open, PlacedOf(keyById), true),
                      Having(OpenSections(otherSections, b), PlacedOf(keyById), true), keyById);
  }
}
