/** Concrete inputs at the edges the theorems of this project mark out. */
module OrgExamples {
  import opened Options
  import opened Sequences
  import opened OrgRows
  import opened OrgPlanSpec
  import opened OrgPlanner
  import opened OrgPlanTheorems
  import opened References
  import opened ReferencesTheorems
  import opened ReferencesMerges
  import opened ReferencesSurvey
  import opened ReferencesIndexes
  import opened ReferencesWrites

  // ---------------------------------------------------------------- an id array inside a document array

  const NESTED: seq<Field> := [Field("history", SubArrayType([Field("ownDepartmentIds", IdArrayType)]))]

  function NestedDoc(ids: Value): map<string, Value> {
    map["history" := Arr([Obj(map["ownDepartmentIds" := ids])])]
  }

  lemma {:induction false} NestedRefs()
    ensures Refs(NESTED) == [InElement(["history"], IdArrayRef(["ownDepartmentIds"]))]
  {
    var inner := [Field("ownDepartmentIds", IdArrayType)];
    var leaf := IdArrayRef(["ownDepartmentIds"]);
    assert inner[..0] == [] && Refs([]) == [];
    assert Refs(inner) == [leaf];
    assert NESTED[..0] == [];
    assert RefsOf(NESTED[0]) == [InElement(["history"], leaf)];
  }

  /** The element's own list matches by one of its ids, and is set to the other id whole. */
  lemma {:induction false} NestedElement(item: map<string, Value>)
    requires item == map["ownDepartmentIds" := Arr([Ref(1), Ref(2)])]
    ensures Matches(Obj(item), ["ownDepartmentIds"], 1)
    ensures SetInElement(Obj(item), ["ownDepartmentIds"], 1, 3) == Some(Obj(map["ownDepartmentIds" := Ref(3)]))
  {
    assert Ref(1) in [Ref(1), Ref(2)];
    MatchesField(item, "ownDepartmentIds", [], 1);
    assert ["ownDepartmentIds"] + [] == ["ownDepartmentIds"];
    SetField(item, "ownDepartmentIds", Ref(3));
    assert item["ownDepartmentIds" := Ref(3)] == map["ownDepartmentIds" := Ref(3)];
  }

  /** Merging 1 into 3 replaces the whole list [1, 2] by the single id 3: the reference to 2 is lost. */
  lemma {:induction false} NestedListIsOverwritten()
    ensures Sweep(Obj(NestedDoc(Arr([Ref(1), Ref(2)]))), Refs(NESTED), 1, 3) == Some(Obj(NestedDoc(Ref(3))))
  {
    hide Refs, Matches, SetInElement, Sweep;
    var item := map["ownDepartmentIds" := Arr([Ref(1), Ref(2)])];
    var ref := InElement(["history"], IdArrayRef(["ownDepartmentIds"]));
    var doc := NestedDoc(Arr([Ref(1), Ref(2)]));
    NestedRefs();
    NestedElement(item);
    SweepOne(Obj(doc), ref, 1, 3);
    MatchesElement([Obj(item)], ["ownDepartmentIds"], 1);
    assert [Obj(item)][0] == Obj(item);
    MatchesField(doc, "history", ["ownDepartmentIds"], 1);
    var out := [Obj(map["ownDepartmentIds" := Ref(3)])];
    ElementsOneByOne([Obj(item)], out, ["ownDepartmentIds"], 1, 3);
    SetArrayField(doc, "history", [Obj(item)], out, ["ownDepartmentIds"], 1, 3);
    assert ref.path == ["history"] + ["ownDepartmentIds"];
    assert doc["history" := Arr(out)] == NestedDoc(Ref(3));
  }

  // ---------------------------------------------------------------- two losers of one winner

  const ASSIGNED: seq<Field> :=
    [Field("departmentId", ObjectIdType), Field("applicationId", ObjectIdType), Field("isDeleted", OtherType)]

  /** `ux_department_application` (department-application.model.ts, lines 20 to 23). */
  const ASSIGNED_INDEX: Index := Index(true, [["departmentId"], ["applicationId"]], [IsFlag(["isDeleted"], false)])

  function Assignment(department: Id): Value {
    Obj(map["departmentId" := Ref(department), "applicationId" := Ref(9), "isDeleted" := Flag(false)])
  }

  /** Departments 1 and 2 both hold application 9. */
  const ASSIGNMENTS: Collection := Collection(ASSIGNED, [ASSIGNED_INDEX], [Assignment(1), Assignment(2)])

  function MergeOf(loser: Id, winner: Id): Merge {
    Merge(loser, "", "", winner, "", "", 0, [])
  }

  lemma {:induction false} AssignmentKeys(d: Id)
    ensures ValueAt(Assignment(d), ["departmentId"]) == Ref(d)
    ensures ValueAt(Assignment(d), ["applicationId"]) == Ref(9)
    ensures Live(Assignment(d)) && Covers(ASSIGNED_INDEX, Assignment(d))
    ensures Conforms(ASSIGNED, Assignment(d).fields)
    ensures forall l: Id :: Matches(Assignment(d), ["departmentId"], l) <==> d == l
  {
    assert ["departmentId"][1..] == [] && ["applicationId"][1..] == [] && ["isDeleted"][1..] == [];
    assert ValueAt(Assignment(d), ["isDeleted"]) == Flag(false);
    forall l: Id ensures Matches(Assignment(d), ["departmentId"], l) <==> d == l {
      MatchesField(Assignment(d).fields, "departmentId", [], l);
      assert ["departmentId"] + [] == ["departmentId"];
    }
  }

  lemma {:induction false} AssignedRefs()
    ensures Refs(ASSIGNED) == [ScalarRef(["departmentId"])]
    ensures RisksOf([ASSIGNED_INDEX], ["departmentId"]) == [Risk([["applicationId"]])]
    ensures OthersOf(ASSIGNED_INDEX, ["departmentId"]) == [["applicationId"]]
  {
    var f := ASSIGNED;
    assert f[..2] == [f[0], f[1]] && f[..2][..1] == [f[0]] && [f[0]][..0] == [];
    assert Refs([f[0]]) == [ScalarRef(["departmentId"])];
    assert RefsOf(f[1]) == [] && RefsOf(f[2]) == [];
    var keys := [["departmentId"], ["applicationId"]];
    assert keys[..1] == [["departmentId"]] && keys[..1][..0] == [];
    var other := OtherThan(["departmentId"]);
    assert !other(["departmentId"]) && other(["applicationId"]);
    assert Having(keys[..1], other, true) == [];
    assert Having(keys, other, true) == [["applicationId"]];
    assert [ASSIGNED_INDEX][..0] == [];
  }

  lemma {:induction false} AssignedIsKeyed()
    ensures WellFormed(ASSIGNED) && OneArrayDeep(ASSIGNED) && Keyed(ASSIGNED, ASSIGNED_INDEX, ["departmentId"])
  {
    AssignedRefs();
    assert UntouchedKey(ASSIGNED, ["applicationId"]) && UntouchedKey(ASSIGNED, ["isDeleted"]);
    assert ["departmentId"] in ASSIGNED_INDEX.keys;
  }

  lemma {:induction false} AssignmentsAreSound()
    ensures Sound(ASSIGNMENTS) && Keyed(ASSIGNED, ASSIGNED_INDEX, ["departmentId"])
    ensures Fits([ASSIGNED_INDEX], ASSIGNMENTS.docs)
  {
    hide WellFormed, OneArrayDeep, Keyed, Conforms, Covers, Matches;
    AssignedIsKeyed();
    AssignmentKeys(1);
    AssignmentKeys(2);
    assert ["departmentId"] in ASSIGNED_INDEX.keys;
    assert !Collide(ASSIGNED_INDEX, Assignment(1), Assignment(2));
  }

  /**
   * Departments 1 and 2 both hold application 9 and both merge into 3: no row of 3 clashes, the pre-flight
   * is silent, and the second rewrite fails on the unique index.
   */
  lemma {:induction false} PreflightMissesTwoLosers(show: Value -> string)
    ensures var merges := [MergeOf(1, 3), MergeOf(2, 3)];
            && Unchained(merges) && Sound(ASSIGNMENTS) && Fits(ASSIGNMENTS.indexes, ASSIGNMENTS.docs)
            && Clear(show, ASSIGNMENTS, LosersOf(merges))
            && LosersMeet(ASSIGNMENTS, merges)
            && MergeAll(ASSIGNMENTS.indexes, ASSIGNMENTS.docs, SweepsOf(ASSIGNMENTS, LosersOf(merges)), merges) == None
  {
    var merges := [MergeOf(1, 3), MergeOf(2, 3)];
    assert Unchained(merges);
    AssignmentsAreSound();
    AssignmentsClear(show, merges);
    AssignmentsMeet(merges);
    CollectionSurvivesIff(show, ASSIGNMENTS, merges);
    WritesRename(ASSIGNMENTS, merges);
  }

  lemma {:induction false} AssignmentsClear(show: Value -> string, merges: seq<Merge>)
    requires merges == [MergeOf(1, 3), MergeOf(2, 3)]
    ensures Clear(show, ASSIGNMENTS, LosersOf(merges))
  {
    hide Matches, Live, Shape, ValueAt, Refs, Having;
    AssignedRefs();
    AllAssignedLose(merges);
    HavingMember(Refs(ASSIGNED), NamedOf(ASSIGNMENTS.docs, LosersOf(merges)), true);
  }

  lemma {:induction false} AllAssignedLose(merges: seq<Merge>)
    requires merges == [MergeOf(1, 3), MergeOf(2, 3)]
    ensures forall d :: d in ASSIGNMENTS.docs ==> Loses(d, ["departmentId"], LosersOf(merges))
  {
    hide Matches, Live, Covers, Conforms, ValueAt;
    AssignmentKeys(1);
    AssignmentKeys(2);
    assert LosersOf(merges)[0] == 1 && LosersOf(merges)[1] == 2;
    assert 1 in LosersOf(merges) && 2 in LosersOf(merges);
  }

  lemma {:induction false} AssignmentsMeet(merges: seq<Merge>)
    requires merges == [MergeOf(1, 3), MergeOf(2, 3)]
    ensures LosersMeet(ASSIGNMENTS, merges)
  {
    AssignedRefs();
    AssignmentsAreSound();
    AssignmentKeys(1);
    AssignmentKeys(2);
    assert merges[..1] == [MergeOf(1, 3)] && [MergeOf(1, 3)][..0] == [];
    assert WinnerFor(merges, 2) == 3 && WinnerFor(merges[..1], 1) == 3 && WinnerFor(merges, 1) == 3;
    assert merges[0] in merges && merges[1] in merges && LoserPair(merges, 1, 2);
    var docs := ASSIGNMENTS.docs;
    assert docs[0] == Assignment(1) && docs[1] == Assignment(2);
    assert SameAt(docs[0], docs[1], [["applicationId"]]);
    assert TwoLosersMeet(ASSIGNED_INDEX, ["departmentId"], docs, merges);
    assert ASSIGNMENTS.indexes[0] == ASSIGNED_INDEX;
  }

  // ---------------------------------------------------------------- a late comer

  lemma {:induction false} OneRow<K(!new)>(row: UnitRow, key: UnitRow -> K)
    ensures KeysOf([row], key) == [key(row)] && Having([row], key, key(row)) == [row]
  {
    assert [row][..0] == [];
    assert KeysOf([row][..0], key) == [] && Having([row][..0], key, key(row)) == [];
  }

  lemma {:induction false} OneEntry(loc: Locale, row: UnitRow)
    ensures Entries(loc, [row], None) ==
            [Entry(row.code, row.name, FoldUnitName(loc, row.name), [row.id], [row.code], None)]
    ensures Sort(Entries(loc, [row], None), ByReach(loc)) == Entries(loc, [row], None)
  {
    hide FoldUnitName;
    var key := FoldOf(loc)(row);
    OneRow(row, FoldOf(loc));
    assert [row][..0] == [] && Sort([row], OldestFirst(loc)) == [row];
    assert Mapped([row], IdOf()) == [row.id] && Mapped([row], CodeOf()) == [row.code];
    var e := EntryFrom(loc, [row], None)(key);
    assert e == Entry(row.code, row.name, key, [row.id], [row.code], None);
    assert Mapped([key], EntryFrom(loc, [row], None)) == [e];
    assert [e][..0] == [] && Sort([e], ByReach(loc)) == [e];
  }

  lemma {:induction false} OneRowPassesTheGate(loc: Locale, row: UnitRow)
    ensures Gate(loc, InBranch, [row], KeysOf([row], FoldOf(loc))) == []
  {
    GateIff(loc, InBranch, [row]);
  }

  /** A new row named like a linked one is planned as an entry of its own, and nothing objects. */
  lemma {:induction false} LateComerGetsItsOwnEntry(loc: Locale, linked: UnitRow, late: UnitRow)
    requires linked.catalogId.Some? && late.catalogId.None? && linked.name == late.name &&
             linked.branchId != late.branchId
    ensures var plan := PlanFor(loc, [linked, late], [], []);
            && plan.problems == []
            && plan.departments ==
              [Entry(late.code, late.name, FoldUnitName(loc, late.name), [late.id], [late.code], None)]
  {
    var rows := [linked, late];
    assert rows[..1] == [linked] && [linked][..0] == [];
    assert OpenOf([])(late) && !OpenOf([])(linked);
    assert Having([linked], OpenOf([]), true) == [];
    assert OpenDepartments(rows, []) == [late];
    OneEntry(loc, late);
    OneRowPassesTheGate(loc, late);
    assert OpenSections([], []) == [];
  }
}
