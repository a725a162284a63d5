/**
 * The rows the org-catalog planner reads and the plan it produces
 * (apps/api/src/org-catalog-migration/plan.ts).
 */
module OrgRows {
  import opened Options
  import opened Sequences

  type Id = nat

  datatype Name = Name(ar: string, en: string)

  /** A department or section row; a section also has the department row it hangs under. */
  datatype UnitRow = UnitRow(
    id: Id,
    code: string,
    name: Name,
    branchId: Id,
    departmentId: Option<Id>,
    catalogId: Option<Id>,
    createdAt: string)

  datatype MergeRequest = MergeRequest(loserCode: string, winnerCode: string)

  datatype Merge = Merge(
    loserId: Id,
    loserCode: string,
    loserName: string,
    winnerId: Id,
    winnerCode: string,
    winnerName: string,
    branchId: Id,
    movedSectionIds: seq<Id>)

  datatype Entry = Entry(
    code: string,
    name: Name,
    foldedKey: string,
    memberIds: seq<Id>,
    memberCodes: seq<string>,
    parentKey: Option<string>)

  /** What must not hold two units of one name: a branch (departments) or a department (sections). */
  datatype Level = InBranch | InDepartment

  datatype Problem =
    | NotLive(request: MergeRequest, missing: string)
    | SameDepartment(request: MergeRequest)
    | DifferentBranches(request: MergeRequest, loserBranch: Id, winnerBranch: Id)
    | ChainedOrRepeated(request: MergeRequest)
    | SectionExists(request: MergeRequest, sectionCode: string, sectionName: string)
    | Doubled(level: Level, holder: Option<Id>, key: string, codes: seq<string>)
    | Orphaned(departmentId: Option<Id>, codes: seq<string>)

  datatype Plan = Plan(
    departments: seq<Entry>,
    sections: seq<Entry>,
    merges: seq<Merge>,
    linkedDepartments: nat,
    linkedSections: nat,
    problems: seq<Problem>)

  /** The two foreign text operations: the importer's Unicode fold and `localeCompare`. */
  datatype Locale = Locale(orgKey: string -> Option<string>, before: (string, string) -> bool)

  /** `foldUnitName`: the folded name, or the name as written when it folds to nothing. */
  function FoldUnitName(loc: Locale, name: Name): string {
    match loc.orgKey(name.ar)
    case Some(key) => key
    case None => name.ar
  }

  // The grouping keys and sort orders, as named function values.

  function FoldOf(loc: Locale): UnitRow -> string {
    (row: UnitRow) => FoldUnitName(loc, row.name)
  }

  function DepartmentOf(): UnitRow -> Option<Id> {
    (row: UnitRow) => row.departmentId
  }

  function HolderOf(level: Level): UnitRow -> Option<Id> {
    (row: UnitRow) => if level == InBranch then Some(row.branchId) else row.departmentId
  }

  function LinkedOf(): UnitRow -> bool {
    (row: UnitRow) => row.catalogId.Some?
  }

  function CodeOf(): UnitRow -> string {
    (row: UnitRow) => row.code
  }

  function IdOf(): UnitRow -> Id {
    (row: UnitRow) => row.id
  }

  function OldestFirst(loc: Locale): (UnitRow, UnitRow) -> bool {
    (a: UnitRow, b: UnitRow) =>
      || loc.before(a.createdAt, b.createdAt)
      || (a.createdAt == b.createdAt && loc.before(a.code, b.code))
  }

  function ByReach(loc: Locale): (Entry, Entry) -> bool {
    (a: Entry, b: Entry) =>
      || |a.memberIds| > |b.memberIds|
      || (|a.memberIds| == |b.memberIds| && loc.before(a.code, b.code))
  }

  lemma {:induction false} OrdersAreWeak(loc: Locale)
    requires StrictTotalOrder(loc.before)
    ensures StrictWeakOrder(OldestFirst(loc)) && StrictWeakOrder(ByReach(loc))
  {
    var older, reach := OldestFirst(loc), ByReach(loc);
    forall a, b | older(a, b) ensures !older(b, a) {
      assert loc.before(a.createdAt, b.createdAt) || loc.before(a.code, b.code);
    }
    forall a, b, c | !older(a, b) && !older(b, c) ensures !older(a, c) {
      BeforeNegativelyTransitive(loc.before, a.createdAt, b.createdAt, c.createdAt);
      BeforeNegativelyTransitive(loc.before, a.code, b.code, c.code);
    }
    forall a, b | reach(a, b) ensures !reach(b, a) {
      assert |a.memberIds| == |b.memberIds| ==> loc.before(a.code, b.code);
    }
    forall a, b, c | !reach(a, b) && !reach(b, c) ensures !reach(a, c) {
      BeforeNegativelyTransitive(loc.before, a.code, b.code, c.code);
    }
  }

  lemma {:induction false} BeforeNegativelyTransitive(before: (string, string) -> bool, x: string, y: string, z: string)
    requires StrictTotalOrder(before)
    ensures !before(x, y) && !before(y, z) ==> !before(x, z)
    ensures !before(x, y) && !before(y, z) && x == z ==> x == y
  {
    if !before(x, y) && !before(y, z) {
      assert x == y || before(y, x);
      assert y == z || before(z, y);
      assert y == x || y == z || before(z, x);
      assert before(x, z) ==> !before(z, x);
    }
  }

  /** `_id` is a primary key. */
  ghost predicate UniqueIds(rows: seq<UnitRow>) {
    forall i, j :: 0 <= i < j < |rows| ==> rows[i].id != rows[j].id
  }

  /** `ux_code`: unit codes are unique. */
  ghost predicate UniqueCodes(rows: seq<UnitRow>) {
    forall i, j :: 0 <= i < j < |rows| ==> rows[i].code != rows[j].code
  }
}

/** The decisions themselves, as values: what each loop of the planner leaves behind. */
module OrgPlanSpec {
  import opened Options
  import opened Sequences
  import opened OrgRows

  // ---------------------------------------------------------------- merges

  /** `new Map(departments.map(row => [row.code, row]))`: the last row of a code wins. */
  function ByCode(departments: seq<UnitRow>): map<string, UnitRow> {
    if departments == [] then map[]
    else
      var row := departments[|departments| - 1];
      ByCode(departments[..|departments| - 1])[row.code := row]
  }

  predicate LosesIn(merges: seq<Merge>, id: Id) {
    exists m :: m in merges && m.loserId == id
  }

  predicate NamedAsLoser(requests: seq<MergeRequest>, code: string) {
    exists r :: r in requests && r.loserCode == code
  }

  function FoldsOf(loc: Locale, rows: seq<UnitRow>): set<string> {
    set row | row in rows :: FoldUnitName(loc, row.name)
  }

  /** One problem for each moving section whose folded name already stays under the winner. */
  function SectionClashes(
    loc: Locale, request: MergeRequest, moving: seq<UnitRow>, staying: set<string>
  ): seq<Problem>
  {
    if moving == [] then []
    else
      var row := moving[|moving| - 1];
      var rest := SectionClashes(loc, request, moving[..|moving| - 1], staying);
      if FoldUnitName(loc, row.name) in staying
      then rest + [SectionExists(request, row.code, row.name.ar)]
      else rest
  }

  datatype Verdict = Refused(problem: Problem) | Accepted(merge: Merge, clashes: seq<Problem>)

  /** What the planner makes of one request, given the merges it has already accepted. */
  function Judge(
    loc: Locale, departments: seq<UnitRow>, sections: seq<UnitRow>,
    requests: seq<MergeRequest>, accepted: seq<Merge>, request: MergeRequest
  ): Verdict
  {
    var byCode := ByCode(departments);
    if request.loserCode !in byCode then Refused(NotLive(request, request.loserCode))
    else if request.winnerCode !in byCode then Refused(NotLive(request, request.winnerCode))
    else
      var loser, winner := byCode[request.loserCode], byCode[request.winnerCode];
      if loser.id == winner.id then Refused(SameDepartment(request))
      else if loser.branchId != winner.branchId then
        Refused(DifferentBranches(request, loser.branchId, winner.branchId))
      else if LosesIn(accepted, loser.id) || NamedAsLoser(requests, request.winnerCode) then
        Refused(ChainedOrRepeated(request))
      else
        var moving := Having(sections, DepartmentOf(), Some(loser.id));
        var staying := FoldsOf(loc, Having(sections, DepartmentOf(), Some(winner.id)));
        Accepted(
          Merge(loser.id, loser.code, loser.name.ar, winner.id, winner.code, winner.name.ar,
                loser.branchId, Mapped(moving, IdOf())),
          SectionClashes(loc, request, moving, staying))
  }

  datatype MergeState = MergeState(merges: seq<Merge>, problems: seq<Problem>)

  function MergesUpTo(
    loc: Locale, departments: seq<UnitRow>, sections: seq<UnitRow>,
    requests: seq<MergeRequest>, n: nat
  ): MergeState
    requires n <= |requests|
  {
    if n == 0 then MergeState([], [])
    else
      var st := MergesUpTo(loc, departments, sections, requests, n - 1);
      match Judge(loc, departments, sections, requests, st.merges, requests[n - 1])
      case Refused(problem) => MergeState(st.merges, st.problems + [problem])
      case Accepted(merge, clashes) => MergeState(st.merges + [merge], st.problems + clashes)
  }

  // ---------------------------------------------------------------- entries

  predicate Survives(merges: seq<Merge>, row: UnitRow) {
    row.catalogId.None? && !LosesIn(merges, row.id)
  }

  function OpenOf(merges: seq<Merge>): UnitRow -> bool {
    (row: UnitRow) => Survives(merges, row)
  }

  /** The department a reference to `id` means once the merges are done. */
  function WinnerFor(merges: seq<Merge>, id: Id): Id {
    if merges == [] then id
    else
      var m := merges[|merges| - 1];
      if m.loserId == id then m.winnerId else WinnerFor(merges[..|merges| - 1], id)
  }

  function Relocated(merges: seq<Merge>, row: UnitRow): UnitRow {
    match row.departmentId
    case Some(id) => row.(departmentId := Some(WinnerFor(merges, id)))
    case None => row
  }

  function RelocateOf(merges: seq<Merge>): UnitRow -> UnitRow {
    (row: UnitRow) => Relocated(merges, row)
  }

  function OpenDepartments(departments: seq<UnitRow>, merges: seq<Merge>): seq<UnitRow> {
    Having(departments, OpenOf(merges), true)
  }

  function OpenSections(sections: seq<UnitRow>, merges: seq<Merge>): seq<UnitRow> {
    Mapped(Having(sections, LinkedOf(), false), RelocateOf(merges))
  }

  /** The folded key of every department row a section may hang under: surviving or linked. */
  function KeyById(loc: Locale, departments: seq<UnitRow>, merges: seq<Merge>): map<Id, string> {
    if departments == [] then map[]
    else
      var row := departments[|departments| - 1];
      var rest := KeyById(loc, departments[..|departments| - 1], merges);
      if row.catalogId.Some? || !LosesIn(merges, row.id)
      then rest[row.id := FoldUnitName(loc, row.name)]
      else rest
  }

  function ParentOf(keyById: map<Id, string>): UnitRow -> Option<string> {
    (row: UnitRow) =>
      match row.departmentId
      case Some(id) => if id in keyById then Some(keyById[id]) else None
      case None => None
  }

  function PlacedOf(keyById: map<Id, string>): UnitRow -> bool {
    (row: UnitRow) => ParentOf(keyById)(row).Some?
  }

  /** The entry one group becomes: its oldest row's code and spelling, its rows oldest first. */
  function EntryOf(loc: Locale, key: string, rows: seq<UnitRow>, parent: Option<string>): Entry {
    var ordered := Sort(rows, OldestFirst(loc));
    if ordered == [] then Entry("", Name("", ""), key, [], [], parent)
    else Entry(ordered[0].code, ordered[0].name, key, Mapped(ordered, IdOf()),
               Mapped(ordered, CodeOf()), parent)
  }

  function EntryFrom(loc: Locale, rows: seq<UnitRow>, parent: Option<string>): string -> Entry {
    (key: string) => EntryOf(loc, key, Having(rows, FoldOf(loc), key), parent)
  }

  function Entries(loc: Locale, rows: seq<UnitRow>, parent: Option<string>): seq<Entry> {
    Mapped(KeysOf(rows, FoldOf(loc)), EntryFrom(loc, rows, parent))
  }

  /** Section entries, department entry by department entry. */
  function EntriesUnder(
    loc: Locale, rows: seq<UnitRow>, keyById: map<Id, string>, parents: seq<Option<string>>
  ): seq<Entry>
  {
    if parents == [] then []
    else
      var parent := parents[|parents| - 1];
      EntriesUnder(loc, rows, keyById, parents[..|parents| - 1]) +
      Entries(loc, Having(rows, ParentOf(keyById), parent), parent)
  }

  // ---------------------------------------------------------------- the gates

  function GateGroup(level: Level, key: string, ordered: seq<UnitRow>, holders: seq<Option<Id>>): seq<Problem> {
    if holders == [] then []
    else
      var holder := holders[|holders| - 1];
      var rest := GateGroup(level, key, ordered, holders[..|holders| - 1]);
      var inHolder := Having(ordered, HolderOf(level), holder);
      if |inHolder| > 1 then rest + [Doubled(level, holder, key, Mapped(inHolder, CodeOf()))] else rest
  }

  function Gate(loc: Locale, level: Level, rows: seq<UnitRow>, keys: seq<string>): seq<Problem> {
    if keys == [] then []
    else
      var key := keys[|keys| - 1];
      var ordered := Sort(Having(rows, FoldOf(loc), key), OldestFirst(loc));
      Gate(loc, level, rows, keys[..|keys| - 1]) +
      GateGroup(level, key, ordered, KeysOf(ordered, HolderOf(level)))
  }

  function GatesUnder(
    loc: Locale, rows: seq<UnitRow>, keyById: map<Id, string>, parents: seq<Option<string>>
  ): seq<Problem>
  {
    if parents == [] then []
    else
      var under := Having(rows, ParentOf(keyById), parents[|parents| - 1]);
      GatesUnder(loc, rows, keyById, parents[..|parents| - 1]) +
      Gate(loc, InDepartment, under, KeysOf(under, FoldOf(loc)))
  }

  function OrphanProblems(orphans: seq<UnitRow>, holders: seq<Option<Id>>): seq<Problem> {
    if holders == [] then []
    else
      var holder := holders[|holders| - 1];
      OrphanProblems(orphans, holders[..|holders| - 1]) +
      [Orphaned(holder, Mapped(Having(orphans, DepartmentOf(), holder), CodeOf()))]
  }

  // ---------------------------------------------------------------- the whole plan

  function PlanFor(
    loc: Locale, departments: seq<UnitRow>, sections: seq<UnitRow>, requests: seq<MergeRequest>
  ): Plan
  {
    var st := MergesUpTo(loc, departments, sections, requests, |requests|);
    var open := OpenDepartments(departments, st.merges);
    var openSections := OpenSections(sections, st.merges);
    var keyById := KeyById(loc, departments, st.merges);
    var orphans := Having(openSections, PlacedOf(keyById), false);
    var placed := Having(openSections, PlacedOf(keyById), true);
    var parents := KeysOf(placed, ParentOf(keyById));
    Plan(
      Sort(Entries(loc, open, None), ByReach(loc)),
      Sort(EntriesUnder(loc, placed, keyById, parents), ByReach(loc)),
      st.merges,
      |Having(departments, LinkedOf(), true)|,
      |Having(sections, LinkedOf(), true)|,
      st.problems
      + Gate(loc, InBranch, open, KeysOf(open, FoldOf(loc)))
      + OrphanProblems(orphans, KeysOf(orphans, DepartmentOf()))
      + GatesUnder(loc, placed, keyById, parents))
  }
}

/** The planner's loops. */
module OrgPlanner {
  import opened Options
  import opened Sequences
  import opened OrgRows
  import opened OrgPlanSpec

  method PlanMerges(
    loc: Locale, departments: seq<UnitRow>, sections: seq<UnitRow>, requests: seq<MergeRequest>
  ) returns (merges: seq<Merge>, problems: seq<Problem>)
    ensures MergeState(merges, problems) ==
            MergesUpTo(loc, departments, sections, requests, |requests|)
  {
    var byCode: map<string, UnitRow> := map[];
    for i := 0 to |departments|
      invariant byCode == ByCode(departments[..i])
    {
      assert departments[..i + 1][..i] == departments[..i];
      byCode := byCode[departments[i].code := departments[i]];
    }
    assert departments[..|departments|] == departments;

    merges, problems := [], [];
    var seenLosers: set<Id> := {};
    for n := 0 to |requests|
      invariant MergeState(merges, problems) == MergesUpTo(loc, departments, sections, requests, n)
      invariant forall id :: id in seenLosers <==> LosesIn(merges, id)
    {
      var request := requests[n];
      if request.loserCode !in byCode || request.winnerCode !in byCode {
        problems := problems + [NotLive(request,
          if request.loserCode !in byCode then request.loserCode else request.winnerCode)];
        continue;
      }
      var loser, winner := byCode[request.loserCode], byCode[request.winnerCode];
      if loser.id == winner.id {
        problems := problems + [SameDepartment(request)];
        continue;
      }
      if loser.branchId != winner.branchId {
        problems := problems + [DifferentBranches(request, loser.branchId, winner.branchId)];
        continue;
      }
      if loser.id in seenLosers || NamedAsLoser(requests, request.winnerCode) {
        problems := problems + [ChainedOrRepeated(request)];
        continue;
      }
      seenLosers := seenLosers + {loser.id};

      var moving := Having(sections, DepartmentOf(), Some(loser.id));
      var stayingKeys := FoldsOf(loc, Having(sections, DepartmentOf(), Some(winner.id)));
      var before := problems;
      for i := 0 to |moving|
        invariant problems == before + SectionClashes(loc, request, moving[..i], stayingKeys)
      {
        assert moving[..i + 1][..i] == moving[..i];
        if FoldUnitName(loc, moving[i].name) in stayingKeys {
          problems := problems + [SectionExists(request, moving[i].code, moving[i].name.ar)];
        }
      }
      assert moving[..|moving|] == moving;

      var merge := Merge(loser.id, loser.code, loser.name.ar, winner.id, winner.code, winner.name.ar,
                         loser.branchId, Mapped(moving, IdOf()));
      ghost var wasMerges := merges;
      merges := merges + [merge];
      assert forall id :: LosesIn(merges, id) <==> LosesIn(wasMerges, id) || id == loser.id by {
        assert merge in merges;
        assert forall m :: m in wasMerges ==> m in merges;
      }
    }
  }

  /** THE GATE over one group: every holder with more than one of its rows is a problem. */
  method GateOneGroup(level: Level, key: string, ordered: seq<UnitRow>) returns (problems: seq<Problem>)
    ensures problems == GateGroup(level, key, ordered, KeysOf(ordered, HolderOf(level)))
  {
    problems := [];
    var holders, inHolder := GroupBy(ordered, HolderOf(level));
    for h := 0 to |holders|
      invariant problems == GateGroup(level, key, ordered, holders[..h])
    {
      assert holders[..h + 1][..h] == holders[..h];
      if |inHolder[holders[h]]| > 1 {
        problems := problems +
          [Doubled(level, holders[h], key, Mapped(inHolder[holders[h]], CodeOf()))];
      }
    }
    assert holders[..|holders|] == holders;
  }

  lemma {:induction false} GateSnoc(loc: Locale, level: Level, rows: seq<UnitRow>, keys: seq<string>, g: nat)
    requires g < |keys|
    ensures var ordered := Sort(Having(rows, FoldOf(loc), keys[g]), OldestFirst(loc));
            Gate(loc, level, rows, keys[..g + 1]) ==
            Gate(loc, level, rows, keys[..g]) +
            GateGroup(level, keys[g], ordered, KeysOf(ordered, HolderOf(level)))
  {
    assert keys[..g + 1][..g] == keys[..g];
  }

  /** One entry per folded name among `rows`, each group gated. */
  method PlanGroups(loc: Locale, level: Level, rows: seq<UnitRow>, parent: Option<string>)
    returns (entries: seq<Entry>, problems: seq<Problem>)
    ensures entries == Entries(loc, rows, parent)
    ensures problems == Gate(loc, level, rows, KeysOf(rows, FoldOf(loc)))
  {
    entries, problems := [], [];
    var order, groups := GroupBy(rows, FoldOf(loc));
    ghost var make := EntryFrom(loc, rows, parent);
    for g := 0 to |order|
      invariant entries == Mapped(order[..g], make)
      invariant problems == Gate(loc, level, rows, order[..g])
    {
      var key := order[g];
      GateSnoc(loc, level, rows, order, g);
      MappedSnoc(order, g, make);
      var ordered := Sort(groups[key], OldestFirst(loc));
      var gated := GateOneGroup(level, key, ordered);
      problems := problems + gated;
      var entry := Entry(ordered[0].code, ordered[0].name, key,
                         Mapped(ordered, IdOf()), Mapped(ordered, CodeOf()), parent);
      assert entry == make(key);
      entries := entries + [entry];
    }
    assert order[..|order|] == order;
  }

  lemma {:induction false} KeyByIdMeaning(loc: Locale, departments: seq<UnitRow>, merges: seq<Merge>)
    requires UniqueIds(departments)
    ensures forall id :: id in KeyById(loc, departments, merges) ==>
              exists r :: r in departments && r.id == id && (r.catalogId.Some? || !LosesIn(merges, r.id))
    ensures forall r :: r in departments && (r.catalogId.Some? || !LosesIn(merges, r.id)) ==>
              r.id in KeyById(loc, departments, merges) &&
              KeyById(loc, departments, merges)[r.id] == FoldUnitName(loc, r.name)
  {
    if departments != [] {
      var n := |departments| - 1;
      var init, last := departments[..n], departments[n];
      KeyByIdMeaning(loc, init, merges);
      assert departments == init + [last];
      forall id | id in KeyById(loc, departments, merges)
        ensures exists r :: r in departments && r.id == id && (r.catalogId.Some? || !LosesIn(merges, r.id))
      {
        if id in KeyById(loc, init, merges) {
          var r :| r in init && r.id == id && (r.catalogId.Some? || !LosesIn(merges, r.id));
          assert r in departments;
        } else {
          assert last in departments && last.id == id;
        }
      }
    }
  }

  lemma {:induction false} WinnerForMeaning(merges: seq<Merge>, id: Id)
    ensures !LosesIn(merges, id) ==> WinnerFor(merges, id) == id
    ensures LosesIn(merges, id) ==>
              exists m :: m in merges && m.loserId == id && m.winnerId == WinnerFor(merges, id)
  {
    if merges != [] {
      var n := |merges| - 1;
      var init, last := merges[..n], merges[n];
      WinnerForMeaning(init, id);
      assert merges == init + [last];
      if last.loserId == id {
        assert last in merges;
      } else if LosesIn(init, id) {
        var m :| m in init && m.loserId == id && m.winnerId == WinnerFor(init, id);
        assert m in merges;
      } else {
        assert !LosesIn(merges, id);
      }
    }
  }

  /** Every accepted merge moves exactly the sections that hang under its loser. */
  ghost predicate MovesWholeDepartments(sections: seq<UnitRow>, merges: seq<Merge>) {
    forall m :: m in merges ==>
      m.movedSectionIds == Mapped(Having(sections, DepartmentOf(), Some(m.loserId)), IdOf())
  }

  lemma {:induction false} MergesMoveWholeDepartments(
    loc: Locale, departments: seq<UnitRow>, sections: seq<UnitRow>, requests: seq<MergeRequest>, n: nat)
    requires n <= |requests|
    ensures MovesWholeDepartments(sections, MergesUpTo(loc, departments, sections, requests, n).merges)
  {
    if n > 0 {
      MergesMoveWholeDepartments(loc, departments, sections, requests, n - 1);
    }
  }

  /** Which sections a merge moves: those under its loser, identified by their own ids. */
  lemma {:induction false} MovedByMerge(sections: seq<UnitRow>, m: Merge, row: UnitRow)
    requires UniqueIds(sections) && row in sections
    requires m.movedSectionIds == Mapped(Having(sections, DepartmentOf(), Some(m.loserId)), IdOf())
    ensures row.id in m.movedSectionIds <==> row.departmentId == Some(m.loserId)
  {
    var under := Having(sections, DepartmentOf(), Some(m.loserId));
    HavingMember(sections, DepartmentOf(), Some(m.loserId));
    if row.departmentId == Some(m.loserId) {
      assert DepartmentOf()(row) == Some(m.loserId);
      assert row in under;
      var i :| 0 <= i < |under| && under[i] == row;
      assert m.movedSectionIds[i] == row.id;
    }
    if row.id in m.movedSectionIds {
      var i :| 0 <= i < |m.movedSectionIds| && m.movedSectionIds[i] == row.id;
      assert under[i] in under;
      assert under[i].id == row.id && under[i] in sections;
      assert under[i] == row;
      assert DepartmentOf()(row) == Some(m.loserId);
    }
  }

  /** `movedTo` after the first merges: where each moved section goes. */
  ghost predicate RecordsMoves(movedTo: map<Id, Id>, sections: seq<UnitRow>, merges: seq<Merge>) {
    forall row :: row in sections ==>
      if row.departmentId.Some? && LosesIn(merges, row.departmentId.value)
      then row.id in movedTo && movedTo[row.id] == WinnerFor(merges, row.departmentId.value)
      else row.id !in movedTo
  }

  lemma {:induction false} LosesInSnoc(merges: seq<Merge>, merge: Merge, id: Id)
    ensures LosesIn(merges + [merge], id) <==> LosesIn(merges, id) || merge.loserId == id
    ensures WinnerFor(merges + [merge], id) ==
            if merge.loserId == id then merge.winnerId else WinnerFor(merges, id)
  {
    assert (merges + [merge])[..|merges|] == merges;
    assert merge in merges + [merge];
    assert forall m :: m in merges ==> m in merges + [merge];
  }

  lemma {:induction false} RecordOneMove(movedTo: map<Id, Id>, sections: seq<UnitRow>, merges: seq<Merge>, merge: Merge)
    requires UniqueIds(sections) && RecordsMoves(movedTo, sections, merges)
    requires merge.movedSectionIds == Mapped(Having(sections, DepartmentOf(), Some(merge.loserId)), IdOf())
    ensures RecordsMoves(movedTo + map id | id in merge.movedSectionIds :: merge.winnerId,
                         sections, merges + [merge])
  {
    var after := movedTo + map id | id in merge.movedSectionIds :: merge.winnerId;
    forall row | row in sections
      ensures if row.departmentId.Some? && LosesIn(merges + [merge], row.departmentId.value)
              then row.id in after && after[row.id] == WinnerFor(merges + [merge], row.departmentId.value)
              else row.id !in after
    {
      MovedByMerge(sections, merge, row);
      if row.departmentId.Some? {
        LosesInSnoc(merges, merge, row.departmentId.value);
      }
    }
  }

  method MoveAll(before: map<Id, Id>, sectionIds: seq<Id>, winnerId: Id) returns (movedTo: map<Id, Id>)
    ensures movedTo == before + map id | id in sectionIds :: winnerId
  {
    movedTo := before;
    for j := 0 to |sectionIds|
      invariant movedTo == before + map id | id in sectionIds[..j] :: winnerId
    {
      movedTo := movedTo[sectionIds[j] := winnerId];
    }
    assert sectionIds[..|sectionIds|] == sectionIds;
  }

  method CollectMoves(sections: seq<UnitRow>, merges: seq<Merge>) returns (movedTo: map<Id, Id>)
    requires UniqueIds(sections) && MovesWholeDepartments(sections, merges)
    ensures RecordsMoves(movedTo, sections, merges)
  {
    movedTo := map[];
    for k := 0 to |merges|
      invariant RecordsMoves(movedTo, sections, merges[..k])
    {
      assert merges[..k + 1] == merges[..k] + [merges[k]];
      RecordOneMove(movedTo, sections, merges[..k], merges[k]);
      movedTo := MoveAll(movedTo, merges[k].movedSectionIds, merges[k].winnerId);
    }
    assert merges[..|merges|] == merges;
  }

  /** The unlinked sections, each under the department its own is merged into. */
  method RelocateSections(sections: seq<UnitRow>, merges: seq<Merge>) returns (openSections: seq<UnitRow>)
    requires UniqueIds(sections) && MovesWholeDepartments(sections, merges)
    ensures openSections == OpenSections(sections, merges)
  {
    var movedTo := CollectMoves(sections, merges);
    var unlinked := Having(sections, LinkedOf(), false);
    HavingMember(sections, LinkedOf(), false);
    openSections := [];
    for i := 0 to |unlinked|
      invariant openSections == Mapped(unlinked[..i], RelocateOf(merges))
    {
      var row := unlinked[i];
      assert row in unlinked;
      MappedSnoc(unlinked, i, RelocateOf(merges));
      if row.departmentId.Some? {
        WinnerForMeaning(merges, row.departmentId.value);
      }
      openSections := openSections +
        [if row.id in movedTo then row.(departmentId := Some(movedTo[row.id])) else row];
    }
    assert unlinked[..|unlinked|] == unlinked;
  }

  /** The folded names of some department rows, recorded under their ids. */
  method RecordKeys(loc: Locale, rows: seq<UnitRow>, before: map<Id, string>) returns (keyById: map<Id, string>)
    requires UniqueIds(rows)
    ensures Recorded(loc, rows, before, keyById)
  {
    keyById := before;
    for i := 0 to |rows|
      invariant keyById.Keys == before.Keys + set r | r in rows[..i] :: r.id
      invariant forall id :: id in before && id !in (set r | r in rows[..i] :: r.id) ==> keyById[id] == before[id]
      invariant forall k :: 0 <= k < i ==>
                  rows[k].id in keyById && keyById[rows[k].id] == FoldUnitName(loc, rows[k].name)
    {
      keyById := keyById[rows[i].id := FoldUnitName(loc, rows[i].name)];
      assert rows[..i + 1] == rows[..i] + [rows[i]];
    }
    assert rows[..|rows|] == rows;
  }

  lemma {:induction false} HavingKeepsUniqueIds<K(!new)>(rows: seq<UnitRow>, key: UnitRow -> K, k: K)
    requires UniqueIds(rows)
    ensures UniqueIds(Having(rows, key, k))
  {
    if rows != [] {
      var init := rows[..|rows| - 1];
      HavingKeepsUniqueIds(init, key, k);
      HavingMember(init, key, k);
      var kept := Having(init, key, k);
      forall i | 0 <= i < |kept| ensures kept[i].id != rows[|rows| - 1].id {
        assert kept[i] in kept;
      }
    }
  }

  /** A section may hang under the open departments and the ones an earlier run linked. */
  lemma {:induction false} KnownDepartments(departments: seq<UnitRow>, merges: seq<Merge>, r: UnitRow)
    ensures r in OpenDepartments(departments, merges) || r in Having(departments, LinkedOf(), true) <==>
            r in departments && (r.catalogId.Some? || !LosesIn(merges, r.id))
  {
    HavingMember(departments, OpenOf(merges), true);
    HavingMember(departments, LinkedOf(), true);
    assert OpenOf(merges)(r) == Survives(merges, r);
    assert LinkedOf()(r) == r.catalogId.Some?;
  }

  lemma {:induction false} KeyByIdIs(
    loc: Locale, departments: seq<UnitRow>, merges: seq<Merge>, keyById: map<Id, string>)
    requires UniqueIds(departments)
    requires forall id :: id in keyById ==>
               exists r :: r in departments && r.id == id && (r.catalogId.Some? || !LosesIn(merges, r.id))
    requires forall r :: r in departments && (r.catalogId.Some? || !LosesIn(merges, r.id)) ==>
               r.id in keyById && keyById[r.id] == FoldUnitName(loc, r.name)
    ensures keyById == KeyById(loc, departments, merges)
  {
    KeyByIdMeaning(loc, departments, merges);
    var want := KeyById(loc, departments, merges);
    forall id | id in keyById ensures id in want && want[id] == keyById[id] {
      var r :| r in departments && r.id == id && (r.catalogId.Some? || !LosesIn(merges, r.id));
    }
    forall id | id in want ensures id in keyById {
      var r :| r in departments && r.id == id && (r.catalogId.Some? || !LosesIn(merges, r.id));
    }
  }

  /** `keyById` is `before` with the folded names of `rows` recorded over it. */
  ghost predicate Recorded(loc: Locale, rows: seq<UnitRow>, before: map<Id, string>, keyById: map<Id, string>) {
    && (forall id :: id in keyById ==> id in before || exists r :: r in rows && r.id == id)
    && (forall id :: id in before && (forall r :: r in rows ==> r.id != id) ==>
      id in keyById && keyById[id] == before[id])
    && (forall r :: r in rows ==> r.id in keyById && keyById[r.id] == FoldUnitName(loc, r.name))
  }

  lemma {:induction false} IndexedTwice(
    loc: Locale, departments: seq<UnitRow>, merges: seq<Merge>, openKeys: map<Id, string>, keyById: map<Id, string>)
    requires UniqueIds(departments)
    requires Recorded(loc, OpenDepartments(departments, merges), map[], openKeys)
    requires Recorded(loc, Having(departments, LinkedOf(), true), openKeys, keyById)
    ensures keyById == KeyById(loc, departments, merges)
  {
    hide Having, FoldUnitName, OpenDepartments;
    var open, linked := OpenDepartments(departments, merges), Having(departments, LinkedOf(), true);
    forall r: UnitRow
      ensures r in open || r in linked <==> r in departments && (r.catalogId.Some? || !LosesIn(merges, r.id))
    {
      KnownDepartments(departments, merges, r);
    }
    forall r | r in open ensures r.id in keyById && keyById[r.id] == FoldUnitName(loc, r.name) {
      if r' :| r' in linked && r'.id == r.id {
        SameRow(departments, r, r');
      }
    }
    KeyByIdIs(loc, departments, merges, keyById);
  }

  lemma {:induction false} SameRow(departments: seq<UnitRow>, r: UnitRow, r': UnitRow)
    requires UniqueIds(departments) && r in departments && r' in departments && r.id == r'.id
    ensures r == r'
  {
  }

  /** `departmentKeyById`: first the open departments, then the ones an earlier run linked. */
  method IndexDepartmentKeys(loc: Locale, departments: seq<UnitRow>, merges: seq<Merge>)
    returns (keyById: map<Id, string>)
    requires UniqueIds(departments)
    ensures keyById == KeyById(loc, departments, merges)
  {
    hide Having, KeyById, FoldUnitName, UniqueIds, Recorded;
    var open := OpenDepartments(departments, merges);
    var linked := Having(departments, LinkedOf(), true);
    HavingKeepsUniqueIds(departments, OpenOf(merges), true);
    HavingKeepsUniqueIds(departments, LinkedOf(), true);
    var openKeys := RecordKeys(loc, open, map[]);
    keyById := RecordKeys(loc, linked, openKeys);
    IndexedTwice(loc, departments, merges, openKeys, keyById);
  }

  method PlanOrphans(orphans: seq<UnitRow>) returns (problems: seq<Problem>)
    ensures problems == OrphanProblems(orphans, KeysOf(orphans, DepartmentOf()))
  {
    problems := [];
    var holders, underHolder := GroupBy(orphans, DepartmentOf());
    for h := 0 to |holders|
      invariant problems == OrphanProblems(orphans, holders[..h])
    {
      assert holders[..h + 1][..h] == holders[..h];
      problems := problems + [Orphaned(holders[h], Mapped(underHolder[holders[h]], CodeOf()))];
    }
    assert holders[..|holders|] == holders;
  }

  lemma {:induction false} UnderSnoc(
    loc: Locale, rows: seq<UnitRow>, keyById: map<Id, string>, parents: seq<Option<string>>, p: nat)
    requires p < |parents|
    ensures var under := Having(rows, ParentOf(keyById), parents[p]);
            && EntriesUnder(loc, rows, keyById, parents[..p + 1]) ==
               EntriesUnder(loc, rows, keyById, parents[..p]) + Entries(loc, under, parents[p])
            && GatesUnder(loc, rows, keyById, parents[..p + 1]) ==
               GatesUnder(loc, rows, keyById, parents[..p]) +
               Gate(loc, InDepartment, under, KeysOf(under, FoldOf(loc)))
  {
    assert parents[..p + 1][..p] == parents[..p];
  }

  /** Sections: one entry per (company-wide department, folded name). */
  method PlanSections(loc: Locale, keyById: map<Id, string>, placed: seq<UnitRow>)
    returns (entries: seq<Entry>, problems: seq<Problem>)
    ensures entries == EntriesUnder(loc, placed, keyById, KeysOf(placed, ParentOf(keyById)))
    ensures problems == GatesUnder(loc, placed, keyById, KeysOf(placed, ParentOf(keyById)))
  {
    entries, problems := [], [];
    var parents, underParent := GroupBy(placed, ParentOf(keyById));
    for p := 0 to |parents|
      invariant entries == EntriesUnder(loc, placed, keyById, parents[..p])
      invariant problems == GatesUnder(loc, placed, keyById, parents[..p])
    {
      UnderSnoc(loc, placed, keyById, parents, p);
      var made, gated := PlanGroups(loc, InDepartment, underParent[parents[p]], parents[p]);
      entries := entries + made;
      problems := problems + gated;
    }
    assert parents[..|parents|] == parents;
  }

  /** `planOrgCatalog`. */
  method PlanOrgCatalog(
    loc: Locale, departments: seq<UnitRow>, sections: seq<UnitRow>, requests: seq<MergeRequest>
  ) returns (plan: Plan)
    requires UniqueIds(departments) && UniqueIds(sections)
    ensures plan == PlanFor(loc, departments, sections, requests)
  {
    var merges, mergeProblems := PlanMerges(loc, departments, sections, requests);
    MergesMoveWholeDepartments(loc, departments, sections, requests, |requests|);
    var openSections := RelocateSections(sections, merges);
    var departmentEntries, gated :=
      PlanGroups(loc, InBranch, OpenDepartments(departments, merges), None);
    var keyById := IndexDepartmentKeys(loc, departments, merges);
    var orphaned := PlanOrphans(Having(openSections, PlacedOf(keyById), false));
    var sectionEntries, sectionGated :=
      PlanSections(loc, keyById, Having(openSections, PlacedOf(keyById), true));
    plan := Plan(
      Sort(departmentEntries, ByReach(loc)),
      Sort(sectionEntries, ByReach(loc)),
      merges,
      |Having(departments, LinkedOf(), true)|,
      |Having(sections, LinkedOf(), true)|,
      mergeProblems + gated + orphaned + sectionGated);
  }
}
