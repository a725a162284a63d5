/**
 * The rows of the two workforce sheets (apps/api/src/workforce-import/plan.ts, lines 29-171 and 238-362).
 */
module WorkforceRows {
  import opened Options
  import opened YmdText

  datatype Sheet = Master | Resignation

  /** What a spreadsheet cell or a record of cells was read as, and what a stored document holds. */
  datatype Cell =
    | Null
    | Flag(on: bool)
    | Number(amount: real)
    | Words(text: string)
    | Date(time: int)
    | ObjectId(hex: string)
    | List(items: seq<Cell>)
    | Record(fields: map<string, Cell>)

  datatype Exit = Exit(kind: Option<string>, effectiveDate: Option<int>, reason: Option<string>, note: Option<string>)

  /** One row: the cells the planner reads, and everything else it only compares. */
  datatype SourceRow = SourceRow(
    sheet: Sheet,
    rowNumber: int,
    code: Option<string>,
    nationalId: Option<string>,
    fullNameAr: Option<string>,
    hiredAt: Option<int>,
    branchName: Option<string>,
    departmentName: Option<string>,
    jobTitleName: Option<string>,
    exit: Option<Exit>,
    others: Cell)

  datatype RowRef = RowRef(sheet: Sheet, rowNumber: int)

  function RefOf(row: SourceRow): RowRef {
    RowRef(row.sheet, row.rowNumber)
  }

  datatype Reason =
    | NoCode | NoArabicName | NoHireDate | NoSite | NoDepartment | NoJobTitle
    | NoExitDate | ExitReasonBlank | ExitReasonUnknown(said: string) | ExitBeforeHire
    | BadCodeShape(written: string)

  datatype Rejection = Rejection(at: RowRef, code: Option<string>, reason: Reason)

  datatype DisagreeingCopies = DisagreeingCopies(code: string, name: string, kept: RowRef, dropped: seq<RowRef>)

  datatype PersonPlan = PersonPlan(
    nationalId: Option<string>,
    code: string,
    employeeNumber: string,
    branchCodeAtHire: string,
    spells: seq<SourceRow>,
    current: SourceRow,
    serving: bool)

  datatype ImportPlan = ImportPlan(
    people: seq<PersonPlan>,
    rejected: seq<Rejection>,
    disagreeing: seq<DisagreeingCopies>)

  // ---------------------------------------------------------------- which rows can be used

  /** `unusableReason`: the first thing the registry requires that the row lacks. */
  function UnusableReason(row: SourceRow): Option<Reason> {
    if row.code.None? then Some(NoCode)
    else if row.fullNameAr.None? then Some(NoArabicName)
    else if row.hiredAt.None? then Some(NoHireDate)
    else if row.branchName.None? then Some(NoSite)
    else if row.departmentName.None? then Some(NoDepartment)
    else if row.jobTitleName.None? then Some(NoJobTitle)
    else if row.sheet == Resignation then UnusableExit(row.exit, row.hiredAt.value)
    else None
  }

  function UnusableExit(exit: Option<Exit>, hiredAt: int): Option<Reason> {
    if exit.None? || exit.value.effectiveDate.None? then Some(NoExitDate)
    else if exit.value.kind.None? then
      Some(if exit.value.reason.None? then ExitReasonBlank else ExitReasonUnknown(exit.value.reason.value))
    else if exit.value.effectiveDate.value < hiredAt then Some(ExitBeforeHire)
    else None
  }

  predicate IsUsable(row: SourceRow) {
    UnusableReason(row).None?
  }

  // ---------------------------------------------------------------- who a row is about

  /** `identityKey`: the national ID, or the employee code of somebody who has none. */
  function IdentityKey(row: SourceRow): string {
    match row.nationalId
    case Some(nid) => "nid:" + nid
    case None => "code:" + (if row.code.Some? then row.code.value else "null")
  }

  lemma {:induction false} SameTail(prefix: string, a: string, b: string)
    requires prefix + a == prefix + b
    ensures a == b
  {
    assert a == (prefix + a)[|prefix|..] && b == (prefix + b)[|prefix|..];
  }

  /** The two key spaces never meet, and within one the key names the identity. */
  lemma {:induction false} IdentityKeyIff(a: SourceRow, b: SourceRow)
    requires IsUsable(a) && IsUsable(b)
    ensures IdentityKey(a) == IdentityKey(b) <==>
      a.nationalId == b.nationalId && (a.nationalId.None? ==> a.code == b.code)
  {
    var ka, kb := IdentityKey(a), IdentityKey(b);
    if ka == kb {
      assert ka[0] == kb[0];
      assert a.nationalId.Some? <==> ka[0] == 'n';
      assert b.nationalId.Some? <==> kb[0] == 'n';
      if a.nationalId.Some? {
        SameTail("nid:", a.nationalId.value, b.nationalId.value);
      } else {
        SameTail("code:", a.code.value, b.code.value);
      }
    }
  }

  // ---------------------------------------------------------------- the employee code

  datatype CodeParts = CodeParts(branchCode: string, number: string)

  predicate AllDigits(s: string) {
    forall i :: 0 <= i < |s| ==> IsDigit(s[i])
  }

  /** `splitCode`: three digits of branch, then at least four of number. */
  function SplitCode(code: string): (r: Option<CodeParts>)
    ensures r.Some? ==>
              code == r.value.branchCode + r.value.number && AllDigits(r.value.number) && |r.value.number| >= 4
  {
    if |code| >= 7 && AllDigits(code) then Some(CodeParts(code[..3], code[3..])) else None
  }

  /** `formatEmployeeNumber` */
  function FormatEmployeeNumber(n: nat): string {
    Pad(n, 4)
  }

  /** `buildEmployeeCode` of the planned branch code and employee number. */
  function Recomposed(parts: CodeParts): string
    requires AllDigits(parts.number)
  {
    parts.branchCode + FormatEmployeeNumber(Value(parts.number))
  }

  lemma {:induction false} DecimalLeads(n: nat)
    requires n > 0
    ensures |Decimal(n)| > 0 && Decimal(n)[0] != '0'
  {
    if n >= 10 {
      DecimalLeads(n / 10);
    }
  }

  /**
   * Composing branch and number gives the code back exactly when the number is not a longer one with a leading zero.
   */
  lemma {:induction false} CodeRecomposesIff(code: string)
    requires SplitCode(code).Some?
    ensures var parts := SplitCode(code).value;
            Recomposed(parts) == code <==> |parts.number| == 4 || parts.number[0] != '0'
  {
    var parts := SplitCode(code).value;
    var digits, n, w := parts.number, Value(parts.number), |parts.number|;
    FixedOfValue(digits);
    DecimalPadded(n, w);
    if parts.branchCode + Pad(n, 4) == code {
      SameTail(parts.branchCode, Pad(n, 4), digits);
      if w > 4 {
        assert Decimal(n) == digits;
        assert n > 0;
        DecimalLeads(n);
      }
    }
    if w > 4 && digits[0] != '0' {
      assert |Decimal(n)| == w;
    }
  }

  // ---------------------------------------------------------------- what two copies say

  /** `sameValue`; a row holds no list and no id. */
  predicate SameValue(a: Cell, b: Cell) {
    if a.Record? && b.Record? then
      |a.fields.Keys| == |b.fields.Keys| && forall k :: k in a.fields ==>
        k in b.fields && SameValue(a.fields[k], b.fields[k])
    else a == b
  }

  lemma {:induction false} SubsetOfSameSize<T(!new)>(s: set<T>, t: set<T>)
    requires s <= t && |s| == |t|
    ensures s == t
  {
    assert |t - s| == 0;
    assert t == s + (t - s);
  }

  /** Comparing keys one way and counting them is comparing the records. */
  lemma {:induction false} SameValueIff(a: Cell, b: Cell)
    ensures SameValue(a, b) <==> a == b
  {
    if a.Record? && b.Record? {
      forall k | k in a.fields && k in b.fields
        ensures SameValue(a.fields[k], b.fields[k]) <==> a.fields[k] == b.fields[k]
      {
        SameValueIff(a.fields[k], b.fields[k]);
      }
      if SameValue(a, b) {
        SubsetOfSameSize(a.fields.Keys, b.fields.Keys);
        assert a.fields == b.fields;
      }
    }
  }

  /** `sayTheSame`: every column but where the row sits, and across the sheets but the ending. */
  predicate SayTheSame(kept: SourceRow, other: SourceRow) {
    && kept.code == other.code
    && kept.nationalId == other.nationalId
    && kept.fullNameAr == other.fullNameAr
    && kept.hiredAt == other.hiredAt
    && kept.branchName == other.branchName
    && kept.departmentName == other.departmentName
    && kept.jobTitleName == other.jobTitleName
    && (kept.sheet == other.sheet ==> kept.exit == other.exit)
    && SameValue(kept.others, other.others)
  }

  /** Two copies say the same exactly when moving one to where the other sits, ending and all, makes them one row. */
  lemma {:induction false} SayTheSameIff(kept: SourceRow, other: SourceRow)
    ensures SayTheSame(kept, other) <==>
      kept == other.(
        sheet := kept.sheet,
        rowNumber := kept.rowNumber,
        exit := if kept.sheet == other.sheet then other.exit else kept.exit)
  {
    SameValueIff(kept.others, other.others);
  }
}

/**
 * What the planner decides, as functions of the rows (apps/api/src/workforce-import/plan.ts, lines 179-229
 * and 267-335).
 */
module WorkforcePlanSpec {
  import opened Options
  import opened Sequences
  import opened WorkforceRows
  import opened YmdText

  function HireTime(row: SourceRow): int {
    if row.hiredAt.Some? then row.hiredAt.value else 0
  }

  predicate IsExit(row: SourceRow) {
    row.sheet == Resignation
  }

  /** `orderSpells`, as "comes before": exits first, then by hire date, then by row. */
  predicate SpellBefore(a: SourceRow, b: SourceRow) {
    if a.sheet != b.sheet then a.sheet == Resignation
    else if HireTime(a) != HireTime(b) then HireTime(a) < HireTime(b)
    else a.rowNumber < b.rowNumber
  }

  /** `bySheetThenRow` */
  predicate RejectionBefore(a: Rejection, b: Rejection) {
    if a.at.sheet == b.at.sheet then a.at.rowNumber < b.at.rowNumber else a.at.sheet == Master
  }

  // ---------------------------------------------------------------- one employment

  /** The `reduce` of `keptCopy`: the row with the greatest number, the first of them on a tie. */
  function LatestOf(pool: seq<SourceRow>): (r: SourceRow)
    requires pool != []
    ensures r in pool && forall i :: 0 <= i < |pool| ==> pool[i].rowNumber <= r.rowNumber
  {
    var n := |pool| - 1;
    if n == 0 then pool[0]
    else
      var a := LatestOf(pool[..n]);
      assert forall i :: 0 <= i < n ==> pool[i] == pool[..n][i];
      if pool[n].rowNumber > a.rowNumber then pool[n] else a
  }

  function PoolOf(copies: seq<SourceRow>): (pool: seq<SourceRow>)
    ensures copies != [] ==> pool != []
  {
    var ended := Having(copies, IsExit, true);
    if |ended| > 0 then ended else copies
  }

  /** `keptCopy` */
  function KeptCopy(copies: seq<SourceRow>): SourceRow
    requires copies != []
  {
    LatestOf(PoolOf(copies))
  }

  /** All the copies but the kept object, which is the first one equal to it. */
  function WithoutOne(copies: seq<SourceRow>, kept: SourceRow): seq<SourceRow> {
    if copies == [] then []
    else if copies[0] == kept then copies[1..]
    else [copies[0]] + WithoutOne(copies[1..], kept)
  }

  function DroppedOf(copies: seq<SourceRow>): seq<SourceRow>
    requires copies != []
  {
    WithoutOne(copies, KeptCopy(copies))
  }

  predicate SomeDisagrees(kept: SourceRow, dropped: seq<SourceRow>) {
    exists i :: 0 <= i < |dropped| && !SayTheSame(kept, dropped[i])
  }

  function TextOr(cell: Option<string>): string {
    if cell.Some? then cell.value else "null"
  }

  function DisagreementOf(copies: seq<SourceRow>): Option<DisagreeingCopies>
    requires copies != []
  {
    var kept, dropped := KeptCopy(copies), DroppedOf(copies);
    if SomeDisagrees(kept, dropped) then
      Some(DisagreeingCopies(TextOr(kept.code), TextOr(kept.fullNameAr), RefOf(kept), Mapped(dropped, RefOf)))
    else None
  }

  // ---------------------------------------------------------------- one person

  function CopiesOn(group: seq<SourceRow>, day: int): seq<SourceRow> {
    Having(group, HireTime, day)
  }

  function HireDays(group: seq<SourceRow>): seq<int> {
    KeysOf(group, HireTime)
  }

  predicate AllHired(group: seq<SourceRow>, days: seq<int>) {
    forall i :: 0 <= i < |days| ==> CopiesOn(group, days[i]) != []
  }

  lemma {:induction false} EveryDayHasCopies(group: seq<SourceRow>)
    ensures AllHired(group, HireDays(group))
  {
    KeysOfMember(group, HireTime);
    forall i | 0 <= i < |HireDays(group)| ensures CopiesOn(group, HireDays(group)[i]) != [] {
      var day := HireDays(group)[i];
      assert day in KeysOf(group, HireTime);
      var x :| x in group && HireTime(x) == day;
      HavingMember(group, HireTime, day);
      assert x in CopiesOn(group, day);
    }
  }

  /** The kept row of each of the given hire days. */
  function SpellsOn(group: seq<SourceRow>, days: seq<int>): seq<SourceRow>
    requires AllHired(group, days)
  {
    seq(|days|, i requires 0 <= i < |days| => KeptCopy(CopiesOn(group, days[i])))
  }

  function DisagreementsOn(group: seq<SourceRow>, days: seq<int>): seq<DisagreeingCopies>
    requires AllHired(group, days)
  {
    if days == [] then []
    else
      var n := |days| - 1;
      DisagreementsOn(group, days[..n]) + Listed(DisagreementOf(CopiesOn(group, days[n])))
  }

  function Listed<T(!new)>(o: Option<T>): seq<T> {
    if o.Some? then [o.value] else []
  }

  lemma {:induction false} OneMoreDay(group: seq<SourceRow>, days: seq<int>, i: nat)
    requires i < |days| && AllHired(group, days)
    ensures AllHired(group, days[..i]) && AllHired(group, days[..i + 1])
    ensures SpellsOn(group, days[..i + 1]) == SpellsOn(group, days[..i]) + [KeptCopy(CopiesOn(group, days[i]))]
    ensures DisagreementsOn(group, days[..i + 1])
         == DisagreementsOn(group, days[..i]) + Listed(DisagreementOf(CopiesOn(group, days[i])))
  {
    hide CopiesOn, KeptCopy, DisagreementOf;
    var more := days[..i + 1];
    assert more[..i] == days[..i];
    assert more[i] == days[i];
    assert SpellsOn(group, more)[..i] == SpellsOn(group, days[..i]);
  }

  function SpellsOf(group: seq<SourceRow>): seq<SourceRow> {
    EveryDayHasCopies(group);
    SpellsOn(group, HireDays(group))
  }

  function DisagreementsOf(group: seq<SourceRow>): seq<DisagreeingCopies> {
    EveryDayHasCopies(group);
    DisagreementsOn(group, HireDays(group))
  }

  function OrderedSpells(group: seq<SourceRow>): (r: seq<SourceRow>)
    ensures |r| == |HireDays(group)|
  {
    Sort(SpellsOf(group), SpellBefore)
  }

  lemma {:induction false} SomeDay(group: seq<SourceRow>)
    requires group != []
    ensures HireDays(group) != []
  {
    KeysOfMember(group, HireTime);
    assert group[0] in group;
    assert HireTime(group[0]) in HireDays(group);
  }

  function CurrentOf(group: seq<SourceRow>): SourceRow
    requires group != []
  {
    SomeDay(group);
    OrderedSpells(group)[|OrderedSpells(group)| - 1]
  }

  predicate OnMaster(spells: seq<SourceRow>) {
    exists i :: 0 <= i < |spells| && spells[i].sheet == Master
  }

  datatype Outcome = Planned(person: PersonPlan) | Refused(rejection: Rejection)

  /** What becomes of one person's rows. */
  function OutcomeOf(group: seq<SourceRow>): Outcome
    requires group != []
  {
    var current := CurrentOf(group);
    var code := TextOr(current.code);
    match SplitCode(code)
    case None => Refused(Rejection(RefOf(current), Some(code), BadCodeShape(code)))
    case Some(parts) =>
      Planned(PersonPlan(
        current.nationalId, code, FormatEmployeeNumber(Value(parts.number)), parts.branchCode,
        OrderedSpells(group), current, OnMaster(OrderedSpells(group))))
  }

  // ---------------------------------------------------------------- the whole plan

  function UsableRows(rows: seq<SourceRow>): seq<SourceRow> {
    Having(rows, IsUsable, true)
  }

  function UnusableRows(rows: seq<SourceRow>): seq<SourceRow> {
    Having(rows, IsUsable, false)
  }

  function RejectionOf(row: SourceRow): Rejection {
    Rejection(RefOf(row), row.code, match UnusableReason(row) case Some(reason) => reason case None => NoCode)
  }

  function Identities(rows: seq<SourceRow>): seq<string> {
    KeysOf(UsableRows(rows), IdentityKey)
  }

  function GroupOf(rows: seq<SourceRow>, key: string): seq<SourceRow> {
    Having(UsableRows(rows), IdentityKey, key)
  }

  predicate AllKnown(rows: seq<SourceRow>, keys: seq<string>) {
    forall i :: 0 <= i < |keys| ==> GroupOf(rows, keys[i]) != []
  }

  function PeopleOf(rows: seq<SourceRow>, keys: seq<string>): seq<PersonPlan>
    requires AllKnown(rows, keys)
  {
    if keys == [] then []
    else
      var n := |keys| - 1;
      PeopleOf(rows, keys[..n]) + PersonIn(OutcomeOf(GroupOf(rows, keys[n])))
  }

  function RefusalsOf(rows: seq<SourceRow>, keys: seq<string>): seq<Rejection>
    requires AllKnown(rows, keys)
  {
    if keys == [] then []
    else
      var n := |keys| - 1;
      RefusalsOf(rows, keys[..n]) + RefusalIn(OutcomeOf(GroupOf(rows, keys[n])))
  }

  function AllDisagreements(rows: seq<SourceRow>, keys: seq<string>): seq<DisagreeingCopies> {
    if keys == [] then []
    else
      var n := |keys| - 1;
      AllDisagreements(rows, keys[..n]) + DisagreementsOf(GroupOf(rows, keys[n]))
  }

  function PersonIn(o: Outcome): seq<PersonPlan> {
    if o.Planned? then [o.person] else []
  }

  function RefusalIn(o: Outcome): seq<Rejection> {
    if o.Refused? then [o.rejection] else []
  }

  lemma {:induction false} OneMorePerson(rows: seq<SourceRow>, keys: seq<string>, i: nat)
    requires i < |keys| && AllKnown(rows, keys)
    ensures AllKnown(rows, keys[..i]) && AllKnown(rows, keys[..i + 1])
    ensures PeopleOf(rows, keys[..i + 1]) == PeopleOf(rows, keys[..i]) + PersonIn(OutcomeOf(GroupOf(rows, keys[i])))
    ensures RefusalsOf(rows, keys[..i + 1]) ==
            RefusalsOf(rows, keys[..i]) + RefusalIn(OutcomeOf(GroupOf(rows, keys[i])))
    ensures AllDisagreements(rows, keys[..i + 1])
         == AllDisagreements(rows, keys[..i]) + DisagreementsOf(GroupOf(rows, keys[i]))
  {
    hide GroupOf, OutcomeOf, DisagreementsOf;
    assert keys[..i + 1][..i] == keys[..i];
    assert keys[..i + 1][i] == keys[i];
  }

  lemma {:induction false} EveryIdentityKnown(rows: seq<SourceRow>)
    ensures AllKnown(rows, Identities(rows))
  {
    var usable := UsableRows(rows);
    KeysOfMember(usable, IdentityKey);
    forall i | 0 <= i < |Identities(rows)| ensures GroupOf(rows, Identities(rows)[i]) != [] {
      var key := Identities(rows)[i];
      assert key in KeysOf(usable, IdentityKey);
      var x :| x in usable && IdentityKey(x) == key;
      HavingMember(usable, IdentityKey, key);
      assert x in GroupOf(rows, key);
    }
  }

  function PlanOf(rows: seq<SourceRow>): ImportPlan {
    EveryIdentityKnown(rows);
    var keys := Identities(rows);
    ImportPlan(
      PeopleOf(rows, keys),
      Sort(Mapped(UnusableRows(rows), RejectionOf) + RefusalsOf(rows, keys), RejectionBefore),
      AllDisagreements(rows, keys))
  }
}

/** The planner's two loops (apps/api/src/workforce-import/plan.ts, lines 179-229 and 300-328). */
module WorkforcePlanner {
  import opened Options
  import opened Sequences
  import opened WorkforceRows
  import opened WorkforcePlanSpec
  import opened YmdText

  /** One turn of the loop of `collapseCopies`. */
  method KeepOne(copies: seq<SourceRow>) returns (kept: SourceRow, found: Option<DisagreeingCopies>)
    requires copies != []
    ensures kept == KeptCopy(copies)
    ensures found == DisagreementOf(copies)
  {
    hide KeptCopy, WithoutOne, SayTheSame;
    kept := KeptCopy(copies);
    var dropped := WithoutOne(copies, kept);
    found := None;
    if SomeDisagrees(kept, dropped) {
      found := Some(DisagreeingCopies(TextOr(kept.code), TextOr(kept.fullNameAr), RefOf(kept), Mapped(dropped, RefOf)));
    }
  }

  /** `collapseCopies` */
  method CollapseCopies(group: seq<SourceRow>) returns (spells: seq<SourceRow>, disagreeing: seq<DisagreeingCopies>)
    ensures spells == SpellsOf(group)
    ensures disagreeing == DisagreementsOf(group)
  {
    hide KeptCopy, DisagreementOf, Having;
    var days, byHireDay := GroupBy(group, HireTime);
    EveryDayHasCopies(group);
    spells, disagreeing := [], [];
    for i := 0 to |days|
      invariant AllHired(group, days[..i])
      invariant spells == SpellsOn(group, days[..i])
      invariant disagreeing == DisagreementsOn(group, days[..i])
    {
      assert days[i] in days;
      var kept, found := KeepOne(byHireDay[days[i]]);
      OneMoreDay(group, days, i);
      spells := spells + [kept];
      disagreeing := disagreeing + Listed(found);
    }
    assert days[..|days|] == days;
  }

  /** The first pass: what cannot be used is reported, the rest goes to its person. */
  method SortOut(rows: seq<SourceRow>) returns (rejected: seq<Rejection>, usable: seq<SourceRow>)
    ensures rejected == Mapped(UnusableRows(rows), RejectionOf)
    ensures usable == UsableRows(rows)
  {
    rejected, usable := [], [];
    for i := 0 to |rows|
      invariant rejected == Mapped(UnusableRows(rows[..i]), RejectionOf)
      invariant usable == UsableRows(rows[..i])
    {
      var row := rows[i];
      assert rows[..i + 1][..i] == rows[..i];
      match UnusableReason(row) {
        case Some(reason) =>
          rejected := rejected + [Rejection(RefOf(row), row.code, reason)];
        case None =>
          usable := usable + [row];
      }
    }
    assert rows[..|rows|] == rows;
  }

  /** The second loop: one person after another. */
  method PlanPeople(rows: seq<SourceRow>, order: seq<string>, byIdentity: map<string, seq<SourceRow>>)
    returns (people: seq<PersonPlan>, refused: seq<Rejection>, disagreeing: seq<DisagreeingCopies>)
    requires AllKnown(rows, order)
    requires forall k :: k in order ==> k in byIdentity && byIdentity[k] == GroupOf(rows, k)
    ensures people == PeopleOf(rows, order)
    ensures refused == RefusalsOf(rows, order)
    ensures disagreeing == AllDisagreements(rows, order)
  {
    hide GroupOf, OutcomeOf, DisagreementsOf;
    people, refused, disagreeing := [], [], [];
    for i := 0 to |order|
      invariant AllKnown(rows, order[..i])
      invariant people == PeopleOf(rows, order[..i])
      invariant refused == RefusalsOf(rows, order[..i])
      invariant disagreeing == AllDisagreements(rows, order[..i])
    {
      assert order[i] in order;
      OneMorePerson(rows, order, i);
      var outcome, copies := PlanPerson(byIdentity[order[i]]);
      disagreeing := disagreeing + copies;
      people := people + PersonIn(outcome);
      refused := refused + RefusalIn(outcome);
    }
    assert order[..|order|] == order;
  }

  /** `buildPlan` */
  method BuildPlan(rows: seq<SourceRow>) returns (plan: ImportPlan)
    ensures plan == PlanOf(rows)
  {
    hide Having, PeopleOf, RefusalsOf, AllDisagreements;
    var unusable, usable := SortOut(rows);
    var order, byIdentity := GroupBy(usable, IdentityKey);
    EveryIdentityKnown(rows);
    var people, refused, disagreeing := PlanPeople(rows, order, byIdentity);
    plan := ImportPlan(people, Sort(unusable + refused, RejectionBefore), disagreeing);
  }

  /** One turn of the second loop. */
  method PlanPerson(group: seq<SourceRow>) returns (outcome: Outcome, copies: seq<DisagreeingCopies>)
    requires group != []
    ensures outcome == OutcomeOf(group)
    ensures copies == DisagreementsOf(group)
  {
    hide SpellsOf, DisagreementsOf, OutcomeOf, Sort;
    var spells;
    spells, copies := CollapseCopies(group);
    outcome := Decide(group, Sort(spells, SpellBefore));
  }

  /** What the second loop does with one person's ordered spells. */
  method Decide(group: seq<SourceRow>, ordered: seq<SourceRow>) returns (outcome: Outcome)
    requires group != [] && ordered == OrderedSpells(group)
    ensures outcome == OutcomeOf(group)
  {
    SomeDay(group);
    var current := ordered[|ordered| - 1];
    var code := TextOr(current.code);
    match SplitCode(code) {
      case None =>
        outcome := Refused(Rejection(RefOf(current), Some(code), BadCodeShape(code)));
      case Some(parts) =>
        outcome := Planned(PersonPlan(
          current.nationalId, code, FormatEmployeeNumber(Value(parts.number)), parts.branchCode,
          ordered, current, OnMaster(ordered)));
    }
  }
}
