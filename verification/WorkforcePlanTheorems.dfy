/** What a person's spells are (apps/api/src/workforce-import/plan.ts, lines 267-335). */
module WorkforceSpells {
  import opened Options
  import opened Sequences
  import opened WorkforceRows
  import opened WorkforcePlanSpec

  // ---------------------------------------------------------------- which copy is kept

  lemma {:induction false} PoolMember(copies: seq<SourceRow>, x: SourceRow)
    ensures x in PoolOf(copies) <==> x in copies && (IsExit(x) || forall y :: y in copies ==> !IsExit(y))
  {
    HavingMember(copies, IsExit, true);
    var ended := Having(copies, IsExit, true);
    if |ended| > 0 {
      assert ended[0] in ended;
    }
  }

  /** `kept` is an ended copy if there is one, and no later row of its own kind stands among the copies. */
  ghost predicate RightCopy(copies: seq<SourceRow>, kept: SourceRow) {
    && kept in copies
    && (IsExit(kept) || forall y :: y in copies ==> !IsExit(y))
    && (forall y :: y in copies && IsExit(y) == IsExit(kept) ==> y.rowNumber <= kept.rowNumber)
  }

  lemma {:induction false} KeptIsRight(copies: seq<SourceRow>)
    requires copies != []
    ensures RightCopy(copies, KeptCopy(copies))
  {
    var pool := PoolOf(copies);
    var kept := KeptCopy(copies);
    PoolMember(copies, kept);
    forall y | y in copies && IsExit(y) == IsExit(kept) ensures y.rowNumber <= kept.rowNumber {
      PoolMember(copies, y);
      var i :| 0 <= i < |pool| && pool[i] == y;
    }
  }

  /** No two rows sit in one place. */
  ghost predicate DistinctPlaces(rows: seq<SourceRow>) {
    forall a, b :: a in rows && b in rows && RefOf(a) == RefOf(b) ==> a == b
  }

  /** Which copy is kept depends on the rows only, not on the order they were read in. */
  lemma {:induction false} OneRightCopy(copies: seq<SourceRow>, a: SourceRow, b: SourceRow)
    requires DistinctPlaces(copies) && RightCopy(copies, a) && RightCopy(copies, b)
    ensures a == b
  {
    assert IsExit(a) == IsExit(b);
    assert RefOf(a) == RefOf(b);
  }

  lemma {:induction false} WithoutOneCounts(copies: seq<SourceRow>, kept: SourceRow)
    requires kept in copies
    ensures multiset(copies) == multiset(WithoutOne(copies, kept)) + multiset{kept}
  {
    assert copies == [copies[0]] + copies[1..];
    if copies[0] != kept {
      WithoutOneCounts(copies[1..], kept);
    }
  }

  lemma {:induction false} CopiesSplit(copies: seq<SourceRow>)
    requires copies != []
    ensures multiset(copies) == multiset(DroppedOf(copies)) + multiset{KeptCopy(copies)}
  {
    KeptIsRight(copies);
    WithoutOneCounts(copies, KeptCopy(copies));
  }

  // ---------------------------------------------------------------- one spell per hire date

  lemma {:induction false} CopiesMember(group: seq<SourceRow>, x: SourceRow)
    requires x in group
    ensures x in CopiesOn(group, HireTime(x))
    ensures HireTime(x) in HireDays(group)
  {
    HavingMember(group, HireTime, HireTime(x));
    KeysOfMember(group, HireTime);
  }

  /** The kept row of a hire day. */
  lemma {:induction false} KeptOn(group: seq<SourceRow>, day: int)
    requires CopiesOn(group, day) != []
    ensures var kept := KeptCopy(CopiesOn(group, day));
            kept in group && HireTime(kept) == day && RightCopy(CopiesOn(group, day), kept)
  {
    KeptIsRight(CopiesOn(group, day));
    HavingMember(group, HireTime, day);
  }

  /** A row is a spell exactly when it is the copy kept of its own hire day. */
  ghost predicate IsSpell(group: seq<SourceRow>, x: SourceRow) {
    x in group && CopiesOn(group, HireTime(x)) != [] && x == KeptCopy(CopiesOn(group, HireTime(x)))
  }

  lemma {:induction false} SpellMember(group: seq<SourceRow>, x: SourceRow)
    ensures x in SpellsOf(group) <==> IsSpell(group, x)
  {
    hide KeptCopy, CopiesOn, HireDays, RightCopy;
    EveryDayHasCopies(group);
    var days := HireDays(group);
    if x in SpellsOf(group) {
      var i :| 0 <= i < |days| && SpellsOf(group)[i] == x;
      KeptOn(group, days[i]);
    }
    if IsSpell(group, x) {
      CopiesMember(group, x);
      var i :| 0 <= i < |days| && days[i] == HireTime(x);
      assert SpellsOf(group)[i] == x;
    }
  }

  ghost predicate DistinctHires(spells: seq<SourceRow>) {
    forall i, j :: 0 <= i < |spells| && 0 <= j < |spells| && i != j ==> HireTime(spells[i]) != HireTime(spells[j])
  }

  lemma {:induction false} SpellsHireDays(group: seq<SourceRow>)
    ensures DistinctHires(SpellsOf(group)) && Distinct(SpellsOf(group))
  {
    hide KeptCopy, CopiesOn, HireDays, RightCopy;
    EveryDayHasCopies(group);
    var days := HireDays(group);
    assert Distinct(days) by {
      DaysDistinct(group);
    }
    forall i | 0 <= i < |days| ensures HireTime(SpellsOf(group)[i]) == days[i] {
      KeptOn(group, days[i]);
    }
  }

  lemma {:induction false} DaysDistinct(group: seq<SourceRow>)
    ensures Distinct(HireDays(group))
  {
    KeysOfMember(group, HireTime);
  }

  // ---------------------------------------------------------------- their order

  lemma {:induction false} SpellOrderIsWeak()
    ensures StrictWeakOrder(SpellBefore)
  {
  }

  /** Exits before serving rows, and within each kind strictly increasing hire dates. */
  ghost predicate History(spells: seq<SourceRow>) {
    forall i, j :: 0 <= i < j < |spells| ==>
      (spells[i].sheet == spells[j].sheet && HireTime(spells[i]) < HireTime(spells[j]))
      || (spells[i].sheet == Resignation && spells[j].sheet == Master)
  }

  lemma {:induction false} PermutedHires(s: seq<SourceRow>, t: seq<SourceRow>)
    requires multiset(s) == multiset(t) && DistinctHires(s) && Distinct(s)
    ensures DistinctHires(t)
  {
    PermutationKeepsDistinct(s, t);
    forall i, j | 0 <= i < |t| && 0 <= j < |t| && i != j ensures HireTime(t[i]) != HireTime(t[j]) {
      assert t[i] != t[j];
      assert t[i] in multiset(s) && t[j] in multiset(s);
      var a :| 0 <= a < |s| && s[a] == t[i];
      var b :| 0 <= b < |s| && s[b] == t[j];
    }
  }

  /** A person's spells start on distinct dates and stand in the order the registry must walk them. */
  lemma {:induction false} SpellsAreHistory(group: seq<SourceRow>)
    ensures DistinctHires(OrderedSpells(group)) && History(OrderedSpells(group))
    ensures forall x :: x in OrderedSpells(group) <==> IsSpell(group, x)
  {
    hide SpellsOf, IsSpell, Sort;
    var spells := SpellsOf(group);
    SpellsHireDays(group);
    SortPermutes(spells, SpellBefore);
    SpellOrderIsWeak();
    SortSorts(spells, SpellBefore);
    PermutedHires(spells, OrderedSpells(group));
    SortedIsHistory(OrderedSpells(group));
    forall x ensures x in OrderedSpells(group) <==> IsSpell(group, x) {
      SpellMember(group, x);
    }
  }

  lemma {:induction false} SortedIsHistory(spells: seq<SourceRow>)
    requires DistinctHires(spells) && SortedBy(spells, SpellBefore)
    ensures History(spells)
  {
    forall i, j | 0 <= i < j < |spells|
      ensures (spells[i].sheet == spells[j].sheet && HireTime(spells[i]) < HireTime(spells[j]))
           || (spells[i].sheet == Resignation && spells[j].sheet == Master)
    {
      assert !SpellBefore(spells[j], spells[i]);
      assert HireTime(spells[i]) != HireTime(spells[j]);
    }
  }

  /** A Master row of a hire date that no Resignation row of the person shares. */
  ghost predicate StillServing(group: seq<SourceRow>, x: SourceRow) {
    x in group && !IsExit(x) && forall y :: y in group && IsExit(y) ==> HireTime(y) != HireTime(x)
  }

  lemma {:induction false} ServingSpell(group: seq<SourceRow>, x: SourceRow)
    requires x in group
    ensures IsSpell(group, x) && !IsExit(x) ==> StillServing(group, x)
    ensures StillServing(group, x) ==> exists s :: IsSpell(group, s) && !IsExit(s)
  {
    hide KeptCopy;
    var day := HireTime(x);
    var copies := CopiesOn(group, day);
    CopiesMember(group, x);
    KeptOn(group, day);
    HavingMember(group, HireTime, day);
    if StillServing(group, x) {
      var s := KeptCopy(copies);
      assert IsSpell(group, s) && !IsExit(s);
    }
  }

  /** A person serves exactly when the last spell is a Master row, which is when some Master row has no ending. */
  lemma {:induction false} ServingIff(group: seq<SourceRow>)
    requires group != []
    ensures OnMaster(OrderedSpells(group)) <==> CurrentOf(group).sheet == Master
    ensures OnMaster(OrderedSpells(group)) <==> exists x :: StillServing(group, x)
  {
    hide OrderedSpells, IsSpell, StillServing;
    SpellsAreHistory(group);
    SomeDay(group);
    var spells := OrderedSpells(group);
    if OnMaster(spells) {
      var i :| 0 <= i < |spells| && spells[i].sheet == Master;
      assert spells[i] in spells;
      assert spells[i] in group by {
        SpellIsRow(group, spells[i]);
      }
      ServingSpell(group, spells[i]);
    }
    if x :| StillServing(group, x) {
      assert x in group by {
        ServingIsRow(group, x);
      }
      ServingSpell(group, x);
      var s :| IsSpell(group, s) && !IsExit(s);
      assert s in spells;
    }
  }

  lemma {:induction false} SpellIsRow(group: seq<SourceRow>, x: SourceRow)
    requires IsSpell(group, x)
    ensures x in group
  {
  }

  lemma {:induction false} ServingIsRow(group: seq<SourceRow>, x: SourceRow)
    requires StillServing(group, x)
    ensures x in group
  {
  }

  // ---------------------------------------------------------------- reading order

  lemma {:induction false} SubPlaces(big: seq<SourceRow>, small: seq<SourceRow>)
    requires DistinctPlaces(big) && forall x :: x in small ==> x in big
    ensures DistinctPlaces(small)
  {
  }

  lemma {:induction false} SameCopy(g: seq<SourceRow>, h: seq<SourceRow>, day: int)
    requires multiset(g) == multiset(h) && DistinctPlaces(g)
    ensures (CopiesOn(g, day) == []) == (CopiesOn(h, day) == [])
    ensures CopiesOn(g, day) != [] ==> KeptCopy(CopiesOn(g, day)) == KeptCopy(CopiesOn(h, day))
  {
    hide KeptCopy, Having;
    var a, b := CopiesOn(g, day), CopiesOn(h, day);
    HavingPermuted(g, h, HireTime, day);
    SameMembers(a, b);
    if a != [] {
      KeptIsRight(a);
      KeptIsRight(b);
      HavingMember(g, HireTime, day);
      SubPlaces(g, a);
      OneRightCopy(a, KeptCopy(a), KeptCopy(b));
    }
  }

  lemma {:induction false} SameMembers<T(!new)>(a: seq<T>, b: seq<T>)
    requires multiset(a) == multiset(b)
    ensures forall x :: x in a <==> x in b
    ensures |a| == |b|
  {
    SameLength(a, b);
    assert forall x :: x in a <==> x in multiset(a);
    assert forall x :: x in b <==> x in multiset(b);
  }

  lemma {:induction false} SameSpells(g: seq<SourceRow>, h: seq<SourceRow>)
    requires multiset(g) == multiset(h) && DistinctPlaces(g)
    ensures multiset(SpellsOf(g)) == multiset(SpellsOf(h))
  {
    hide SpellsOf, KeptCopy, CopiesOn;
    SameMembers(g, h);
    forall x ensures x in SpellsOf(g) <==> x in SpellsOf(h) {
      SpellMember(g, x);
      SpellMember(h, x);
      SameCopy(g, h, HireTime(x));
    }
    SpellsHireDays(g);
    SpellsHireDays(h);
    DistinctSameElements(SpellsOf(g), SpellsOf(h));
  }

  lemma {:induction false} NoTiedSpells(spells: seq<SourceRow>)
    requires DistinctHires(spells)
    ensures NoTies(spells, SpellBefore)
  {
    forall i, j | 0 <= i < |spells| && 0 <= j < |spells| && spells[i] != spells[j]
      ensures SpellBefore(spells[i], spells[j]) || SpellBefore(spells[j], spells[i])
    {
      assert HireTime(spells[i]) != HireTime(spells[j]);
    }
  }

  /** What becomes of a person does not depend on the order of their rows. */
  lemma {:induction false} SameOutcome(g: seq<SourceRow>, h: seq<SourceRow>)
    requires multiset(g) == multiset(h) && DistinctPlaces(g) && g != []
    ensures h != [] && OrderedSpells(g) == OrderedSpells(h) && OutcomeOf(g) == OutcomeOf(h)
  {
    hide SpellsOf, Sort, OnMaster;
    SameMembers(g, h);
    SameSpells(g, h);
    SpellsHireDays(g);
    NoTiedSpells(SpellsOf(g));
    SpellOrderIsWeak();
    SortOfPermutation(SpellsOf(g), SpellsOf(h), SpellBefore);
  }
}

/** What the whole plan does with the rows (apps/api/src/workforce-import/plan.ts, lines 179-229 and 300-328). */
module WorkforcePlanTheorems {
  import opened Options
  import opened Sequences
  import opened WorkforceRows
  import opened WorkforcePlanSpec
  import opened WorkforceSpells
  import opened YmdText

  // ---------------------------------------------------------------- members of the plan

  /** The rows of one usable identity. */
  ghost predicate IsIdentity(rows: seq<SourceRow>, key: string) {
    key in Identities(rows) && GroupOf(rows, key) != []
  }

  lemma {:induction false} GroupMember(rows: seq<SourceRow>, key: string, x: SourceRow)
    ensures x in GroupOf(rows, key) <==> x in rows && IsUsable(x) && IdentityKey(x) == key
  {
    HavingMember(UsableRows(rows), IdentityKey, key);
    HavingMember(rows, IsUsable, true);
  }

  lemma {:induction false} IdentityIff(rows: seq<SourceRow>, key: string)
    ensures IsIdentity(rows, key) <==> GroupOf(rows, key) != []
  {
    KeysOfMember(UsableRows(rows), IdentityKey);
    HavingMember(UsableRows(rows), IdentityKey, key);
    if GroupOf(rows, key) != [] {
      assert GroupOf(rows, key)[0] in GroupOf(rows, key);
    }
  }

  lemma {:induction false} PeopleMember(rows: seq<SourceRow>, keys: seq<string>, p: PersonPlan)
    requires AllKnown(rows, keys)
    ensures p in PeopleOf(rows, keys) <==>
      exists i :: 0 <= i < |keys| && OutcomeOf(GroupOf(rows, keys[i])) == Planned(p)
  {
    hide GroupOf, OutcomeOf;
    if keys != [] {
      var n := |keys| - 1;
      PeopleMember(rows, keys[..n], p);
      assert forall i :: 0 <= i < n ==> keys[..n][i] == keys[i];
    }
  }

  lemma {:induction false} RefusalMember(rows: seq<SourceRow>, keys: seq<string>, r: Rejection)
    requires AllKnown(rows, keys)
    ensures r in RefusalsOf(rows, keys) <==>
      exists i :: 0 <= i < |keys| && OutcomeOf(GroupOf(rows, keys[i])) == Refused(r)
  {
    hide GroupOf, OutcomeOf;
    if keys != [] {
      var n := |keys| - 1;
      RefusalMember(rows, keys[..n], r);
      assert forall i :: 0 <= i < n ==> keys[..n][i] == keys[i];
    }
  }

  /** `o` is what became of somebody. */
  ghost predicate Came(rows: seq<SourceRow>, o: Outcome) {
    exists key :: IsIdentity(rows, key) && OutcomeOf(GroupOf(rows, key)) == o
  }

  lemma {:induction false} PlannedIff(rows: seq<SourceRow>, p: PersonPlan)
    ensures p in PlanOf(rows).people <==> Came(rows, Planned(p))
  {
    hide GroupOf, OutcomeOf, PeopleOf, RefusalsOf, AllDisagreements, Identities, Sort;
    EveryIdentityKnown(rows);
    var keys := Identities(rows);
    PeopleMember(rows, keys, p);
    if Came(rows, Planned(p)) {
      var key :| IsIdentity(rows, key) && OutcomeOf(GroupOf(rows, key)) == Planned(p);
      var i :| 0 <= i < |keys| && keys[i] == key;
    }
    if i :| 0 <= i < |keys| && OutcomeOf(GroupOf(rows, keys[i])) == Planned(p) {
      assert IsIdentity(rows, keys[i]);
    }
  }

  lemma {:induction false} RefusedIff(rows: seq<SourceRow>, r: Rejection)
    requires AllKnown(rows, Identities(rows))
    ensures r in RefusalsOf(rows, Identities(rows)) <==> Came(rows, Refused(r))
  {
    hide GroupOf, OutcomeOf, PeopleOf, RefusalsOf, AllDisagreements, Identities;
    var keys := Identities(rows);
    RefusalMember(rows, keys, r);
    if Came(rows, Refused(r)) {
      var key :| IsIdentity(rows, key) && OutcomeOf(GroupOf(rows, key)) == Refused(r);
      var i :| 0 <= i < |keys| && keys[i] == key;
    }
    if i :| 0 <= i < |keys| && OutcomeOf(GroupOf(rows, keys[i])) == Refused(r) {
      assert IsIdentity(rows, keys[i]);
    }
  }

  lemma {:induction false} RejectedIff(rows: seq<SourceRow>, r: Rejection)
    ensures r in PlanOf(rows).rejected <==>
      (exists x :: x in rows && !IsUsable(x) && RejectionOf(x) == r) || Came(rows, Refused(r))
  {
    hide GroupOf, OutcomeOf, PeopleOf, RefusalsOf, AllDisagreements, Identities, Sort, IsUsable, RejectionOf, Came;
    EveryIdentityKnown(rows);
    var unusable := UnusableRows(rows);
    var listed := Mapped(unusable, RejectionOf);
    SortPermutes(listed + RefusalsOf(rows, Identities(rows)), RejectionBefore);
    RefusedIff(rows, r);
    HavingMember(rows, IsUsable, false);
    if r in listed {
      var i :| 0 <= i < |listed| && listed[i] == r;
      assert unusable[i] in unusable;
    }
    if x :| x in rows && !IsUsable(x) && RejectionOf(x) == r {
      assert x in unusable;
      var i :| 0 <= i < |unusable| && unusable[i] == x;
      assert listed[i] == r;
    }
  }

  // ---------------------------------------------------------------- disagreements

  lemma {:induction false} DayDisagreement(group: seq<SourceRow>, days: seq<int>, d: DisagreeingCopies)
    requires AllHired(group, days)
    ensures d in DisagreementsOn(group, days) <==>
      exists i :: 0 <= i < |days| && DisagreementOf(CopiesOn(group, days[i])) == Some(d)
  {
    hide CopiesOn, DisagreementOf;
    if days != [] {
      var n := |days| - 1;
      DayDisagreement(group, days[..n], d);
      assert forall i :: 0 <= i < n ==> days[..n][i] == days[i];
    }
  }

  lemma {:induction false} PersonDisagreement(rows: seq<SourceRow>, keys: seq<string>, d: DisagreeingCopies)
    ensures d in AllDisagreements(rows, keys) <==>
      exists i :: 0 <= i < |keys| && d in DisagreementsOf(GroupOf(rows, keys[i]))
  {
    hide GroupOf, DisagreementsOf;
    if keys != [] {
      var n := |keys| - 1;
      PersonDisagreement(rows, keys[..n], d);
      assert forall i :: 0 <= i < n ==> keys[..n][i] == keys[i];
    }
  }

  /** The copies of one employment of one person. */
  function Employment(rows: seq<SourceRow>, key: string, day: int): seq<SourceRow> {
    CopiesOn(GroupOf(rows, key), day)
  }

  ghost predicate DisagreesOver(rows: seq<SourceRow>, key: string, day: int, d: DisagreeingCopies) {
    Employment(rows, key, day) != [] && DisagreementOf(Employment(rows, key, day)) == Some(d)
  }

  lemma {:induction false} EmploymentMember(rows: seq<SourceRow>, key: string, day: int, x: SourceRow)
    ensures x in Employment(rows, key, day) <==>
      x in rows && IsUsable(x) && IdentityKey(x) == key && HireTime(x) == day
  {
    GroupMember(rows, key, x);
    HavingMember(GroupOf(rows, key), HireTime, day);
  }

  /** A disagreement is reported exactly for the employments whose copies differ from the kept one. */
  lemma {:induction false} DisagreeingIff(rows: seq<SourceRow>, d: DisagreeingCopies)
    ensures d in PlanOf(rows).disagreeing <==> exists key, day :: DisagreesOver(rows, key, day, d)
  {
    hide GroupOf, DisagreementOf, PeopleOf, RefusalsOf, Sort, CopiesOn, AllDisagreements, Identities, HireDays;
    var keys := Identities(rows);
    PersonDisagreement(rows, keys, d);
    if d in PlanOf(rows).disagreeing {
      var i :| 0 <= i < |keys| && d in DisagreementsOf(GroupOf(rows, keys[i]));
      var group := GroupOf(rows, keys[i]);
      EveryDayHasCopies(group);
      DayDisagreement(group, HireDays(group), d);
      var j :| 0 <= j < |HireDays(group)| && DisagreementOf(CopiesOn(group, HireDays(group)[j])) == Some(d);
      assert DisagreesOver(rows, keys[i], HireDays(group)[j], d);
    }
    if key, day :| DisagreesOver(rows, key, day, d) {
      DisagreementIsListed(rows, key, day, d);
    }
  }

  lemma {:induction false} DisagreementIsListed(rows: seq<SourceRow>, key: string, day: int, d: DisagreeingCopies)
    requires DisagreesOver(rows, key, day, d)
    ensures d in PlanOf(rows).disagreeing
  {
    hide DisagreementOf, PeopleOf, RefusalsOf, Sort, AllDisagreements, Having, KeysOf;
    var group := GroupOf(rows, key);
    var x := Employment(rows, key, day)[0];
    assert x in Employment(rows, key, day);
    EmploymentMember(rows, key, day, x);
    GroupMember(rows, key, x);
    CopiesMember(group, x);
    EveryDayHasCopies(group);
    DayDisagreement(group, HireDays(group), d);
    assert d in DisagreementsOf(group);
    IdentityIff(rows, key);
    var keys := Identities(rows);
    var i :| 0 <= i < |keys| && keys[i] == key;
    PersonDisagreement(rows, keys, d);
  }

  // ---------------------------------------------------------------- no row is lost

  ghost predicate KeptAsSpell(plan: ImportPlan, x: SourceRow) {
    exists p :: p in plan.people && x in p.spells
  }

  /** `x` is a copy of the kept spell `s`: it adds nothing, or the report names both. */
  ghost predicate CopyOf(plan: ImportPlan, x: SourceRow, s: SourceRow) {
    && IdentityKey(x) == IdentityKey(s) && x.hiredAt == s.hiredAt
    && (SayTheSame(s, x) || exists d :: d in plan.disagreeing && d.kept == RefOf(s) && RefOf(x) in d.dropped)
  }

  ghost predicate SetAsideFor(plan: ImportPlan, x: SourceRow) {
    exists s :: KeptAsSpell(plan, s) && CopyOf(plan, x, s)
  }

  /** The row that describes the person today has a code of the wrong shape. */
  ghost predicate PersonRefused(rows: seq<SourceRow>, plan: ImportPlan, x: SourceRow) {
    && GroupOf(rows, IdentityKey(x)) != []
    && var current := CurrentOf(GroupOf(rows, IdentityKey(x)));
       SplitCode(TextOr(current.code)).None?
       && Rejection(RefOf(current), Some(TextOr(current.code)), BadCodeShape(TextOr(current.code))) in plan.rejected
  }

  /** What the plan did with the row: refused it, kept it, set it aside for a kept one, or refused its person. */
  ghost predicate Accounted(rows: seq<SourceRow>, plan: ImportPlan, x: SourceRow) {
    || (!IsUsable(x) && RejectionOf(x) in plan.rejected)
    || (IsUsable(x) && KeptAsSpell(plan, x))
    || (IsUsable(x) && SetAsideFor(plan, x))
    || (IsUsable(x) && PersonRefused(rows, plan, x))
  }

  /** Every row is accounted for. */
  lemma {:induction false} NoRowIsLost(rows: seq<SourceRow>, x: SourceRow)
    requires x in rows
    ensures Accounted(rows, PlanOf(rows), x)
  {
    hide PlanOf, IsUsable, RejectionOf, KeptAsSpell, SetAsideFor, PersonRefused, OutcomeOf, Came;
    var plan := PlanOf(rows);
    if !IsUsable(x) {
      RejectedIff(rows, RejectionOf(x));
    } else {
      var key := IdentityKey(x);
      GroupMember(rows, key, x);
      if OutcomeOf(GroupOf(rows, key)).Refused? {
        RefusedRow(rows, x);
      } else {
        PlannedRow(rows, x);
      }
    }
  }

  lemma {:induction false} RefusedRow(rows: seq<SourceRow>, x: SourceRow)
    requires GroupOf(rows, IdentityKey(x)) != [] && OutcomeOf(GroupOf(rows, IdentityKey(x))).Refused?
    ensures PersonRefused(rows, PlanOf(rows), x)
  {
    hide PlanOf, GroupOf, CurrentOf, SplitCode, OrderedSpells;
    var key := IdentityKey(x);
    IdentityIff(rows, key);
    var r := OutcomeOf(GroupOf(rows, key)).rejection;
    assert Came(rows, Refused(r));
    RejectedIff(rows, r);
  }

  /** A person's spells, read off the outcome. */
  lemma {:induction false} OutcomeSpells(group: seq<SourceRow>)
    requires group != [] && OutcomeOf(group).Planned?
    ensures OutcomeOf(group).person.spells == OrderedSpells(group)
    ensures OutcomeOf(group).person.current == CurrentOf(group)
    ensures OutcomeOf(group).person.serving == OnMaster(OrderedSpells(group))
    ensures SplitCode(TextOr(CurrentOf(group).code)).Some?
  {
  }

  lemma {:induction false} PlannedSpell(rows: seq<SourceRow>, key: string, s: SourceRow)
    requires GroupOf(rows, key) != [] && OutcomeOf(GroupOf(rows, key)).Planned?
    requires IsSpell(GroupOf(rows, key), s)
    ensures KeptAsSpell(PlanOf(rows), s)
  {
    hide PlanOf, GroupOf, OutcomeOf, IsSpell, OrderedSpells;
    var p := OutcomeOf(GroupOf(rows, key)).person;
    IdentityIff(rows, key);
    assert Came(rows, Planned(p));
    PlannedIff(rows, p);
    OutcomeSpells(GroupOf(rows, key));
    SpellsAreHistory(GroupOf(rows, key));
    assert s in p.spells;
  }

  lemma {:induction false} PlannedRow(rows: seq<SourceRow>, x: SourceRow)
    requires x in GroupOf(rows, IdentityKey(x)) && OutcomeOf(GroupOf(rows, IdentityKey(x))).Planned?
    ensures KeptAsSpell(PlanOf(rows), x) || SetAsideFor(PlanOf(rows), x)
  {
    hide PlanOf, OutcomeOf, KeptCopy, KeptAsSpell, CopyOf;
    var key, day := IdentityKey(x), HireTime(x);
    var group := GroupOf(rows, key);
    CopiesMember(group, x);
    var s := KeptCopy(CopiesOn(group, day));
    KeptOn(group, day);
    assert IsSpell(group, s);
    PlannedSpell(rows, key, s);
    if s != x {
      SetAsideCopy(rows, x, s);
    }
  }

  lemma {:induction false} DroppedMember(copies: seq<SourceRow>, x: SourceRow)
    requires x in copies && x != KeptCopy(copies)
    ensures x in DroppedOf(copies)
  {
    CopiesSplit(copies);
    assert x in multiset(copies);
    assert x in multiset(DroppedOf(copies));
  }

  lemma {:induction false} SetAsideCopy(rows: seq<SourceRow>, x: SourceRow, s: SourceRow)
    requires x in Employment(rows, IdentityKey(x), HireTime(x))
    requires s == KeptCopy(Employment(rows, IdentityKey(x), HireTime(x))) && s != x
    requires s in Employment(rows, IdentityKey(x), HireTime(x))
    ensures CopyOf(PlanOf(rows), x, s)
  {
    hide PlanOf, KeptCopy, SayTheSame, Employment, DroppedOf;
    var key, day := IdentityKey(x), HireTime(x);
    var copies := Employment(rows, key, day);
    EmploymentMember(rows, key, day, x);
    EmploymentMember(rows, key, day, s);
    DroppedMember(copies, x);
    if !SayTheSame(s, x) {
      var dropped := DroppedOf(copies);
      var i :| 0 <= i < |dropped| && dropped[i] == x;
      assert SomeDisagrees(s, dropped);
      var d := DisagreementOf(copies).value;
      assert DisagreesOver(rows, key, day, d);
      DisagreeingIff(rows, d);
      assert Mapped(dropped, RefOf)[i] == RefOf(x);
      assert RefOf(x) in d.dropped;
    }
  }

  // ---------------------------------------------------------------- what a planned person is

  /** One history, of one identity, with the latest row current. */
  ghost predicate WellPlanned(rows: seq<SourceRow>, p: PersonPlan) {
    && p.spells != [] && p.current == p.spells[|p.spells| - 1]
    && DistinctHires(p.spells) && History(p.spells)
    && (forall x :: x in p.spells ==> x in rows && IsUsable(x) && IdentityKey(x) == IdentityKey(p.current))
    && (p.serving <==> p.current.sheet == Master)
    && p.current.code == Some(p.code) && SplitCode(p.code).Some?
  }

  ghost predicate OnePerIdentity(people: seq<PersonPlan>) {
    forall p, q :: p in people && q in people && IdentityKey(p.current) == IdentityKey(q.current) ==> p == q
  }

  lemma {:induction false} OrderedAreRows(rows: seq<SourceRow>, key: string)
    requires GroupOf(rows, key) != []
    ensures var spells := OrderedSpells(GroupOf(rows, key));
            spells != [] && CurrentOf(GroupOf(rows, key)) == spells[|spells| - 1]
            && forall x :: x in spells ==> x in rows && IsUsable(x) && IdentityKey(x) == key
  {
    hide OrderedSpells, GroupOf, IsSpell, IsUsable;
    var group := GroupOf(rows, key);
    SomeDay(group);
    SpellsAreHistory(group);
    forall x | x in OrderedSpells(group) ensures x in rows && IsUsable(x) && IdentityKey(x) == key {
      SpellIsRow(group, x);
      GroupMember(rows, key, x);
    }
  }

  lemma {:induction false} PersonOfGroup(rows: seq<SourceRow>, key: string)
    requires GroupOf(rows, key) != [] && OutcomeOf(GroupOf(rows, key)).Planned?
    ensures WellPlanned(rows, OutcomeOf(GroupOf(rows, key)).person)
    ensures IdentityKey(OutcomeOf(GroupOf(rows, key)).person.current) == key
  {
    hide OrderedSpells, GroupOf, SplitCode, DistinctHires, History;
    var group := GroupOf(rows, key);
    OrderedAreRows(rows, key);
    SpellsAreHistory(group);
    ServingIff(group);
    assert CurrentOf(group) in OrderedSpells(group);
  }

  /** Every planned person is well planned, and no two of them are one identity. */
  lemma {:induction false} PeopleAreWellPlanned(rows: seq<SourceRow>)
    ensures forall p :: p in PlanOf(rows).people ==> WellPlanned(rows, p)
    ensures OnePerIdentity(PlanOf(rows).people)
    ensures Distinct(PlanOf(rows).people)
  {
    hide PlanOf, WellPlanned, OutcomeOf, GroupOf, Identities;
    forall p | p in PlanOf(rows).people
      ensures WellPlanned(rows, p) && IsIdentity(rows, IdentityKey(p.current))
        && OutcomeOf(GroupOf(rows, IdentityKey(p.current))) == Planned(p)
    {
      PlannedIff(rows, p);
      var key :| IsIdentity(rows, key) && OutcomeOf(GroupOf(rows, key)) == Planned(p);
      PersonOfGroup(rows, key);
    }
    PeopleOnce(rows);
  }

  lemma {:induction false} PeopleOnce(rows: seq<SourceRow>)
    ensures Distinct(PlanOf(rows).people)
  {
    hide Identities, Sort, PeopleOf;
    EveryIdentityKnown(rows);
    KeysOfMember(UsableRows(rows), IdentityKey);
    assert Distinct(Identities(rows)) by {
      IdentitiesDistinct(rows);
    }
    DistinctPeople(rows, Identities(rows));
  }

  lemma {:induction false} IdentitiesDistinct(rows: seq<SourceRow>)
    ensures Distinct(Identities(rows))
  {
    KeysOfMember(UsableRows(rows), IdentityKey);
  }

  lemma {:induction false} DistinctPeople(rows: seq<SourceRow>, keys: seq<string>)
    requires AllKnown(rows, keys) && Distinct(keys)
    ensures Distinct(PeopleOf(rows, keys))
  {
    hide GroupOf, OutcomeOf;
    if keys != [] {
      var n := |keys| - 1;
      DistinctPeople(rows, keys[..n]);
      var o := OutcomeOf(GroupOf(rows, keys[n]));
      if o.Planned? && o.person in PeopleOf(rows, keys[..n]) {
        PeopleMember(rows, keys[..n], o.person);
        var i :| 0 <= i < n && OutcomeOf(GroupOf(rows, keys[..n][i])) == Planned(o.person);
        PersonOfGroup(rows, keys[..n][i]);
        PersonOfGroup(rows, keys[n]);
      }
    }
  }
}
