/**
 * Counting the rows through the plan, and the order they are read in
 * (apps/api/src/workforce-import/plan.ts, lines 179-229 and 300-328).
 */
module WorkforceConservation {
  import opened Options
  import opened Sequences
  import opened WorkforceRows
  import opened WorkforcePlanSpec
  import opened WorkforceSpells
  import opened WorkforcePlanTheorems

  // ---------------------------------------------------------------- groups partition the rows

  /** How often `x` occurs in the groups of the given keys together. */
  function CountIn<K(==,!new)>(rows: seq<SourceRow>, key: SourceRow -> K, keys: seq<K>, x: SourceRow): nat {
    if keys == [] then 0
    else CountIn(rows, key, keys[..|keys| - 1], x) + multiset(Having(rows, key, keys[|keys| - 1]))[x]
  }

  /** Distinct groups share no row and miss none of the keyed ones. */
  lemma {:induction false} GroupsPartition<K(!new)>(
    rows: seq<SourceRow>, key: SourceRow -> K, keys: seq<K>, x: SourceRow)
    requires Distinct(keys)
    ensures CountIn(rows, key, keys, x) == if key(x) in keys then multiset(rows)[x] else 0
  {
    if keys != [] {
      var n := |keys| - 1;
      GroupsPartition(rows, key, keys[..n], x);
      HavingMultiset(rows, key, keys[n], x);
      assert keys == keys[..n] + [keys[n]];
      assert key(x) in keys[..n] ==> key(x) != keys[n];
    }
  }

  // ---------------------------------------------------------------- one person's rows

  function DroppedOn(group: seq<SourceRow>, days: seq<int>): seq<SourceRow>
    requires AllHired(group, days)
  {
    if days == [] then []
    else DroppedOn(group, days[..|days| - 1]) + DroppedOf(CopiesOn(group, days[|days| - 1]))
  }

  /** The copies set aside, of all of a person's employments. */
  function SetAside(group: seq<SourceRow>): seq<SourceRow> {
    EveryDayHasCopies(group);
    DroppedOn(group, HireDays(group))
  }

  lemma {:induction false} DaysConserve(group: seq<SourceRow>, days: seq<int>, x: SourceRow)
    requires AllHired(group, days)
    ensures multiset(SpellsOn(group, days))[x] + multiset(DroppedOn(group, days))[x] ==
            CountIn(group, HireTime, days, x)
  {
    hide DroppedOf, KeptCopy, Having;
    if days != [] {
      var n := |days| - 1;
      DaysConserve(group, days[..n], x);
      var copies := CopiesOn(group, days[n]);
      CopiesSplit(copies);
      assert SpellsOn(group, days) == SpellsOn(group, days[..n]) + [KeptCopy(copies)];
    }
  }

  /** Spells and set-aside copies are together exactly the person's rows. */
  lemma {:induction false} PersonConserves(group: seq<SourceRow>)
    ensures multiset(group) == multiset(OrderedSpells(group)) + multiset(SetAside(group))
  {
    hide HireDays, SpellsOn, DroppedOn, Sort;
    EveryDayHasCopies(group);
    SortPermutes(SpellsOf(group), SpellBefore);
    DaysDistinct(group);
    var all := multiset(SpellsOf(group)) + multiset(SetAside(group));
    forall x: SourceRow ensures multiset(group)[x] == all[x] {
      DaysConserve(group, HireDays(group), x);
      GroupsPartition(group, HireTime, HireDays(group), x);
      if x in group {
        CopiesMember(group, x);
      }
    }
  }

  // ---------------------------------------------------------------- all the rows

  function SpellsIn(people: seq<PersonPlan>): seq<SourceRow> {
    if people == [] then [] else SpellsIn(people[..|people| - 1]) + people[|people| - 1].spells
  }

  function SetAsideIn(rows: seq<SourceRow>, keys: seq<string>): seq<SourceRow> {
    if keys == [] then []
    else SetAsideIn(rows, keys[..|keys| - 1]) + SetAside(GroupOf(rows, keys[|keys| - 1]))
  }

  /** The spells of the people whose code was refused. */
  function RefusedSpells(rows: seq<SourceRow>, keys: seq<string>): seq<SourceRow>
    requires AllKnown(rows, keys)
  {
    if keys == [] then []
    else
      var n := |keys| - 1;
      var group := GroupOf(rows, keys[n]);
      RefusedSpells(rows, keys[..n]) + (if OutcomeOf(group).Refused? then OrderedSpells(group) else [])
  }

  function SpellsOfRefused(rows: seq<SourceRow>): seq<SourceRow> {
    EveryIdentityKnown(rows);
    RefusedSpells(rows, Identities(rows))
  }

  lemma {:induction false} SpellsInSnoc(people: seq<PersonPlan>, more: seq<PersonPlan>)
    requires |more| <= 1
    ensures SpellsIn(people + more) == SpellsIn(people) + (if more == [] then [] else more[0].spells)
  {
    if more == [] {
      assert people + more == people;
    } else {
      assert (people + more)[..|people|] == people;
    }
  }

  lemma {:induction false} KeysConserve(rows: seq<SourceRow>, keys: seq<string>, x: SourceRow)
    requires AllKnown(rows, keys)
    ensures multiset(SpellsIn(PeopleOf(rows, keys)))[x] + multiset(RefusedSpells(rows, keys))[x]
          + multiset(SetAsideIn(rows, keys))[x] == CountIn(UsableRows(rows), IdentityKey, keys, x)
  {
    hide OutcomeOf, OrderedSpells, SetAside, UsableRows, IdentityKey;
    if keys != [] {
      var n := |keys| - 1;
      KeysConserve(rows, keys[..n], x);
      var group := GroupOf(rows, keys[n]);
      PersonConserves(group);
      SpellsInSnoc(PeopleOf(rows, keys[..n]), PersonIn(OutcomeOf(group)));
      if OutcomeOf(group).Planned? {
        OutcomeSpells(group);
      }
    }
  }

  /** Every row, counted as often as it was read, is rejected, a spell, a spell of a refused person, or set aside. */
  lemma {:induction false} RowsAreConserved(rows: seq<SourceRow>)
    ensures multiset(rows)
         == multiset(UnusableRows(rows)) + multiset(SpellsIn(PlanOf(rows).people))
          + multiset(SpellsOfRefused(rows)) + multiset(SetAsideIn(rows, Identities(rows)))
  {
    hide Identities, PeopleOf, RefusedSpells, SetAsideIn, SpellsIn, Sort, IdentityKey, IsUsable;
    EveryIdentityKnown(rows);
    var keys := Identities(rows);
    var all := multiset(UnusableRows(rows)) + multiset(SpellsIn(PlanOf(rows).people))
      + multiset(RefusedSpells(rows, keys)) + multiset(SetAsideIn(rows, keys));
    IdentitiesDistinct(rows);
    forall x: SourceRow ensures multiset(rows)[x] == all[x] {
      KeysConserve(rows, keys, x);
      GroupsPartition(UsableRows(rows), IdentityKey, keys, x);
      HavingMultiset(rows, IsUsable, true, x);
      HavingMultiset(rows, IsUsable, false, x);
      UsableKeyKnown(rows, x);
    }
  }

  lemma {:induction false} UsableKeyKnown(rows: seq<SourceRow>, x: SourceRow)
    ensures multiset(UsableRows(rows))[x] > 0 ==> IdentityKey(x) in Identities(rows)
  {
    KeysOfMember(UsableRows(rows), IdentityKey);
    if multiset(UsableRows(rows))[x] > 0 {
      assert x in UsableRows(rows);
    }
  }

  /** A spell belongs to one person only, and is that person's once. */
  lemma {:induction false} SpellOfOnePerson(rows: seq<SourceRow>, p: PersonPlan, q: PersonPlan, x: SourceRow)
    requires p in PlanOf(rows).people && q in PlanOf(rows).people && x in p.spells && x in q.spells
    ensures p == q
  {
    hide PlanOf;
    PeopleAreWellPlanned(rows);
  }

  // ---------------------------------------------------------------- reading order

  lemma {:induction false} SameGroups(rows: seq<SourceRow>, again: seq<SourceRow>, key: string)
    requires multiset(rows) == multiset(again) && DistinctPlaces(rows)
    ensures multiset(GroupOf(rows, key)) == multiset(GroupOf(again, key))
    ensures DistinctPlaces(GroupOf(rows, key))
    ensures IsIdentity(rows, key) <==> IsIdentity(again, key)
  {
    hide Having, Identities, IdentityKey, IsUsable;
    HavingPermuted(rows, again, IsUsable, true);
    HavingPermuted(UsableRows(rows), UsableRows(again), IdentityKey, key);
    forall x | x in GroupOf(rows, key) ensures x in rows {
      GroupMember(rows, key, x);
    }
    SubPlaces(rows, GroupOf(rows, key));
    SameMembers(GroupOf(rows, key), GroupOf(again, key));
    IdentityIff(rows, key);
    IdentityIff(again, key);
  }

  lemma {:induction false} SameComings(rows: seq<SourceRow>, again: seq<SourceRow>, o: Outcome)
    requires multiset(rows) == multiset(again) && DistinctPlaces(rows)
    ensures Came(rows, o) ==> Came(again, o)
  {
    hide GroupOf, OutcomeOf, Identities, OrderedSpells;
    if Came(rows, o) {
      var key :| IsIdentity(rows, key) && OutcomeOf(GroupOf(rows, key)) == o;
      SameGroups(rows, again, key);
      SameOutcome(GroupOf(rows, key), GroupOf(again, key));
      assert IsIdentity(again, key) && OutcomeOf(GroupOf(again, key)) == o;
    }
  }

  /** The people planned are the same whatever order the rows are read in. */
  lemma {:induction false} PeopleIgnoreOrder(rows: seq<SourceRow>, again: seq<SourceRow>)
    requires multiset(rows) == multiset(again) && DistinctPlaces(rows)
    ensures multiset(PlanOf(rows).people) == multiset(PlanOf(again).people)
  {
    hide PlanOf, Came, WellPlanned;
    SameMembers(rows, again);
    assert DistinctPlaces(again);
    forall p ensures p in PlanOf(rows).people <==> p in PlanOf(again).people {
      PlannedIff(rows, p);
      PlannedIff(again, p);
      SameComings(rows, again, Planned(p));
      SameComings(again, rows, Planned(p));
    }
    PeopleAreWellPlanned(rows);
    PeopleAreWellPlanned(again);
    DistinctSameElements(PlanOf(rows).people, PlanOf(again).people);
  }

  // ---------------------------------------------------------------- the rejection list

  /** Where a rejection points: the row it is about. */
  lemma {:induction false} RejectionPoints(rows: seq<SourceRow>, r: Rejection) returns (x: SourceRow)
    requires r in PlanOf(rows).rejected
    ensures x in rows && r.at == RefOf(x)
    ensures !IsUsable(x) ==> r == RejectionOf(x)
    ensures IsUsable(x) ==> IsIdentity(rows, IdentityKey(x)) && OutcomeOf(GroupOf(rows, IdentityKey(x))) == Refused(r)
  {
    hide PlanOf, GroupOf, OutcomeOf, Identities, IsUsable, OrderedSpells;
    RejectedIff(rows, r);
    if y :| y in rows && !IsUsable(y) && RejectionOf(y) == r {
      x := y;
    } else {
      var key :| IsIdentity(rows, key) && OutcomeOf(GroupOf(rows, key)) == Refused(r);
      OrderedAreRows(rows, key);
      x := CurrentOf(GroupOf(rows, key));
      assert x in OrderedSpells(GroupOf(rows, key));
      RefusalPoints(GroupOf(rows, key));
    }
  }

  lemma {:induction false} RefusalPoints(group: seq<SourceRow>)
    requires group != [] && OutcomeOf(group).Refused?
    ensures OutcomeOf(group).rejection.at == RefOf(CurrentOf(group))
  {
  }

  lemma {:induction false} RejectedOnce(rows: seq<SourceRow>, r: Rejection, q: Rejection)
    requires DistinctPlaces(rows) && r in PlanOf(rows).rejected && q in PlanOf(rows).rejected && r.at == q.at
    ensures r == q
  {
    hide PlanOf, OutcomeOf, IsUsable, IsIdentity;
    var x := RejectionPoints(rows, r);
    var y := RejectionPoints(rows, q);
    assert x == y;
  }

  lemma {:induction false} RejectionOrderIsWeak()
    ensures StrictWeakOrder(RejectionBefore)
  {
  }

  lemma {:induction false} RejectedSorted(rows: seq<SourceRow>)
    requires DistinctPlaces(rows)
    ensures SortedBy(PlanOf(rows).rejected, RejectionBefore) && NoTies(PlanOf(rows).rejected, RejectionBefore)
  {
    hide PeopleOf, RefusalsOf, AllDisagreements, Identities, UnusableRows, RejectionOf, Sort;
    EveryIdentityKnown(rows);
    RejectionOrderIsWeak();
    SortSorts(Mapped(UnusableRows(rows), RejectionOf) + RefusalsOf(rows, Identities(rows)), RejectionBefore);
    var listed := PlanOf(rows).rejected;
    forall i, j | 0 <= i < |listed| && 0 <= j < |listed| && listed[i] != listed[j]
      ensures RejectionBefore(listed[i], listed[j]) || RejectionBefore(listed[j], listed[i])
    {
      if listed[i].at == listed[j].at {
        RejectedOnce(rows, listed[i], listed[j]);
      }
    }
  }

  lemma {:induction false} DistinctRefusals(rows: seq<SourceRow>, keys: seq<string>)
    requires AllKnown(rows, keys) && Distinct(keys)
    requires DistinctPlaces(rows)
    ensures Distinct(RefusalsOf(rows, keys))
  {
    hide GroupOf, OutcomeOf, OrderedSpells;
    if keys != [] {
      var n := |keys| - 1;
      DistinctRefusals(rows, keys[..n]);
      var o := OutcomeOf(GroupOf(rows, keys[n]));
      if o.Refused? && o.rejection in RefusalsOf(rows, keys[..n]) {
        RefusalMember(rows, keys[..n], o.rejection);
        var i :| 0 <= i < n && OutcomeOf(GroupOf(rows, keys[..n][i])) == Refused(o.rejection);
        RefusedApart(rows, keys[i], keys[n]);
      }
    }
  }

  /** Two refused people are refused over different rows. */
  lemma {:induction false} RefusedApart(rows: seq<SourceRow>, a: string, b: string)
    requires GroupOf(rows, a) != [] && GroupOf(rows, b) != [] && DistinctPlaces(rows)
    requires OutcomeOf(GroupOf(rows, a)).Refused? && OutcomeOf(GroupOf(rows, a)) == OutcomeOf(GroupOf(rows, b))
    ensures a == b
  {
    hide GroupOf, OutcomeOf, OrderedSpells, IsUsable;
    OrderedAreRows(rows, a);
    OrderedAreRows(rows, b);
    RefusalPoints(GroupOf(rows, a));
    RefusalPoints(GroupOf(rows, b));
    var x, y := CurrentOf(GroupOf(rows, a)), CurrentOf(GroupOf(rows, b));
    assert x in OrderedSpells(GroupOf(rows, a)) && y in OrderedSpells(GroupOf(rows, b));
  }

  lemma {:induction false} SameRejections(rows: seq<SourceRow>, again: seq<SourceRow>)
    requires multiset(rows) == multiset(again) && DistinctPlaces(rows)
    ensures multiset(PlanOf(rows).rejected) == multiset(PlanOf(again).rejected)
  {
    hide PeopleOf, RefusalsOf, AllDisagreements, Identities, Having, RejectionOf, Sort, IsUsable, Came;
    EveryIdentityKnown(rows);
    EveryIdentityKnown(again);
    SameMembers(rows, again);
    assert DistinctPlaces(again);
    var a, b := RefusalsOf(rows, Identities(rows)), RefusalsOf(again, Identities(again));
    forall r ensures r in a <==> r in b {
      RefusedIff(rows, r);
      RefusedIff(again, r);
      SameComings(rows, again, Refused(r));
      SameComings(again, rows, Refused(r));
    }
    IdentitiesDistinct(rows);
    IdentitiesDistinct(again);
    DistinctRefusals(rows, Identities(rows));
    DistinctRefusals(again, Identities(again));
    DistinctSameElements(a, b);
    HavingPermuted(rows, again, IsUsable, false);
    var u, v := Mapped(UnusableRows(rows), RejectionOf), Mapped(UnusableRows(again), RejectionOf);
    MappedPermuted(UnusableRows(rows), UnusableRows(again), RejectionOf);
    SortPermutes(u + a, RejectionBefore);
    SortPermutes(v + b, RejectionBefore);
  }

  /** The rejection list is the same list, in the same order. */
  lemma {:induction false} RejectedIgnoresOrder(rows: seq<SourceRow>, again: seq<SourceRow>)
    requires multiset(rows) == multiset(again) && DistinctPlaces(rows)
    ensures PlanOf(rows).rejected == PlanOf(again).rejected
  {
    hide PlanOf;
    SameMembers(rows, again);
    assert DistinctPlaces(again);
    SameRejections(rows, again);
    RejectedSorted(rows);
    RejectedSorted(again);
    SortedUnique(PlanOf(rows).rejected, PlanOf(again).rejected, RejectionBefore);
  }

  // ---------------------------------------------------------------- the disagreements

  /** The same report, naming the same rows. */
  ghost predicate SameReport(d: DisagreeingCopies, e: DisagreeingCopies) {
    d.code == e.code && d.name == e.name && d.kept == e.kept && multiset(d.dropped) == multiset(e.dropped)
  }

  lemma {:induction false} SameDropped(g: seq<SourceRow>, h: seq<SourceRow>)
    requires multiset(g) == multiset(h) && g != [] && h != [] && KeptCopy(g) == KeptCopy(h)
    ensures multiset(DroppedOf(g)) == multiset(DroppedOf(h))
  {
    hide DroppedOf, KeptCopy;
    CopiesSplit(g);
    CopiesSplit(h);
    var a, b, k := multiset(DroppedOf(g)), multiset(DroppedOf(h)), multiset{KeptCopy(g)};
    assert a == (a + k) - k && b == (b + k) - k;
  }

  lemma {:induction false} SameDisagreement(g: seq<SourceRow>, h: seq<SourceRow>, d: DisagreeingCopies)
    requires multiset(g) == multiset(h) && g != [] && h != [] && KeptCopy(g) == KeptCopy(h)
    requires DisagreementOf(g) == Some(d)
    ensures DisagreementOf(h).Some? && SameReport(d, DisagreementOf(h).value)
  {
    hide DroppedOf, KeptCopy, SayTheSame;
    var kept := KeptCopy(g);
    var a, b := DroppedOf(g), DroppedOf(h);
    SameDropped(g, h);
    SameMembers(a, b);
    var i :| 0 <= i < |a| && !SayTheSame(kept, a[i]);
    assert a[i] in b;
    var j :| 0 <= j < |b| && b[j] == a[i];
    assert SomeDisagrees(kept, b);
    MappedPermuted(a, b, RefOf);
  }

  /** The same employments are reported, each naming the same kept and set-aside rows. */
  lemma {:induction false} DisagreeingIgnoresOrder(rows: seq<SourceRow>, again: seq<SourceRow>, d: DisagreeingCopies)
    requires multiset(rows) == multiset(again) && DistinctPlaces(rows)
    requires d in PlanOf(rows).disagreeing
    ensures exists e :: e in PlanOf(again).disagreeing && SameReport(d, e)
  {
    hide PlanOf, GroupOf, KeptCopy, DisagreementOf, CopiesOn;
    DisagreeingIff(rows, d);
    var key, day :| DisagreesOver(rows, key, day, d);
    SameGroups(rows, again, key);
    SameCopy(GroupOf(rows, key), GroupOf(again, key), day);
    CopiesPermuted(GroupOf(rows, key), GroupOf(again, key), day);
    SameDisagreement(Employment(rows, key, day), Employment(again, key, day), d);
    var e := DisagreementOf(Employment(again, key, day)).value;
    assert DisagreesOver(again, key, day, e);
    DisagreeingIff(again, e);
  }

  lemma {:induction false} CopiesPermuted(g: seq<SourceRow>, h: seq<SourceRow>, day: int)
    requires multiset(g) == multiset(h)
    ensures multiset(CopiesOn(g, day)) == multiset(CopiesOn(h, day))
  {
    HavingPermuted(g, h, HireTime, day);
  }
}
