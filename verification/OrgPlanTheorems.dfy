/**
 * What a plan means: exactly when the planner accepts, how its entries divide the rows, and why the
 * answer does not depend on the order the rows were read in.
 */
module OrgPlanTheorems {
  import opened Options
  import opened Sequences
  import opened OrgRows
  import opened OrgPlanSpec
  import opened OrgPlanner

  // ---------------------------------------------------------------- merges

  lemma {:induction false} ByCodeMeaning(departments: seq<UnitRow>)
    ensures forall c :: c in ByCode(departments) ==>
              ByCode(departments)[c] in departments && ByCode(departments)[c].code == c
    ensures forall r :: r in departments ==> r.code in ByCode(departments)
  {
    if departments != [] {
      var n := |departments| - 1;
      ByCodeMeaning(departments[..n]);
      assert departments == departments[..n] + [departments[n]];
    }
  }

  /** What the planner guarantees of every merge it accepts, whatever else it refused. */
  ghost predicate SoundMerges(departments: seq<UnitRow>, requests: seq<MergeRequest>, merges: seq<Merge>) {
    && (forall i, j :: 0 <= i < j < |merges| ==> merges[i].loserId != merges[j].loserId)
    && (forall m, m' :: m in merges && m' in merges ==> m.winnerId != m'.loserId)
    && (forall m :: m in merges ==> SoundMerge(departments, requests, m))
  }

  ghost predicate SoundMerge(departments: seq<UnitRow>, requests: seq<MergeRequest>, m: Merge) {
    && MergeRequest(m.loserCode, m.winnerCode) in requests
    && !NamedAsLoser(requests, m.winnerCode)
    && (exists r :: r in departments && r.id == m.loserId && r.code == m.loserCode && r.branchId == m.branchId)
    && (exists r :: r in departments && r.id == m.winnerId && r.code == m.winnerCode && r.branchId == m.branchId)
    && m.loserId != m.winnerId
  }

  lemma {:induction false} JudgedSound(
    loc: Locale, departments: seq<UnitRow>, sections: seq<UnitRow>, requests: seq<MergeRequest>,
    accepted: seq<Merge>, request: MergeRequest)
    requires request in requests
    requires Judge(loc, departments, sections, requests, accepted, request).Accepted?
    ensures var m := Judge(loc, departments, sections, requests, accepted, request).merge;
            && SoundMerge(departments, requests, m)
            && !LosesIn(accepted, m.loserId)
            && MergeRequest(m.loserCode, m.winnerCode) == request
  {
    ByCodeMeaning(departments);
    var loser, winner := ByCode(departments)[request.loserCode], ByCode(departments)[request.winnerCode];
    assert loser in departments && winner in departments;
    assert request == MergeRequest(loser.code, winner.code);
  }

  lemma {:induction false} MergesAreSound(
    loc: Locale, departments: seq<UnitRow>, sections: seq<UnitRow>, requests: seq<MergeRequest>, n: nat)
    requires UniqueIds(departments) && n <= |requests|
    ensures SoundMerges(departments, requests, MergesUpTo(loc, departments, sections, requests, n).merges)
  {
    if n > 0 {
      MergesAreSound(loc, departments, sections, requests, n - 1);
      var before := MergesUpTo(loc, departments, sections, requests, n - 1).merges;
      var verdict := Judge(loc, departments, sections, requests, before, requests[n - 1]);
      if verdict.Accepted? {
        var merge := verdict.merge;
        JudgedSound(loc, departments, sections, requests, before, requests[n - 1]);
        var after := before + [merge];
        forall i | 0 <= i < |before| ensures before[i].loserId != merge.loserId {
          assert before[i] in before;
        }
        forall m, m' | m in after && m' in after ensures m.winnerId != m'.loserId {
          WinnerIsNotLoser(departments, requests, m, m');
        }
      }
    }
  }

  lemma {:induction false} WinnerIsNotLoser(departments: seq<UnitRow>, requests: seq<MergeRequest>, m: Merge, m': Merge)
    requires UniqueIds(departments)
    requires SoundMerge(departments, requests, m) && SoundMerge(departments, requests, m')
    ensures m.winnerId != m'.loserId
  {
  }

  // ---------------------------------------------------------------- when is there no problem?

  /** A request a human may make: every clause is checkable on the rows before planning. */
  ghost predicate SensibleRequest(
    loc: Locale, departments: seq<UnitRow>, sections: seq<UnitRow>, requests: seq<MergeRequest>, q: MergeRequest)
  {
    && !NamedAsLoser(requests, q.winnerCode)
    && exists loser, winner ::
         && loser in departments && loser.code == q.loserCode
         && winner in departments && winner.code == q.winnerCode
         && loser.branchId == winner.branchId
         && SectionsApart(loc, sections, loser.id, winner.id)
  }

  /** No section of one department folds like a section of the other. */
  ghost predicate SectionsApart(loc: Locale, sections: seq<UnitRow>, loserId: Id, winnerId: Id) {
    forall s, t |
      && s in sections && s.departmentId == Some(loserId)
      && t in sections && t.departmentId == Some(winnerId) ::
      FoldUnitName(loc, s.name) != FoldUnitName(loc, t.name)
  }

  lemma {:induction false} NoClashMeaning(
    loc: Locale, request: MergeRequest, moving: seq<UnitRow>, staying: set<string>)
    ensures SectionClashes(loc, request, moving, staying) == [] <==>
            forall s :: s in moving ==> FoldUnitName(loc, s.name) !in staying
  {
    if moving != [] {
      var n := |moving| - 1;
      NoClashMeaning(loc, request, moving[..n], staying);
      assert moving == moving[..n] + [moving[n]];
    }
  }

  lemma {:induction false} NoClashIff(
    loc: Locale, sections: seq<UnitRow>, request: MergeRequest, loserId: Id, winnerId: Id)
    ensures var moving := Having(sections, DepartmentOf(), Some(loserId));
            var staying := FoldsOf(loc, Having(sections, DepartmentOf(), Some(winnerId)));
            SectionClashes(loc, request, moving, staying) == [] <==> SectionsApart(loc, sections, loserId, winnerId)
  {
    var moving := Having(sections, DepartmentOf(), Some(loserId));
    var stays := Having(sections, DepartmentOf(), Some(winnerId));
    HavingMember(sections, DepartmentOf(), Some(loserId));
    HavingMember(sections, DepartmentOf(), Some(winnerId));
    assert forall s :: s in moving <==> s in sections && DepartmentOf()(s) == Some(loserId);
    assert forall t :: t in stays <==> t in sections && DepartmentOf()(t) == Some(winnerId);
    NoClashMeaning(loc, request, moving, FoldsOf(loc, stays));
    if forall s :: s in moving ==> FoldUnitName(loc, s.name) !in FoldsOf(loc, stays) {
      forall s, t |
        && s in sections && s.departmentId == Some(loserId)
        && t in sections && t.departmentId == Some(winnerId)
        ensures FoldUnitName(loc, s.name) != FoldUnitName(loc, t.name)
      {
        assert t in stays && FoldUnitName(loc, t.name) in FoldsOf(loc, stays);
      }
    }
  }

  /** The row a code names; with `ux_code` there is only one. */
  lemma {:induction false} RowOfCode(departments: seq<UnitRow>, code: string)
    requires UniqueCodes(departments)
    ensures code in ByCode(departments) <==> exists r :: r in departments && r.code == code
    ensures forall r :: r in departments && r.code == code ==>
              code in ByCode(departments) && ByCode(departments)[code] == r
  {
    ByCodeMeaning(departments);
  }

  /** Whether a request repeats a merge accepted before it. */
  ghost predicate Repeats(departments: seq<UnitRow>, accepted: seq<Merge>, q: MergeRequest) {
    exists loser :: loser in departments && loser.code == q.loserCode && LosesIn(accepted, loser.id)
  }

  /** A request is accepted without complaint exactly when it is sensible and not a repeat. */
  lemma {:induction false} JudgedQuietlyIff(
    loc: Locale, departments: seq<UnitRow>, sections: seq<UnitRow>, requests: seq<MergeRequest>,
    accepted: seq<Merge>, q: MergeRequest)
    requires UniqueIds(departments) && UniqueCodes(departments) && q in requests
    ensures var verdict := Judge(loc, departments, sections, requests, accepted, q);
            verdict.Accepted? && verdict.clashes == [] <==>
            SensibleRequest(loc, departments, sections, requests, q) && !Repeats(departments, accepted, q)
  {
    var byCode := ByCode(departments);
    var verdict := Judge(loc, departments, sections, requests, accepted, q);
    RowOfCode(departments, q.loserCode);
    RowOfCode(departments, q.winnerCode);
    if verdict.Accepted? && verdict.clashes == [] {
      var loser, winner := byCode[q.loserCode], byCode[q.winnerCode];
      NoClashIff(loc, sections, q, loser.id, winner.id);
      assert loser in departments && winner in departments;
    }
    if SensibleRequest(loc, departments, sections, requests, q) && !Repeats(departments, accepted, q) {
      var loser, winner :|
        && loser in departments && loser.code == q.loserCode
        && winner in departments && winner.code == q.winnerCode
        && loser.branchId == winner.branchId
        && SectionsApart(loc, sections, loser.id, winner.id);
      NoClashIff(loc, sections, q, loser.id, winner.id);
      assert q.winnerCode != q.loserCode;
      assert loser.id != winner.id;
    }
  }

  ghost predicate SensibleUpTo(
    loc: Locale, departments: seq<UnitRow>, sections: seq<UnitRow>, requests: seq<MergeRequest>, n: nat)
    requires n <= |requests|
  {
    n > 0 ==>
      SensibleUpTo(loc, departments, sections, requests, n - 1) && SensibleNext(loc, departments, sections, requests, n)
  }

  /** Request `n` is sensible and names a loser no earlier request named. */
  ghost predicate SensibleNext(
    loc: Locale, departments: seq<UnitRow>, sections: seq<UnitRow>, requests: seq<MergeRequest>, n: nat)
    requires 0 < n <= |requests|
  {
    && SensibleRequest(loc, departments, sections, requests, requests[n - 1])
    && forall i :: 0 <= i < n - 1 ==> requests[i].loserCode != requests[n - 1].loserCode
  }

  /** The accepted merges answer the requests one for one. */
  ghost predicate AllAccepted(requests: seq<MergeRequest>, n: nat, merges: seq<Merge>)
    requires n <= |requests|
  {
    && |merges| == n
    && forall i :: 0 <= i < n ==> MergeRequest(merges[i].loserCode, merges[i].winnerCode) == requests[i]
  }

  /** The last request is accepted without complaint exactly when it is sensible and not a repeat. */
  lemma {:induction false} LastQuietIff(
    loc: Locale, departments: seq<UnitRow>, sections: seq<UnitRow>, requests: seq<MergeRequest>, n: nat)
    requires UniqueIds(departments) && UniqueCodes(departments) && 0 < n <= |requests|
    requires MergesUpTo(loc, departments, sections, requests, n - 1).problems == []
    ensures var before := MergesUpTo(loc, departments, sections, requests, n - 1);
            var after := MergesUpTo(loc, departments, sections, requests, n);
            && (after.problems == [] <==>
                && SensibleRequest(loc, departments, sections, requests, requests[n - 1])
                && !Repeats(departments, before.merges, requests[n - 1]))
            && (after.problems == [] ==>
                && |after.merges| == |before.merges| + 1
                && after.merges[..|before.merges|] == before.merges
                && MergeRequest(after.merges[|before.merges|].loserCode,
                                after.merges[|before.merges|].winnerCode) == requests[n - 1])
  {
    var before := MergesUpTo(loc, departments, sections, requests, n - 1);
    JudgedQuietlyIff(loc, departments, sections, requests, before.merges, requests[n - 1]);
    if Judge(loc, departments, sections, requests, before.merges, requests[n - 1]).Accepted? {
      JudgedSound(loc, departments, sections, requests, before.merges, requests[n - 1]);
    }
  }

  lemma {:induction false} AcceptedOneMore(requests: seq<MergeRequest>, n: nat, before: seq<Merge>, after: seq<Merge>)
    requires 0 < n <= |requests| && AllAccepted(requests, n - 1, before)
    requires |after| == n && after[..n - 1] == before
    requires MergeRequest(after[n - 1].loserCode, after[n - 1].winnerCode) == requests[n - 1]
    ensures AllAccepted(requests, n, after)
  {
    forall i | 0 <= i < n ensures MergeRequest(after[i].loserCode, after[i].winnerCode) == requests[i] {
      if i < n - 1 {
        assert after[i] == before[i];
      }
    }
  }

  /** One more request, once every earlier one is accepted. */
  lemma {:induction false} QuietStep(
    loc: Locale, departments: seq<UnitRow>, sections: seq<UnitRow>, requests: seq<MergeRequest>, n: nat,
    before: MergeState, after: MergeState)
    requires UniqueIds(departments) && UniqueCodes(departments) && 0 < n <= |requests|
    requires before == MergesUpTo(loc, departments, sections, requests, n - 1) && before.problems == []
    requires after == MergesUpTo(loc, departments, sections, requests, n)
    requires AllAccepted(requests, n - 1, before.merges)
    ensures after.problems == [] <==> SensibleNext(loc, departments, sections, requests, n)
    ensures after.problems == [] ==> AllAccepted(requests, n, after.merges)
  {
    LastQuietIff(loc, departments, sections, requests, n);
    RepeatsWhen(loc, departments, sections, requests, n, before);
    if after.problems == [] {
      AcceptedOneMore(requests, n, before.merges, after.merges);
    }
  }

  lemma {:induction false} RepeatsWhen(
    loc: Locale, departments: seq<UnitRow>, sections: seq<UnitRow>, requests: seq<MergeRequest>, n: nat,
    before: MergeState)
    requires UniqueIds(departments) && 0 < n <= |requests|
    requires before == MergesUpTo(loc, departments, sections, requests, n - 1)
    requires AllAccepted(requests, n - 1, before.merges)
    ensures SensibleRequest(loc, departments, sections, requests, requests[n - 1]) ==>
            (Repeats(departments, before.merges, requests[n - 1]) <==>
             exists i :: 0 <= i < n - 1 && requests[i].loserCode == requests[n - 1].loserCode)
  {
    MergesAreSound(loc, departments, sections, requests, n - 1);
    RepeatsIff(departments, requests, n - 1, before.merges, requests[n - 1]);
  }

  /** The merge half of the plan is silent exactly when every request is sensible and none repeats. */
  lemma {:induction false} MergesQuietIff(
    loc: Locale, departments: seq<UnitRow>, sections: seq<UnitRow>, requests: seq<MergeRequest>, n: nat)
    requires UniqueIds(departments) && UniqueCodes(departments) && n <= |requests|
    ensures MergesUpTo(loc, departments, sections, requests, n).problems == [] <==>
            SensibleUpTo(loc, departments, sections, requests, n)
    ensures MergesUpTo(loc, departments, sections, requests, n).problems == [] ==>
            AllAccepted(requests, n, MergesUpTo(loc, departments, sections, requests, n).merges)
  {
    if n > 0 {
      MergesQuietIff(loc, departments, sections, requests, n - 1);
      var before := MergesUpTo(loc, departments, sections, requests, n - 1);
      var after := MergesUpTo(loc, departments, sections, requests, n);
      ProblemsStay(loc, departments, sections, requests, n);
      if before.problems == [] {
        QuietStep(loc, departments, sections, requests, n, before, after);
      }
    }
  }

  lemma {:induction false} ProblemsStay(
    loc: Locale, departments: seq<UnitRow>, sections: seq<UnitRow>, requests: seq<MergeRequest>, n: nat)
    requires 0 < n <= |requests|
    ensures MergesUpTo(loc, departments, sections, requests, n - 1).problems != [] ==>
            MergesUpTo(loc, departments, sections, requests, n).problems != []
  {
  }

  /** With every earlier request accepted, a loser repeats exactly when its code does. */
  lemma {:induction false} RepeatsIff(
    departments: seq<UnitRow>, requests: seq<MergeRequest>, n: nat, merges: seq<Merge>, q: MergeRequest)
    requires UniqueIds(departments) && n <= |requests|
    requires SoundMerges(departments, requests, merges) && AllAccepted(requests, n, merges)
    ensures (exists r :: r in departments && r.code == q.loserCode) ==>
            (Repeats(departments, merges, q) <==> exists i :: 0 <= i < n && requests[i].loserCode == q.loserCode)
    ensures Repeats(departments, merges, q) ==> exists i :: 0 <= i < n && requests[i].loserCode == q.loserCode
  {
    if Repeats(departments, merges, q) {
      var loser :| loser in departments && loser.code == q.loserCode && LosesIn(merges, loser.id);
      var m :| m in merges && m.loserId == loser.id;
      var i :| 0 <= i < n && merges[i] == m;
      assert SoundMerge(departments, requests, m);
      assert requests[i].loserCode == q.loserCode;
    }
    if i :| 0 <= i < n && requests[i].loserCode == q.loserCode {
      assert merges[i] in merges;
      assert SoundMerge(departments, requests, merges[i]);
      var loser :| loser in departments && loser.id == merges[i].loserId && loser.code == merges[i].loserCode;
      assert LosesIn(merges, loser.id);
    }
  }

  // ---------------------------------------------------------------- the gates

  ghost predicate SameUnit(loc: Locale, level: Level, a: UnitRow, b: UnitRow) {
    FoldUnitName(loc, a.name) == FoldUnitName(loc, b.name) && HolderOf(level)(a) == HolderOf(level)(b)
  }

  ghost predicate HoldsTwice(loc: Locale, level: Level, rows: seq<UnitRow>) {
    exists i, j :: 0 <= i < j < |rows| && SameUnit(loc, level, rows[i], rows[j])
  }

  function PairOf<T(!new), A(!new), B(!new)>(f: T -> A, g: T -> B): T -> (A, B) {
    (x: T) => (f(x), g(x))
  }

  lemma {:induction false} HavingTwice<T(!new), A(!new), B(!new)>(s: seq<T>, f: T -> A, g: T -> B, a: A, b: B)
    ensures Having(Having(s, f, a), g, b) == Having(s, PairOf(f, g), (a, b))
  {
    if s != [] {
      var n := |s| - 1;
      HavingTwice(s[..n], f, g, a, b);
      var rest := Having(s[..n], f, a);
      if f(s[n]) == a {
        assert Having(s, f, a)[..|rest|] == rest;
      }
    }
  }

  lemma {:induction false} GateGroupQuiet(level: Level, key: string, ordered: seq<UnitRow>, holders: seq<Option<Id>>)
    ensures GateGroup(level, key, ordered, holders) == [] <==>
            forall h :: h in holders ==> |Having(ordered, HolderOf(level), h)| <= 1
  {
    if holders != [] {
      var n := |holders| - 1;
      GateGroupQuiet(level, key, ordered, holders[..n]);
      assert holders == holders[..n] + [holders[n]];
      assert holders[n] in holders;
    }
  }

  lemma {:induction false} GateQuiet(loc: Locale, level: Level, rows: seq<UnitRow>, keys: seq<string>)
    ensures Gate(loc, level, rows, keys) == [] <==>
            forall k, h :: k in keys ==> |Having(rows, PairOf(FoldOf(loc), HolderOf(level)), (k, h))| <= 1
  {
    if keys != [] {
      var n := |keys| - 1;
      GateQuiet(loc, level, rows, keys[..n]);
      assert keys == keys[..n] + [keys[n]];
      var group := Having(rows, FoldOf(loc), keys[n]);
      var ordered := Sort(group, OldestFirst(loc));
      var holders := KeysOf(ordered, HolderOf(level));
      GateGroupQuiet(level, keys[n], ordered, holders);
      SortPermutes(group, OldestFirst(loc));
      forall h: Option<Id>
        ensures |Having(ordered, HolderOf(level), h)| ==
                |Having(rows, PairOf(FoldOf(loc), HolderOf(level)), (keys[n], h))|
        ensures h !in holders ==> Having(ordered, HolderOf(level), h) == []
      {
        HavingTwice(rows, FoldOf(loc), HolderOf(level), keys[n], h);
        HavingPermuted(group, ordered, HolderOf(level), h);
        assert |Having(ordered, HolderOf(level), h)| == |multiset(Having(ordered, HolderOf(level), h))|;
        assert |Having(group, HolderOf(level), h)| == |multiset(Having(group, HolderOf(level), h))|;
        AbsentKey(ordered, HolderOf(level), h);
      }
    }
  }

  lemma {:induction false} AbsentKey<T(!new), K(!new)>(s: seq<T>, key: T -> K, k: K)
    ensures k !in KeysOf(s, key) ==> Having(s, key, k) == []
  {
    KeysOfMember(s, key);
    HavingMember(s, key, k);
    if Having(s, key, k) != [] {
      assert Having(s, key, k)[0] in Having(s, key, k);
    }
  }

  /** THE GATE is silent exactly when no holder holds two rows of one folded name. */
  lemma {:induction false} GateIff(loc: Locale, level: Level, rows: seq<UnitRow>)
    ensures Gate(loc, level, rows, KeysOf(rows, FoldOf(loc))) == [] <==> !HoldsTwice(loc, level, rows)
  {
    var keys := KeysOf(rows, FoldOf(loc));
    var pair := PairOf(FoldOf(loc), HolderOf(level));
    GateQuiet(loc, level, rows, keys);
    KeysOfMember(rows, FoldOf(loc));
    if HoldsTwice(loc, level, rows) {
      var i, j :| 0 <= i < j < |rows| && SameUnit(loc, level, rows[i], rows[j]);
      var k, h := FoldOf(loc)(rows[i]), HolderOf(level)(rows[i]);
      assert rows[i] in rows && k in keys;
      assert pair(rows[i]) == (k, h) && pair(rows[j]) == (k, h);
      HavingTwo(rows, pair, (k, h));
    }
    if !HoldsTwice(loc, level, rows) {
      forall k, h | k in keys ensures |Having(rows, pair, (k, h))| <= 1 {
        HavingTwo(rows, pair, (k, h));
        assert forall i, j :: 0 <= i < j < |rows| && pair(rows[i]) == (k, h) && pair(rows[j]) == (k, h) ==>
            SameUnit(loc, level, rows[i], rows[j]);
      }
    }
  }

  // ---------------------------------------------------------------- when is the whole plan accepted?

  lemma {:induction false} OrphansQuiet(orphans: seq<UnitRow>, holders: seq<Option<Id>>)
    ensures |OrphanProblems(orphans, holders)| == |holders|
  {
    if holders != [] {
      OrphansQuiet(orphans, holders[..|holders| - 1]);
    }
  }

  lemma {:induction false} NoOrphansIff(orphans: seq<UnitRow>)
    ensures OrphanProblems(orphans, KeysOf(orphans, DepartmentOf())) == [] <==> orphans == []
  {
    OrphansQuiet(orphans, KeysOf(orphans, DepartmentOf()));
    KeysOfMember(orphans, DepartmentOf());
    if orphans != [] {
      assert orphans[0] in orphans;
    }
  }

  ghost predicate QuietUnder(loc: Locale, rows: seq<UnitRow>, keyById: map<Id, string>, parent: Option<string>) {
    var under := Having(rows, ParentOf(keyById), parent);
    Gate(loc, InDepartment, under, KeysOf(under, FoldOf(loc))) == []
  }

  lemma {:induction false} GatesStep(
    loc: Locale, rows: seq<UnitRow>, keyById: map<Id, string>, parents: seq<Option<string>>)
    requires parents != []
    ensures GatesUnder(loc, rows, keyById, parents) == [] <==>
            GatesUnder(loc, rows, keyById, parents[..|parents| - 1]) == [] &&
            QuietUnder(loc, rows, keyById, parents[|parents| - 1])
  {
  }

  ghost predicate AllQuiet(loc: Locale, rows: seq<UnitRow>, keyById: map<Id, string>, parents: seq<Option<string>>) {
    parents != [] ==>
      AllQuiet(loc, rows, keyById, parents[..|parents| - 1]) && QuietUnder(loc, rows, keyById, parents[|parents| - 1])
  }

  lemma {:induction false} GatesQuiet(
    loc: Locale, rows: seq<UnitRow>, keyById: map<Id, string>, parents: seq<Option<string>>)
    ensures GatesUnder(loc, rows, keyById, parents) == [] <==> AllQuiet(loc, rows, keyById, parents)
  {
    if parents != [] {
      GatesStep(loc, rows, keyById, parents);
      GatesQuiet(loc, rows, keyById, parents[..|parents| - 1]);
    }
  }

  lemma {:induction false} AllQuietAt(
    loc: Locale, rows: seq<UnitRow>, keyById: map<Id, string>, parents: seq<Option<string>>, k: nat)
    requires AllQuiet(loc, rows, keyById, parents) && k < |parents|
    ensures QuietUnder(loc, rows, keyById, parents[k])
    decreases |parents|
  {
    if k < |parents| - 1 {
      AllQuietAt(loc, rows, keyById, parents[..|parents| - 1], k);
    }
  }

  lemma {:induction false} AllQuietWhen(
    loc: Locale, rows: seq<UnitRow>, keyById: map<Id, string>, parents: seq<Option<string>>)
    requires forall k :: 0 <= k < |parents| ==> QuietUnder(loc, rows, keyById, parents[k])
    ensures AllQuiet(loc, rows, keyById, parents)
  {
    if parents != [] {
      AllQuietWhen(loc, rows, keyById, parents[..|parents| - 1]);
    }
  }

  /** Two places of a filtered list are two places of the list. */
  lemma {:induction false} HavingPlaces<T(!new), K(!new)>(s: seq<T>, key: T -> K, k: K, i: nat, j: nat)
    returns (i': nat, j': nat)
    requires i < j < |Having(s, key, k)|
    ensures i' < j' < |s| && s[i'] == Having(s, key, k)[i] && s[j'] == Having(s, key, k)[j]
  {
    var n := |s| - 1;
    var rest := Having(s[..n], key, k);
    if j < |rest| {
      i', j' := HavingPlaces(s[..n], key, k, i, j);
    } else {
      HavingMember(s[..n], key, k);
      assert rest[i] in rest;
      i' :| 0 <= i' < n && s[..n][i'] == rest[i];
      j' := n;
    }
  }

  /** Sections of one department share its parent, so gating parent by parent misses none. */
  lemma {:induction false} SectionGatesIff(loc: Locale, keyById: map<Id, string>, rows: seq<UnitRow>)
    ensures GatesUnder(loc, rows, keyById, KeysOf(rows, ParentOf(keyById))) == [] <==>
            !HoldsTwice(loc, InDepartment, rows)
  {
    var parents := KeysOf(rows, ParentOf(keyById));
    GatesQuiet(loc, rows, keyById, parents);
    if HoldsTwice(loc, InDepartment, rows) {
      var k := LoudParent(loc, keyById, rows);
      if AllQuiet(loc, rows, keyById, parents) {
        AllQuietAt(loc, rows, keyById, parents, k);
      }
    } else {
      forall k | 0 <= k < |parents| ensures QuietUnder(loc, rows, keyById, parents[k]) {
        QuietParent(loc, keyById, rows, parents[k]);
      }
      AllQuietWhen(loc, rows, keyById, parents);
    }
  }

  lemma {:induction false} LoudParent(loc: Locale, keyById: map<Id, string>, rows: seq<UnitRow>) returns (k: nat)
    requires HoldsTwice(loc, InDepartment, rows)
    ensures k < |KeysOf(rows, ParentOf(keyById))| && !QuietUnder(loc, rows, keyById, KeysOf(rows, ParentOf(keyById))[k])
  {
    var parents := KeysOf(rows, ParentOf(keyById));
    KeysOfMember(rows, ParentOf(keyById));
    var i, j :| 0 <= i < j < |rows| && SameUnit(loc, InDepartment, rows[i], rows[j]);
    var p := ParentOf(keyById)(rows[i]);
    assert rows[i] in rows && p in parents;
    TwiceInHaving(loc, rows, ParentOf(keyById), p, i, j);
    GateIff(loc, InDepartment, Having(rows, ParentOf(keyById), p));
    k :| 0 <= k < |parents| && parents[k] == p;
  }

  lemma {:induction false} QuietParent(loc: Locale, keyById: map<Id, string>, rows: seq<UnitRow>, p: Option<string>)
    requires !HoldsTwice(loc, InDepartment, rows)
    ensures QuietUnder(loc, rows, keyById, p)
  {
    var under := Having(rows, ParentOf(keyById), p);
    GateIff(loc, InDepartment, under);
    if HoldsTwice(loc, InDepartment, under) {
      var i, j :| 0 <= i < j < |under| && SameUnit(loc, InDepartment, under[i], under[j]);
      var i', j' := HavingPlaces(rows, ParentOf(keyById), p, i, j);
    }
  }

  lemma {:induction false} TwiceInHaving<K(!new)>(
    loc: Locale, rows: seq<UnitRow>, key: UnitRow -> K, k: K, i: nat, j: nat)
    requires i < j < |rows| && key(rows[i]) == k && key(rows[j]) == k
    requires SameUnit(loc, InDepartment, rows[i], rows[j])
    ensures HoldsTwice(loc, InDepartment, Having(rows, key, k))
  {
    var n := |rows| - 1;
    var init := rows[..n];
    var kept := Having(init, key, k);
    if j < n {
      TwiceInHaving(loc, init, key, k, i, j);
      var a, b :| 0 <= a < b < |kept| && SameUnit(loc, InDepartment, kept[a], kept[b]);
      assert Having(rows, key, k)[a] == kept[a] && Having(rows, key, k)[b] == kept[b];
    } else {
      HavingMember(init, key, k);
      assert init[i] in kept;
      var a :| 0 <= a < |kept| && kept[a] == init[i];
      assert Having(rows, key, k)[a] == rows[i] && Having(rows, key, k)[|kept|] == rows[j];
    }
  }

  lemma {:induction false} HavingAll<T(!new), K(!new)>(s: seq<T>, key: T -> K, k: K)
    requires forall x :: x in s ==> key(x) == k
    ensures Having(s, key, k) == s
  {
    if s != [] {
      var n := |s| - 1;
      assert s == s[..n] + [s[n]];
      HavingAll(s[..n], key, k);
    }
  }

  /** Where a section may stand when the merges are done: a live department that is not merged away. */
  ghost predicate Housed(departments: seq<UnitRow>, merges: seq<Merge>, section: UnitRow) {
    exists r :: r in departments && section.departmentId == Some(r.id) && (r.catalogId.Some? || !LosesIn(merges, r.id))
  }

  lemma {:induction false} PlacedIff(loc: Locale, departments: seq<UnitRow>, merges: seq<Merge>, section: UnitRow)
    requires UniqueIds(departments)
    ensures PlacedOf(KeyById(loc, departments, merges))(section) <==> Housed(departments, merges, section)
  {
    KeyByIdMeaning(loc, departments, merges);
    var keyById := KeyById(loc, departments, merges);
    assert PlacedOf(keyById)(section) == ParentOf(keyById)(section).Some?;
    assert ParentOf(keyById)(section).Some? <==> section.departmentId.Some? && section.departmentId.value in keyById;
  }

  /** The four conditions of an acceptable run: on the requests, and on the rows as the accepted merges leave them. */
  ghost predicate Acceptable(
    loc: Locale, departments: seq<UnitRow>, sections: seq<UnitRow>, requests: seq<MergeRequest>, merges: seq<Merge>)
  {
    && SensibleUpTo(loc, departments, sections, requests, |requests|)
    && !HoldsTwice(loc, InBranch, OpenDepartments(departments, merges))
    && (forall s :: s in OpenSections(sections, merges) ==> Housed(departments, merges, s))
    && !HoldsTwice(loc, InDepartment, OpenSections(sections, merges))
  }

  lemma {:induction false} SectionProblemsIff(
    loc: Locale, departments: seq<UnitRow>, merges: seq<Merge>, open: seq<UnitRow>)
    requires UniqueIds(departments)
    ensures var keyById := KeyById(loc, departments, merges);
            var orphans := Having(open, PlacedOf(keyById), false);
            var placed := Having(open, PlacedOf(keyById), true);
            OrphanProblems(orphans, KeysOf(orphans, DepartmentOf())) == [] &&
            GatesUnder(loc, placed, keyById, KeysOf(placed, ParentOf(keyById))) == [] <==>
            (forall s :: s in open ==> Housed(departments, merges, s)) && !HoldsTwice(loc, InDepartment, open)
  {
    var keyById := KeyById(loc, departments, merges);
    var orphans := Having(open, PlacedOf(keyById), false);
    var placed := Having(open, PlacedOf(keyById), true);
    NoOrphansIff(orphans);
    HavingMember(open, PlacedOf(keyById), false);
    SectionGatesIff(loc, keyById, placed);
    forall s: UnitRow ensures PlacedOf(keyById)(s) <==> Housed(departments, merges, s) {
      PlacedIff(loc, departments, merges, s);
    }
    if orphans == [] {
      assert forall s :: s in open ==> s !in orphans;
      HavingAll(open, PlacedOf(keyById), true);
    } else {
      assert orphans[0] in orphans;
    }
  }

  /** THE PLAN REFUSES RATHER THAN GUESSES: it is free of problems exactly when the run is acceptable. */
  lemma {:induction false} PlanAcceptsIff(
    loc: Locale, departments: seq<UnitRow>, sections: seq<UnitRow>, requests: seq<MergeRequest>)
    requires UniqueIds(departments) && UniqueCodes(departments)
    ensures var plan := PlanFor(loc, departments, sections, requests);
            plan.problems == [] <==> Acceptable(loc, departments, sections, requests, plan.merges)
  {
    var st := MergesUpTo(loc, departments, sections, requests, |requests|);
    MergesQuietIff(loc, departments, sections, requests, |requests|);
    GateIff(loc, InBranch, OpenDepartments(departments, st.merges));
    SectionProblemsIff(loc, departments, st.merges, OpenSections(sections, st.merges));
  }
}
