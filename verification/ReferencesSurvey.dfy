/**
 * The pre-flight over one collection (apps/api/src/org-catalog-migration/apply.ts, `surveyReferences`):
 * which declared paths name a losing department today, and whether repointing one would duplicate a
 * unique index.
 */
module ReferencesSurvey {
  import opened Options
  import opened Sequences
  import opened OrgRows
  import opened OrgPlanSpec
  import opened OrgPlanner
  import opened References
  import opened ReferencesTheorems
  import opened ReferencesMerges

  /** `countDocuments({[path]: {$in: ids}}) > 0` */
  predicate NamesAny(docs: seq<Value>, path: Path, losers: seq<Id>) {
    exists d, l :: d in docs && l in losers && Matches(d, path, l)
  }

  function NamedOf(docs: seq<Value>, losers: seq<Id>): RefPath -> bool {
    (r: RefPath) => NamesAny(docs, r.path, losers)
  }

  // ---------------------------------------------------------------- surveying once is enough

  /** Writing a winner never makes a document name anybody else. */
  lemma {:induction false} SetAddsOnlyTheWinner(v: Value, path: Path, w: Id, out: Value, p: Path, x: Id)
    requires SetAt(v, path, Ref(w)) == Some(out) && Matches(out, p, x) && x != w
    ensures Matches(v, p, x)
    decreases |path|
  {
    if path != [] {
      assert p != [];
      var k := path[0];
      if p[0] == k {
        if k in v.fields {
          var child := SetAt(v.fields[k], path[1..], Ref(w));
          assert out.fields[k] == child.value;
          SetAddsOnlyTheWinner(v.fields[k], path[1..], w, child.value, p[1..], x);
        } else {
          NestNamesOnly(path[1..], w, p[1..], x);
        }
      } else {
        assert out.fields[p[0]] == v.fields[p[0]];
      }
    }
  }

  lemma {:induction false} NestNamesOnly(path: Path, w: Id, p: Path, x: Id)
    requires x != w
    ensures !Matches(Nest(path, Ref(w)), p, x)
    decreases |path|
  {
    if path != [] && p != [] && p[0] == path[0] {
      NestNamesOnly(path[1..], w, p[1..], x);
    }
  }

  lemma {:induction false} ElementAddsOnlyTheWinner(item: Value, tail: Path, l: Id, w: Id, out: Value, p: Path, x: Id)
    requires SetInElement(item, tail, l, w) == Some(out) && x != w
    ensures Matches(out, p, x) ==> Matches(item, p, x)
    ensures out == Ref(x) ==> item == Ref(x)
    ensures out.Obj? ==> item.Obj?
  {
    if Matches(item, tail, l) {
      if Matches(out, p, x) {
        SetAddsOnlyTheWinner(item, tail, w, out, p, x);
      }
    }
  }

  lemma {:induction false} ElementsAt(items: seq<Value>, tail: Path, l: Id, w: Id, out: seq<Value>, i: nat)
    requires SetInElements(items, tail, l, w) == Some(out) && i < |items|
    ensures SetInElement(items[i], tail, l, w) == Some(out[i])
    decreases |items|
  {
    if i > 0 {
      ElementsAt(items[1..], tail, l, w, out[1..], i - 1);
    }
  }

  lemma {:induction false} PositionalAddsOnlyTheWinner(
    v: Value, arrayPath: Path, tail: Path, l: Id, w: Id, out: Value, p: Path, x: Id)
    requires SetPositional(v, arrayPath, tail, l, w) == Some(out) && Matches(out, p, x) && x != w
    ensures Matches(v, p, x)
    decreases |arrayPath|
  {
    if arrayPath == [] {
      var items, items' := v.items, out.items;
      if p == [] {
        var i :| 0 <= i < |items'| && items'[i] == Ref(x);
        ElementsAt(items, tail, l, w, items', i);
        ElementAddsOnlyTheWinner(items[i], tail, l, w, items'[i], p, x);
        assert items[i] in items;
      } else {
        var i :| 0 <= i < |items'| && items'[i].Obj? && p[0] in items'[i].fields &&
          Matches(items'[i].fields[p[0]], p[1..], x);
        ElementsAt(items, tail, l, w, items', i);
        assert Matches(items'[i], p, x);
        ElementAddsOnlyTheWinner(items[i], tail, l, w, items'[i], p, x);
        assert items[i].Obj? && p[0] in items[i].fields && Matches(items[i].fields[p[0]], p[1..], x);
      }
    } else {
      assert p != [];
      var k := arrayPath[0];
      if p[0] == k {
        var child := SetPositional(v.fields[k], arrayPath[1..], tail, l, w);
        assert out.fields[k] == child.value;
        PositionalAddsOnlyTheWinner(v.fields[k], arrayPath[1..], tail, l, w, child.value, p[1..], x);
      } else {
        assert out.fields[p[0]] == v.fields[p[0]];
      }
    }
  }

  lemma {:induction false} RepointAddsOnlyTheWinner(doc: Value, r: RefPath, l: Id, w: Id, out: Value, p: Path, x: Id)
    requires Repoint(doc, r, l, w) == Some(out) && Matches(out, p, x) && x != w
    ensures Matches(doc, p, x)
  {
    if Matches(doc, r.path, l) {
      match RepointUpdate(r)
      case None =>
      case Some(SetScalar(path)) => SetAddsOnlyTheWinner(doc, path, w, out, p, x);
      case Some(SetElements(arrayPath, tail)) => PositionalAddsOnlyTheWinner(doc, arrayPath, tail, l, w, out, p, x);
    }
  }

  /** The paths left out of the survey name no loser in this document. */
  ghost predicate SilentElsewhere(doc: Value, refs: seq<RefPath>, keep: RefPath -> bool, losers: seq<Id>) {
    forall r, l :: r in refs && !keep(r) && l in losers ==> !Matches(doc, r.path, l)
  }

  lemma {:induction false} SweepKeepsSilence(
    doc: Value, refs: seq<RefPath>, all: seq<RefPath>, keep: RefPath -> bool, losers: seq<Id>, l: Id, w: Id)
    requires SilentElsewhere(doc, all, keep, losers) && l in losers && w !in losers
    requires forall r :: r in refs ==> r in all
    ensures Sweep(doc, Having(refs, keep, true), l, w) == Sweep(doc, refs, l, w)
    ensures Sweep(doc, refs, l, w).Some? ==> SilentElsewhere(Sweep(doc, refs, l, w).value, all, keep, losers)
    decreases |refs|
  {
    if refs != [] {
      var n := |refs| - 1;
      var init, last := refs[..n], refs[n];
      assert refs == init + [last];
      SweepKeepsSilence(doc, init, all, keep, losers, l, w);
      SweepConcat(doc, init, [last], l, w);
      SweepConcat(doc, Having(init, keep, true), [last], l, w);
      var mid := Sweep(doc, init, l, w);
      if mid.Some? {
        SweepOne(mid.value, last, l, w);
        var out := Repoint(mid.value, last, l, w);
        if out.Some? {
          forall r, x | r in all && !keep(r) && x in losers ensures !Matches(out.value, r.path, x) {
            if Matches(out.value, r.path, x) {
              RepointAddsOnlyTheWinner(mid.value, last, l, w, out.value, r.path, x);
            }
          }
        }
      }
    }
  }

  function LosersOf(merges: seq<Merge>): seq<Id> {
    Mapped(merges, LoserOf())
  }

  lemma {:induction false} LosersOfMeaning(merges: seq<Merge>, id: Id)
    ensures id in LosersOf(merges) <==> LosesIn(merges, id)
  {
    if id in LosersOf(merges) {
      var i :| 0 <= i < |merges| && LosersOf(merges)[i] == id;
      assert merges[i] in merges;
    }
    if m :| m in merges && m.loserId == id {
      var i :| 0 <= i < |merges| && merges[i] == m;
      assert LosersOf(merges)[i] == id;
    }
  }

  /** One survey before the first merge serves them all: the paths it skipped stay silent throughout. */
  lemma {:induction false} SurveyedSweepsSuffice(
    doc: Value, refs: seq<RefPath>, keep: RefPath -> bool, merges: seq<Merge>, all: seq<Merge>)
    requires Unchained(all) && (forall m :: m in merges ==> m in all)
    requires SilentElsewhere(doc, refs, keep, LosersOf(all))
    ensures SweepMerges(doc, Having(refs, keep, true), merges) == SweepMerges(doc, refs, merges)
    ensures SweepMerges(doc, refs, merges).Some? ==>
              SilentElsewhere(SweepMerges(doc, refs, merges).value, refs, keep, LosersOf(all))
    decreases |merges|
  {
    if merges != [] {
      var n := |merges| - 1;
      var last := merges[n];
      SurveyedSweepsSuffice(doc, refs, keep, merges[..n], all);
      var mid := SweepMerges(doc, refs, merges[..n]);
      if mid.Some? {
        assert last in all;
        LosersOfMeaning(all, last.loserId);
        LosersOfMeaning(all, last.winnerId);
        SweepKeepsSilence(mid.value, refs, refs, keep, LosersOf(all), last.loserId, last.winnerId);
      }
    }
  }

  // ---------------------------------------------------------------- unique indexes

  /** One condition of a `partialFilterExpression`: a flag's value, or `{$type: 'objectId'}`. */
  datatype Condition = IsFlag(path: Path, on: bool) | IsId(path: Path)

  /** A declared index: whether it is unique, its key fields, and which documents it covers. */
  datatype Index = Index(unique: bool, keys: seq<Path>, filter: seq<Condition>)

  /** A collection, with its schema and indexes. */
  datatype Collection = Collection(fields: seq<Field>, indexes: seq<Index>, docs: seq<Value>)

  datatype Risk = Risk(otherKeys: seq<Path>)

  /** `uniqueIndexRisks`: the unique indexes whose key includes the path, without the path; filters are not read. */
  method UniqueIndexRisks(indexes: seq<Index>, path: Path) returns (risks: seq<Risk>)
    ensures risks == RisksOf(indexes, path)
  {
    risks := [];
    for i := 0 to |indexes|
      invariant risks == RisksOf(indexes[..i], path)
    {
      assert indexes[..i + 1][..i] == indexes[..i];
      if !indexes[i].unique || path !in indexes[i].keys {
        continue;
      }
      risks := risks + [Risk(Having(indexes[i].keys, OtherThan(path), true))];
    }
    assert indexes[..|indexes|] == indexes;
  }

  function OtherThan(path: Path): Path -> bool {
    (key: Path) => key != path
  }

  function RisksOf(indexes: seq<Index>, path: Path): seq<Risk> {
    if indexes == [] then []
    else
      var index := indexes[|indexes| - 1];
      var rest := RisksOf(indexes[..|indexes| - 1], path);
      if index.unique && path in index.keys then rest + [Risk(Having(index.keys, OtherThan(path), true))] else rest
  }

  /** What an index stores for a path: the value there, or null where there is none. */
  function ValueAt(v: Value, path: Path): Value
    decreases |path|
  {
    if path == [] then v
    else if v.Obj? && path[0] in v.fields then ValueAt(v.fields[path[0]], path[1..])
    else Null
  }

  /** `isDeleted: {$ne: true}` */
  predicate Live(doc: Value) {
    ValueAt(doc, ["isDeleted"]) != Flag(true)
  }

  /** Two documents hold the same at every key. */
  predicate SameAt(a: Value, b: Value, keys: seq<Path>) {
    forall key :: key in keys ==> ValueAt(a, key) == ValueAt(b, key)
  }

  /**
   * `shape`: `String(doc[key] ?? '')` for each other key, read off the top of the document, so a dotted
   * key always reads as absent. `show` is JavaScript's `String` on a stored value.
   */
  function ShapePart(show: Value -> string, doc: Value, key: Path): string {
    if |key| == 1 && ValueAt(doc, key) != Null then show(ValueAt(doc, key)) else ""
  }

  function Shape(show: Value -> string, doc: Value, keys: seq<Path>): seq<string> {
    seq(|keys|, i requires 0 <= i < |keys| => ShapePart(show, doc, keys[i]))
  }

  /** The projected shape never hides a collision: equal index keys have equal shapes. */
  lemma {:induction false} ShapeHidesNothing(show: Value -> string, a: Value, b: Value, keys: seq<Path>)
    requires SameAt(a, b, keys)
    ensures Shape(show, a, keys) == Shape(show, b, keys)
  {
    forall i | 0 <= i < |keys| ensures Shape(show, a, keys)[i] == Shape(show, b, keys)[i] {
      assert keys[i] in keys;
    }
  }

  predicate Loses(doc: Value, path: Path, losers: seq<Id>) {
    exists l :: l in losers && Matches(doc, path, l)
  }

  /** The losing rows whose shape a surviving row already has. */
  predicate Clashes(show: Value -> string, docs: seq<Value>, path: Path, losers: seq<Id>, risk: Risk) {
    exists a, b :: a in docs && b in docs && Live(a) && Live(b) && Loses(a, path, losers) && !Loses(b, path, losers) &&
      Shape(show, a, risk.otherKeys) == Shape(show, b, risk.otherKeys)
  }

  datatype SurveyProblem = CannotRewrite(ref: RefPath) | WouldDuplicate(ref: RefPath, risk: Risk)

  /** `surveyReferences` over one collection. */
  method SurveyReferences(
    show: Value -> string, docs: seq<Value>, refs: seq<RefPath>, indexes: seq<Index>, losers: seq<Id>
  ) returns (sweeps: seq<RefPath>, problems: seq<SurveyProblem>)
    ensures sweeps == Having(refs, NamedOf(docs, losers), true)
    ensures problems == [] <==> forall r :: r in sweeps ==>
              RepointUpdate(r).Some? && forall risk :: risk in RisksOf(indexes, r.path) ==>
                !Clashes(show, docs, r.path, losers, risk)
  {
    sweeps, problems := [], [];
    for n := 0 to |refs|
      invariant sweeps == Having(refs[..n], NamedOf(docs, losers), true)
      invariant problems == [] <==> forall r :: r in sweeps ==>
                  RepointUpdate(r).Some? && forall risk :: risk in RisksOf(indexes, r.path) ==>
                    !Clashes(show, docs, r.path, losers, risk)
    {
      var ref := refs[n];
      assert refs[..n + 1][..n] == refs[..n];
      if !NamesAny(docs, ref.path, losers) {
        continue;
      }
      sweeps := sweeps + [ref];
      if RepointUpdate(ref).None? {
        problems := problems + [CannotRewrite(ref)];
        assert ref in sweeps;
        continue;
      }
      var found := SurveyRisks(show, docs, ref, indexes, losers);
      assert ref in sweeps;
      problems := problems + found;
    }
    assert refs[..|refs|] == refs;
  }

  method SurveyRisks(show: Value -> string, docs: seq<Value>, ref: RefPath, indexes: seq<Index>, losers: seq<Id>)
    returns (problems: seq<SurveyProblem>)
    ensures problems == [] <==> forall risk :: risk in RisksOf(indexes, ref.path) ==>
              !Clashes(show, docs, ref.path, losers, risk)
  {
    problems := [];
    var risks := UniqueIndexRisks(indexes, ref.path);
    for k := 0 to |risks|
      invariant problems == [] <==> forall i :: 0 <= i < k ==> !Clashes(show, docs, ref.path, losers, risks[i])
    {
      var surviving :=
        set b | b in docs && Live(b) && !Loses(b, ref.path, losers) :: Shape(show, b, risks[k].otherKeys);
      var clashing :=
        set a | a in docs && Live(a) && Loses(a, ref.path, losers) && Shape(show, a, risks[k].otherKeys) in surviving;
      ClashingIff(show, docs, ref.path, losers, risks[k], surviving, clashing);
      if clashing != {} {
        problems := problems + [WouldDuplicate(ref, risks[k])];
      }
    }
  }

  lemma {:induction false} ClashingIff(
    show: Value -> string, docs: seq<Value>, path: Path, losers: seq<Id>, risk: Risk,
    surviving: set<seq<string>>, clashing: set<Value>)
    requires surviving == set b | b in docs && Live(b) && !Loses(b, path, losers) :: Shape(show, b, risk.otherKeys)
    requires clashing ==
             set a | a in docs && Live(a) && Loses(a, path, losers) && Shape(show, a, risk.otherKeys) in surviving
    ensures clashing != {} <==> Clashes(show, docs, path, losers, risk)
  {
    if clashing != {} {
      var a :| a in clashing;
      var b :| b in docs && Live(b) && !Loses(b, path, losers) &&
        Shape(show, b, risk.otherKeys) == Shape(show, a, risk.otherKeys);
    }
    if Clashes(show, docs, path, losers, risk) {
      var a, b :| a in docs && b in docs && Live(a) && Live(b) && Loses(a, path, losers) && !Loses(b, path, losers) &&
        Shape(show, a, risk.otherKeys) == Shape(show, b, risk.otherKeys);
      assert Shape(show, b, risk.otherKeys) in surviving;
      assert a in clashing;
    }
  }

  // ---------------------------------------------------------------- a whole collection

  function SweepsOf(c: Collection, losers: seq<Id>): seq<RefPath> {
    Having(Refs(c.fields), NamedOf(c.docs, losers), true)
  }

  /** The pre-flight finds nothing against repointing this collection. */
  ghost predicate Clear(show: Value -> string, c: Collection, losers: seq<Id>) {
    forall r :: r in SweepsOf(c, losers) ==>
      && RepointUpdate(r).Some?
      && forall risk :: risk in RisksOf(c.indexes, r.path) ==> !Clashes(show, c.docs, r.path, losers, risk)
  }

  lemma {:induction false} UnderNothing(rs: seq<RefPath>)
    ensures AllUnder([], rs) == rs
  {
    forall i | 0 <= i < |rs| ensures Under([], rs[i]) == rs[i] {
      assert [] + rs[i].path == rs[i].path;
      if rs[i].DocumentArrayRef? {
        assert [] + rs[i].arrayPath == rs[i].arrayPath;
      }
    }
  }

  method SurveyCollection(show: Value -> string, c: Collection, losers: seq<Id>)
    returns (sweeps: seq<RefPath>, clear: bool)
    ensures sweeps == SweepsOf(c, losers)
    ensures clear <==> Clear(show, c, losers)
  {
    hide Refs, Having;
    var refs := CollectRefPaths(c.fields, []);
    UnderNothing(Refs(c.fields));
    var problems;
    sweeps, problems := SurveyReferences(show, c.docs, refs, c.indexes, losers);
    clear := problems == [];
  }

  method SurveyAll(show: Value -> string, collections: seq<Collection>, losers: seq<Id>)
    returns (sweeps: seq<seq<RefPath>>, clear: bool)
    ensures |sweeps| == |collections|
    ensures forall k :: 0 <= k < |collections| ==> sweeps[k] == SweepsOf(collections[k], losers)
    ensures clear <==> forall k :: 0 <= k < |collections| ==> Clear(show, collections[k], losers)
  {
    hide SweepsOf, Clear;
    sweeps, clear := [], true;
    for k := 0 to |collections|
      invariant |sweeps| == k && forall j :: 0 <= j < k ==> sweeps[j] == SweepsOf(collections[j], losers)
      invariant clear <==> forall j :: 0 <= j < k ==> Clear(show, collections[j], losers)
    {
      var named, silent := SurveyCollection(show, collections[k], losers);
      sweeps := sweeps + [named];
      clear := clear && silent;
    }
  }

  /** The surveyed sweeps of a run rename every department slot of a conforming document. */
  lemma {:induction false} WrittenCollection(c: Collection, merges: seq<Merge>, i: nat)
    requires WellFormed(c.fields) && OneArrayDeep(c.fields) && Unchained(merges)
    requires i < |c.docs| && c.docs[i].Obj? && Conforms(c.fields, c.docs[i].fields)
    ensures SweepMerges(c.docs[i], SweepsOf(c, LosersOf(merges)), merges) ==
            Some(Obj(MapFields(c.fields, c.docs[i].fields, Renaming(merges))))
  {
    var doc, losers := c.docs[i], LosersOf(merges);
    var keep := NamedOf(c.docs, losers);
    forall r, l | r in Refs(c.fields) && !keep(r) && l in losers ensures !Matches(doc, r.path, l) {
      assert doc in c.docs;
    }
    SurveyedSweepsSuffice(doc, Refs(c.fields), keep, merges, merges);
    SweepMergesIsRenaming(c.fields, doc.fields, merges);
  }
}
