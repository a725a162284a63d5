/**
 * The sweeps as writes: `updateMany` rewrites one document after another and stops at the first one
 * that would duplicate a unique index (apps/api/src/org-catalog-migration/apply.ts, `applyMerges`).
 */
module ReferencesWrites {
  import opened Options
  import opened Sequences
  import opened OrgRows
  import opened OrgPlanSpec
  import opened OrgPlanner
  import opened References
  import opened ReferencesTheorems
  import opened ReferencesMerges
  import opened ReferencesSurvey
  import opened ReferencesIndexes

  // ---------------------------------------------------------------- writing document by document

  /** Document `i` has the key of another in some unique index. */
  predicate Duplicates(indexes: seq<Index>, docs: seq<Value>, i: nat)
    requires i < |docs|
  {
    exists k, j :: 0 <= k < |indexes| && 0 <= j < |docs| && j != i && indexes[k].unique &&
      Collide(indexes[k], docs[i], docs[j])
  }

  /** One `updateMany` after its first `n` documents; `None` once a write has failed. */
  function RepointFirst(
    indexes: seq<Index>, docs: seq<Value>, ref: RefPath, loser: Id, winner: Id, n: nat): (r: Option<seq<Value>>)
    requires n <= |docs|
    ensures r.Some? ==> |r.value| == |docs|
  {
    if n == 0 then Some(docs)
    else
      match RepointFirst(indexes, docs, ref, loser, winner, n - 1)
      case None => None
      case Some(cur) => RepointOne(indexes, cur, ref, loser, winner, n - 1)
  }

  function RepointOne(
    indexes: seq<Index>, docs: seq<Value>, ref: RefPath, loser: Id, winner: Id, i: nat): (r: Option<seq<Value>>)
    requires i < |docs|
    ensures r.Some? ==> |r.value| == |docs|
  {
    match Repoint(docs[i], ref, loser, winner)
    case None => None
    case Some(doc) =>
      var next := docs[i := doc];
      if doc != docs[i] && Duplicates(indexes, next, i) then None else Some(next)
  }

  /** Every sweep of one merge over a collection, in order. */
  function SweepAll(
    indexes: seq<Index>, docs: seq<Value>, refs: seq<RefPath>, loser: Id, winner: Id): (r: Option<seq<Value>>)
    ensures r.Some? ==> |r.value| == |docs|
  {
    if refs == [] then Some(docs)
    else
      match SweepAll(indexes, docs, refs[..|refs| - 1], loser, winner)
      case None => None
      case Some(cur) => RepointFirst(indexes, cur, refs[|refs| - 1], loser, winner, |cur|)
  }

  /** Every merge over a collection, in order. */
  function MergeAll(
    indexes: seq<Index>, docs: seq<Value>, refs: seq<RefPath>, merges: seq<Merge>): (r: Option<seq<Value>>)
    ensures r.Some? ==> |r.value| == |docs|
  {
    if merges == [] then Some(docs)
    else
      var m := merges[|merges| - 1];
      match MergeAll(indexes, docs, refs, merges[..|merges| - 1])
      case None => None
      case Some(cur) => SweepAll(indexes, cur, refs, m.loserId, m.winnerId)
  }

  /** The first `n` documents are rewritten, the others not. */
  ghost predicate RepointedTo(before: seq<Value>, cur: seq<Value>, r: RefPath, m: Merge, n: nat) {
    && |cur| == |before| && n <= |cur|
    && (forall i :: 0 <= i < n ==> Repoint(before[i], r, m.loserId, m.winnerId) == Some(cur[i]))
    && (forall i :: n <= i < |cur| ==> cur[i] == before[i])
  }

  /** One `updateMany` stops at document `at`: those before it are rewritten, the others not. */
  ghost predicate RepointStops(
    indexes: seq<Index>, before: seq<Value>, cur: seq<Value>, ref: RefPath, m: Merge, at: nat)
  {
    && RepointedTo(before, cur, ref, m, at) && at < |cur|
    && RepointOne(indexes, cur, ref, m.loserId, m.winnerId, at) == None
  }

  method RepointAll(indexes: seq<Index>, docs: seq<Value>, ref: RefPath, merge: Merge)
    returns (ok: bool, out: seq<Value>, at: nat)
    ensures ok <==> RepointFirst(indexes, docs, ref, merge.loserId, merge.winnerId, |docs|).Some?
    ensures ok ==> RepointFirst(indexes, docs, ref, merge.loserId, merge.winnerId, |docs|) == Some(out)
    ensures ok ==> RepointedTo(docs, out, ref, merge, |docs|)
    ensures !ok ==> RepointStops(indexes, docs, out, ref, merge, at)
    ensures |out| == |docs| && (Fits(indexes, docs) ==> Fits(indexes, out))
  {
    hide Fits, Duplicates;
    out, at := docs, 0;
    while at < |docs|
      invariant at <= |docs| && RepointedTo(docs, out, ref, merge, at)
      invariant RepointFirst(indexes, docs, ref, merge.loserId, merge.winnerId, at) == Some(out)
      invariant Fits(indexes, docs) ==> Fits(indexes, out)
    {
      match Repoint(out[at], ref, merge.loserId, merge.winnerId)
      case None =>
        RepointFirstFails(indexes, docs, ref, merge.loserId, merge.winnerId, at + 1);
        return false, out, at;
      case Some(doc) =>
        var next := out[at := doc];
        if doc != out[at] && Duplicates(indexes, next, at) {
          RepointFirstFails(indexes, docs, ref, merge.loserId, merge.winnerId, at + 1);
          return false, out, at;
        }
        WriteKeepsFitIf(indexes, docs, out, at, doc);
        out, at := next, at + 1;
    }
    ok := true;
  }

  lemma {:induction false} RepointFirstFails(
    indexes: seq<Index>, docs: seq<Value>, ref: RefPath, loser: Id, winner: Id, n: nat)
    requires n <= |docs| && RepointFirst(indexes, docs, ref, loser, winner, n) == None
    ensures RepointFirst(indexes, docs, ref, loser, winner, |docs|) == None
    decreases |docs| - n
  {
    if n < |docs| {
      RepointFirstFails(indexes, docs, ref, loser, winner, n + 1);
    }
  }

  ghost predicate SweptTo(before: seq<Value>, cur: seq<Value>, refs: seq<RefPath>, m: Merge) {
    |cur| == |before| && forall i :: 0 <= i < |cur| ==> Sweep(before[i], refs, m.loserId, m.winnerId) == Some(cur[i])
  }

  /** Where the sweeps of one merge over a collection stop: at which reference, and at which document. */
  datatype Stop = Stop(ref: nat, doc: nat)

  /**
   * Every document has been through the references before the one of the stop, the documents before the one of
   * the stop through that one too, and the next write fails.
   */
  ghost predicate SweepStops(
    indexes: seq<Index>, before: seq<Value>, cur: seq<Value>, refs: seq<RefPath>, m: Merge, stop: Stop)
  {
    && |cur| == |before| && stop.ref < |refs| && stop.doc < |cur|
    && (forall i :: 0 <= i < stop.doc ==>
          Sweep(before[i], refs[..stop.ref + 1], m.loserId, m.winnerId) == Some(cur[i]))
    && (forall i :: stop.doc <= i < |cur| ==>
          Sweep(before[i], refs[..stop.ref], m.loserId, m.winnerId) == Some(cur[i]))
    && RepointOne(indexes, cur, refs[stop.ref], m.loserId, m.winnerId, stop.doc) == None
  }

  /** One more `updateMany`, as far as it got. */
  lemma {:induction false} SweepFurther(
    before: seq<Value>, mid: seq<Value>, cur: seq<Value>, refs: seq<RefPath>, m: Merge, n: nat, made: nat)
    requires n < |refs| && SweptTo(before, mid, refs[..n], m) && RepointedTo(mid, cur, refs[n], m, made)
    ensures forall i :: 0 <= i < made ==> Sweep(before[i], refs[..n + 1], m.loserId, m.winnerId) == Some(cur[i])
    ensures forall i :: made <= i < |cur| ==> Sweep(before[i], refs[..n], m.loserId, m.winnerId) == Some(cur[i])
  {
    hide Repoint, Sweep;
    assert refs[..n + 1][..n] == refs[..n];
    forall i | 0 <= i < made ensures Sweep(before[i], refs[..n + 1], m.loserId, m.winnerId) == Some(cur[i]) {
      SweepSnoc(before[i], refs[..n + 1], m.loserId, m.winnerId);
    }
  }

  method SweepDocs(indexes: seq<Index>, docs: seq<Value>, refs: seq<RefPath>, merge: Merge)
    returns (ok: bool, out: seq<Value>, stop: Stop)
    ensures ok <==> SweepAll(indexes, docs, refs, merge.loserId, merge.winnerId).Some?
    ensures ok ==> SweepAll(indexes, docs, refs, merge.loserId, merge.winnerId) == Some(out)
    ensures ok ==> SweptTo(docs, out, refs, merge)
    ensures !ok ==> SweepStops(indexes, docs, out, refs, merge, stop)
    ensures |out| == |docs| && (Fits(indexes, docs) ==> Fits(indexes, out))
  {
    hide Fits, Repoint, RepointOne;
    out, stop := docs, Stop(0, 0);
    for n := 0 to |refs|
      invariant SweepAll(indexes, docs, refs[..n], merge.loserId, merge.winnerId) == Some(out)
      invariant SweptTo(docs, out, refs[..n], merge)
      invariant Fits(indexes, docs) ==> Fits(indexes, out)
    {
      var done, next, at := RepointAll(indexes, out, refs[n], merge);
      assert refs[..n + 1][..n] == refs[..n];
      SweepFurther(docs, out, next, refs, merge, n, if done then |docs| else at);
      out := next;
      if !done {
        SweepAllFails(indexes, docs, refs, merge.loserId, merge.winnerId, n + 1);
        return false, out, Stop(n, at);
      }
    }
    assert refs[..|refs|] == refs;
    ok := true;
  }

  lemma {:induction false} SweepAllFails(
    indexes: seq<Index>, docs: seq<Value>, refs: seq<RefPath>, loser: Id, winner: Id, n: nat)
    requires n <= |refs| && SweepAll(indexes, docs, refs[..n], loser, winner) == None
    ensures SweepAll(indexes, docs, refs, loser, winner) == None
    decreases |refs| - n
  {
    if n < |refs| {
      assert refs[..n + 1][..n] == refs[..n];
      SweepAllFails(indexes, docs, refs, loser, winner, n + 1);
    } else {
      assert refs[..n] == refs;
    }
  }

  lemma {:induction false} MergeAllSnoc(
    indexes: seq<Index>, docs: seq<Value>, refs: seq<RefPath>, merges: seq<Merge>, n: nat)
    requires n < |merges|
    ensures MergeAll(indexes, docs, refs, merges[..n + 1]) ==
            match MergeAll(indexes, docs, refs, merges[..n])
            case None => None
            case Some(cur) => SweepAll(indexes, cur, refs, merges[n].loserId, merges[n].winnerId)
  {
    assert merges[..n + 1][..n] == merges[..n];
  }

  lemma {:induction false} MergeAllFails(
    indexes: seq<Index>, docs: seq<Value>, refs: seq<RefPath>, merges: seq<Merge>, n: nat)
    requires n <= |merges| && MergeAll(indexes, docs, refs, merges[..n]) == None
    ensures MergeAll(indexes, docs, refs, merges) == None
    decreases |merges| - n
  {
    if n < |merges| {
      MergeAllSnoc(indexes, docs, refs, merges, n);
      MergeAllFails(indexes, docs, refs, merges, n + 1);
    } else {
      assert merges[..n] == merges;
    }
  }

  // ---------------------------------------------------------------- paths that do not meet

  /** Neither path leads through the other. */
  ghost predicate Apart(p: Path, q: Path) {
    !(p <= q) && !(q <= p)
  }

  lemma {:induction false} ApartBelow(p: Path, q: Path)
    requires p != [] && q != []
    ensures p[0] != q[0] ==> Apart(p, q)
    ensures p[0] == q[0] ==> (Apart(p, q) <==> Apart(p[1..], q[1..]))
  {
    assert p == [p[0]] + p[1..] && q == [q[0]] + q[1..];
  }

  /** The path an update writes at or below. */
  function WrittenAt(ref: RefPath): Path {
    match ref
    case ScalarRef(path) => path
    case IdArrayRef(path) => path
    case DocumentArrayRef(_, arrayPath, _) => arrayPath
  }

  /** Two references of one schema never write on each other's way. */
  lemma {:induction false} RefsApart(fields: seq<Field>, r: RefPath, path: Path)
    requires WellFormed(fields) && r in Refs(fields) && ScalarRef(path) in Refs(fields) && r != ScalarRef(path)
    ensures Apart(WrittenAt(r), path)
    decreases fields
  {
    CollectedIsExpressible(fields);
    var i := RefHasField(fields, r);
    var j := RefHasField(fields, ScalarRef(path));
    StartsWithField(fields[i], r);
    StartsWithField(fields[j], ScalarRef(path));
    ApartBelow(WrittenAt(r), path);
    if i == j {
      match fields[i].kind {
        case SubType(schema) =>
          assert WellFormedField(fields[i]);
          var a :| 0 <= a < |Refs(schema)| && Under([fields[i].name], Refs(schema)[a]) == r;
          var b :| 0 <= b < |Refs(schema)| && Under([fields[i].name], Refs(schema)[b]) == ScalarRef(path);
          var inner, rest := Refs(schema)[a], Refs(schema)[b].path;
          assert inner in Refs(schema) && Refs(schema)[b] == ScalarRef(rest) && ScalarRef(rest) in Refs(schema);
          RefsApart(schema, inner, rest);
          assert path[1..] == rest && WrittenAt(r)[1..] == WrittenAt(inner);
        case _ =>
      }
    } else {
      assert fields[i].name != fields[j].name;
    }
  }

  lemma {:induction false} StartsWithField(field: Field, r: RefPath)
    requires r in RefsOf(field)
    ensures WrittenAt(r) != [] && WrittenAt(r)[0] == field.name
    ensures r.path != [] && r.path[0] == field.name
  {
    match field.kind
    case SubType(schema) =>
      var i :| 0 <= i < |Refs(schema)| && Under([field.name], Refs(schema)[i]) == r;
    case SubArrayType(schema) =>
      var i :| 0 <= i < |Refs(schema)| && InElement([field.name], Refs(schema)[i]) == r;
    case _ =>
  }

  lemma {:induction false} UntouchedApart(fields: seq<Field>, r: RefPath, key: Path)
    requires WellFormed(fields) && r in Refs(fields) && UntouchedKey(fields, key)
    ensures Apart(WrittenAt(r), key)
    decreases |key|
  {
    var i := RefHasField(fields, r);
    StartsWithField(fields[i], r);
    ApartBelow(WrittenAt(r), key);
    if fields[i].name == key[0] {
      var schema := fields[i].kind.schema;
      assert WellFormedField(fields[i]);
      var a :| 0 <= a < |Refs(schema)| && Under([fields[i].name], Refs(schema)[a]) == r;
      var inner := Refs(schema)[a];
      assert inner in Refs(schema);
      UntouchedApart(schema, inner, key[1..]);
      assert WrittenAt(r)[1..] == WrittenAt(inner);
    }
  }

  // ---------------------------------------------------------------- one write, seen from one path

  /** No array stands on the way. */
  predicate Straight(v: Value, path: Path)
    decreases |path|
  {
    !v.Arr? && (path != [] && v.Obj? && path[0] in v.fields ==> Straight(v.fields[path[0]], path[1..]))
  }

  lemma {:induction false} StraightMatches(v: Value, path: Path, id: Id)
    requires Straight(v, path)
    ensures Matches(v, path, id) <==> ValueAt(v, path) == Ref(id)
    decreases |path|
  {
    if path != [] && v.Obj? && path[0] in v.fields {
      StraightMatches(v.fields[path[0]], path[1..], id);
    }
  }

  lemma {:induction false} ConformsIsStraight(fields: seq<Field>, doc: map<string, Value>, path: Path)
    requires WellFormed(fields) && Conforms(fields, doc) && ScalarRef(path) in Refs(fields)
    ensures Straight(Obj(doc), path)
    decreases |path|
  {
    CollectedIsExpressible(fields);
    var i := RefHasField(fields, ScalarRef(path));
    var name := fields[i].name;
    StartsWithField(fields[i], ScalarRef(path));
    if name in doc {
      assert ConformsField(fields[i], doc[name]) && WellFormedField(fields[i]);
      match fields[i].kind {
        case SubType(schema) =>
          var a :| 0 <= a < |Refs(schema)| && Under([name], Refs(schema)[a]) == ScalarRef(path);
          var rest := Refs(schema)[a].path;
          assert Refs(schema)[a] == ScalarRef(rest) && ScalarRef(rest) in Refs(schema);
          assert path == [name] + rest && path[1..] == rest;
          if doc[name].Obj? {
            ConformsIsStraight(schema, doc[name].fields, rest);
            assert doc[name] == Obj(doc[name].fields);
          }
        case ObjectIdType =>
          assert path == [name] && path[1..] == [];
        case _ =>
      }
    }
  }

  lemma {:induction false} NestApart(path: Path, w: Value, key: Path)
    requires Apart(path, key)
    ensures ValueAt(Nest(path, w), key) == Null && Straight(Nest(path, w), key)
    decreases |path|
  {
    ApartBelow(path, key);
    if path[0] == key[0] {
      NestApart(path[1..], w, key[1..]);
    }
  }

  lemma {:induction false} NestSame(path: Path, w: Id)
    ensures ValueAt(Nest(path, Ref(w)), path) == Ref(w) && Straight(Nest(path, Ref(w)), path)
    decreases |path|
  {
    if path != [] {
      NestSame(path[1..], w);
    }
  }

  lemma {:induction false} SetApart(v: Value, path: Path, w: Value, out: Value, key: Path)
    requires SetAt(v, path, w) == Some(out) && Apart(path, key)
    ensures ValueAt(out, key) == ValueAt(v, key)
    ensures Straight(v, key) ==> Straight(out, key)
    decreases |path|
  {
    ApartBelow(path, key);
    if path[0] == key[0] {
      if path[0] in v.fields {
        SetApart(v.fields[path[0]], path[1..], w, SetAt(v.fields[path[0]], path[1..], w).value, key[1..]);
      } else {
        NestApart(path[1..], w, key[1..]);
      }
    }
  }

  lemma {:induction false} SetSame(v: Value, path: Path, w: Id, out: Value)
    requires SetAt(v, path, Ref(w)) == Some(out)
    ensures ValueAt(out, path) == Ref(w) && Straight(out, path)
    decreases |path|
  {
    if path != [] {
      if path[0] in v.fields {
        SetSame(v.fields[path[0]], path[1..], w, SetAt(v.fields[path[0]], path[1..], Ref(w)).value);
      } else {
        NestSame(path[1..], w);
      }
    }
  }

  lemma {:induction false} PositionalApart(v: Value, arrayPath: Path, tail: Path, l: Id, w: Id, out: Value, key: Path)
    requires SetPositional(v, arrayPath, tail, l, w) == Some(out) && Apart(arrayPath, key)
    ensures ValueAt(out, key) == ValueAt(v, key)
    ensures Straight(v, key) ==> Straight(out, key)
    decreases |arrayPath|
  {
    ApartBelow(arrayPath, key);
    if arrayPath[0] == key[0] {
      var child := SetPositional(v.fields[key[0]], arrayPath[1..], tail, l, w);
      PositionalApart(v.fields[key[0]], arrayPath[1..], tail, l, w, child.value, key[1..]);
    }
  }

  lemma {:induction false} RepointApart(doc: Value, r: RefPath, l: Id, w: Id, out: Value, key: Path)
    requires Repoint(doc, r, l, w) == Some(out) && Apart(WrittenAt(r), key)
    ensures ValueAt(out, key) == ValueAt(doc, key)
    ensures Straight(doc, key) ==> Straight(out, key)
  {
    if Matches(doc, r.path, l) {
      match RepointUpdate(r)
      case None =>
      case Some(SetScalar(path)) => SetApart(doc, path, Ref(w), out, key);
      case Some(SetElements(arrayPath, tail)) => PositionalApart(doc, arrayPath, tail, l, w, out, key);
    }
  }

  /** What a department slot outside arrays reads after some sweeps of a merge. */
  lemma {:induction false} SweptSlot(
    fields: seq<Field>, doc: Value, refs: seq<RefPath>, m: Merge, out: Value, key: Path)
    requires WellFormed(fields) && ScalarRef(key) in Refs(fields) && forall r :: r in refs ==> r in Refs(fields)
    requires Straight(doc, key) && Sweep(doc, refs, m.loserId, m.winnerId) == Some(out)
    ensures Straight(out, key)
    ensures ValueAt(out, key) ==
            if ScalarRef(key) in refs && ValueAt(doc, key) == Ref(m.loserId) then Ref(m.winnerId) else ValueAt(doc, key)
    decreases |refs|
  {
    if refs != [] {
      var n := |refs| - 1;
      SweepSnoc(doc, refs, m.loserId, m.winnerId);
      assert refs == refs[..n] + [refs[n]];
      var mid := Sweep(doc, refs[..n], m.loserId, m.winnerId).value;
      SweptSlot(fields, doc, refs[..n], m, mid, key);
      assert refs[n] in refs;
      if refs[n] != ScalarRef(key) {
        RefsApart(fields, refs[n], key);
        RepointApart(mid, refs[n], m.loserId, m.winnerId, out, key);
      } else {
        StraightMatches(mid, key, m.loserId);
        if Matches(mid, key, m.loserId) {
          SetSame(mid, key, m.winnerId, out);
        }
      }
    }
  }

  /**
   * Where the sweeps of a merge stop, a department slot outside arrays names the winner exactly where its
   * `updateMany` reached the document, and reads what it read everywhere else.
   */
  lemma {:induction false} StoppedSlots(
    c: Collection, cur: seq<Value>, refs: seq<RefPath>, m: Merge, stop: Stop, i: nat, key: Path)
    requires Sound(c) && ScalarRef(key) in Refs(c.fields) && forall r :: r in refs ==> r in Refs(c.fields)
    requires SweepStops(c.indexes, c.docs, cur, refs, m, stop) && i < |c.docs|
    ensures var reached := refs[..if i < stop.doc then stop.ref + 1 else stop.ref];
            ValueAt(cur[i], key) ==
            if ScalarRef(key) in reached && ValueAt(c.docs[i], key) == Ref(m.loserId) then Ref(m.winnerId)
            else ValueAt(c.docs[i], key)
  {
    hide RepointOne, Sweep, Refs, WellFormed;
    var reached := refs[..if i < stop.doc then stop.ref + 1 else stop.ref];
    FollowsItself(c.fields, [], c.docs[i]);
    SweptSlot(c.fields, c.docs[i], reached, m, cur[i], key);
  }

  // ---------------------------------------------------------------- what every document on its way keeps

  /**
   * A document between two writes: its department keys rename to what the first document's do, the rest is as it was.
   */
  ghost predicate Follows(fields: seq<Field>, merges: seq<Merge>, doc: Value, cur: Value) {
    && (forall key :: ScalarRef(key) in Refs(fields) ==>
          Straight(cur, key) &&
            MapRef(ValueAt(cur, key), Renaming(merges)) == MapRef(ValueAt(doc, key), Renaming(merges)))
    && (forall key :: UntouchedKey(fields, key) ==> ValueAt(cur, key) == ValueAt(doc, key))
  }

  lemma {:induction false} FollowsItself(fields: seq<Field>, merges: seq<Merge>, doc: Value)
    requires WellFormed(fields) && doc.Obj? && Conforms(fields, doc.fields)
    ensures Follows(fields, merges, doc, doc)
  {
    assert doc == Obj(doc.fields);
    forall key | ScalarRef(key) in Refs(fields) ensures Straight(doc, key) {
      ConformsIsStraight(fields, doc.fields, key);
    }
  }

  lemma {:induction false} FollowsSlot(
    fields: seq<Field>, merges: seq<Merge>, doc: Value, cur: Value, r: RefPath, m: Merge, next: Value, key: Path)
    requires WellFormed(fields) && Unchained(merges) && m in merges && r in Refs(fields)
    requires Repoint(cur, r, m.loserId, m.winnerId) == Some(next) && ScalarRef(key) in Refs(fields)
    requires Straight(cur, key) &&
             MapRef(ValueAt(cur, key), Renaming(merges)) == MapRef(ValueAt(doc, key), Renaming(merges))
    ensures Straight(next, key) &&
            MapRef(ValueAt(next, key), Renaming(merges)) == MapRef(ValueAt(doc, key), Renaming(merges))
  {
    if r != ScalarRef(key) {
      RefsApart(fields, r, key);
      RepointApart(cur, r, m.loserId, m.winnerId, next, key);
    } else if Matches(cur, key, m.loserId) {
      StraightMatches(cur, key, m.loserId);
      SetSame(cur, key, m.winnerId, next);
      assert !LosesIn(merges, m.winnerId);
      RenamingMeets(merges, m.loserId, m.winnerId);
      RenamingMeets(merges, m.winnerId, m.winnerId);
    }
  }

  lemma {:induction false} RepointFollows(
    fields: seq<Field>, merges: seq<Merge>, doc: Value, cur: Value, r: RefPath, m: Merge, next: Value)
    requires WellFormed(fields) && Unchained(merges) && m in merges && r in Refs(fields)
    requires Follows(fields, merges, doc, cur) && Repoint(cur, r, m.loserId, m.winnerId) == Some(next)
    ensures Follows(fields, merges, doc, next)
  {
    hide WellFormed, Unchained, Repoint, MapRef, Straight;
    forall key | ScalarRef(key) in Refs(fields)
      ensures Straight(next, key)
      ensures MapRef(ValueAt(next, key), Renaming(merges)) == MapRef(ValueAt(doc, key), Renaming(merges))
    {
      FollowsSlot(fields, merges, doc, cur, r, m, next, key);
    }
    forall key | UntouchedKey(fields, key) ensures ValueAt(next, key) == ValueAt(doc, key) {
      UntouchedApart(fields, r, key);
      RepointApart(cur, r, m.loserId, m.winnerId, next, key);
    }
  }

  /** A collision on the way is a collision at the end. */
  lemma {:induction false} CollisionStays(
    c: Collection, merges: seq<Merge>, index: Index, i: nat, j: nat, a: Value, b: Value)
    requires Sound(c) && Ordinary(c.fields, index) && i < |c.docs| && j < |c.docs|
    requires Follows(c.fields, merges, c.docs[i], a) && Follows(c.fields, merges, c.docs[j], b) && Collide(index, a, b)
    ensures Collide(index, Renamed(c.fields, c.docs, merges)[i], Renamed(c.fields, c.docs, merges)[j])
  {
    var out := Renamed(c.fields, c.docs, merges);
    assert Covers(index, c.docs[i]) && Covers(index, c.docs[j]);
    RenamedCovers(c, index, merges, i);
    RenamedCovers(c, index, merges, j);
    forall key | key in index.keys ensures ValueAt(out[i], key) == ValueAt(out[j], key) {
      if UntouchedKey(c.fields, key) {
        RenamedUntouched(c, merges, i, key);
        RenamedUntouched(c, merges, j, key);
      } else {
        RenamedScalar(c, merges, i, key);
        RenamedScalar(c, merges, j, key);
      }
    }
  }

  /** The documents of a collection somewhere between the first write and the last. */
  ghost predicate Underway(c: Collection, merges: seq<Merge>, cur: seq<Value>) {
    && |cur| == |c.docs| && Fits(c.indexes, cur)
    && forall i :: 0 <= i < |cur| ==> Follows(c.fields, merges, c.docs[i], cur[i])
  }

  ghost predicate Doomed(c: Collection, merges: seq<Merge>) {
    !Fits(c.indexes, Renamed(c.fields, c.docs, merges))
  }

  lemma {:induction false} DuplicateDooms(c: Collection, merges: seq<Merge>, cur: seq<Value>, i: nat)
    requires Sound(c) && |cur| == |c.docs| && i < |cur| && Duplicates(c.indexes, cur, i)
    requires forall j :: 0 <= j < |cur| ==> Follows(c.fields, merges, c.docs[j], cur[j])
    ensures Doomed(c, merges)
  {
    hide Follows, Covers, SameAt, Ordinary;
    var k, j :| 0 <= k < |c.indexes| && 0 <= j < |cur| && j != i && c.indexes[k].unique &&
      Collide(c.indexes[k], cur[i], cur[j]);
    var out := Renamed(c.fields, c.docs, merges);
    CollisionStays(c, merges, c.indexes[k], i, j, cur[i], cur[j]);
    CollideSymmetric(c.indexes[k], cur[i], cur[j]);
    CollisionStays(c, merges, c.indexes[k], j, i, cur[j], cur[i]);
    assert !IndexHolds(c.indexes[k], out);
  }

  lemma {:induction false} CollideSymmetric(index: Index, a: Value, b: Value)
    requires Collide(index, a, b)
    ensures Collide(index, b, a)
  {
    forall key | key in index.keys ensures ValueAt(b, key) == ValueAt(a, key) {
    }
  }

  lemma {:induction false} WriteKeepsFit(indexes: seq<Index>, docs: seq<Value>, i: nat, doc: Value)
    requires Fits(indexes, docs) && i < |docs|
    requires doc == docs[i] || !Duplicates(indexes, docs[i := doc], i)
    ensures Fits(indexes, docs[i := doc])
  {
    hide Collide;
    var next := docs[i := doc];
    if doc == docs[i] {
      assert next == docs;
    } else {
      forall k, a, b | 0 <= k < |indexes| && indexes[k].unique && 0 <= a < b < |next|
        ensures !Collide(indexes[k], next[a], next[b])
      {
        if Collide(indexes[k], next[a], next[b]) {
          CollideSymmetric(indexes[k], next[a], next[b]);
        }
      }
    }
  }

  lemma {:induction false} WriteKeepsFitIf(indexes: seq<Index>, start: seq<Value>, docs: seq<Value>, i: nat, doc: Value)
    requires i < |docs| && (doc == docs[i] || !Duplicates(indexes, docs[i := doc], i))
    requires Fits(indexes, start) ==> Fits(indexes, docs)
    ensures Fits(indexes, start) ==> Fits(indexes, docs[i := doc])
  {
    if Fits(indexes, start) {
      WriteKeepsFit(indexes, docs, i, doc);
    }
  }

  // ---------------------------------------------------------------- a run either ends renamed or could not end well

  ghost predicate SomeRepointFails(docs: seq<Value>, r: RefPath, m: Merge) {
    exists i :: 0 <= i < |docs| && Repoint(docs[i], r, m.loserId, m.winnerId) == None
  }

  lemma {:induction false} RepointOneRuns(
    c: Collection, merges: seq<Merge>, r: RefPath, m: Merge, cur: seq<Value>, i: nat)
    requires Sound(c) && Unchained(merges) && m in merges && r in Refs(c.fields)
    requires Underway(c, merges, cur) && i < |cur| && Repoint(cur[i], r, m.loserId, m.winnerId).Some?
    ensures var next := cur[i := Repoint(cur[i], r, m.loserId, m.winnerId).value];
            match RepointOne(c.indexes, cur, r, m.loserId, m.winnerId, i)
            case Some(out) => out == next && Underway(c, merges, next)
            case None => Doomed(c, merges)
  {
    hide Follows, Fits, Duplicates, Doomed, Refs, Repoint;
    var doc := Repoint(cur[i], r, m.loserId, m.winnerId).value;
    var next := cur[i := doc];
    RepointFollows(c.fields, merges, c.docs[i], cur[i], r, m, doc);
    if doc != cur[i] && Duplicates(c.indexes, next, i) {
      DuplicateDooms(c, merges, next, i);
    } else {
      WriteKeepsFit(c.indexes, cur, i, doc);
    }
  }

  lemma {:induction false} RepointFirstRuns(
    c: Collection, merges: seq<Merge>, r: RefPath, m: Merge, before: seq<Value>, n: nat)
    requires Sound(c) && Unchained(merges) && m in merges && r in Refs(c.fields)
    requires Underway(c, merges, before) && n <= |before|
    ensures match RepointFirst(c.indexes, before, r, m.loserId, m.winnerId, n)
            case Some(cur) => Underway(c, merges, cur) && RepointedTo(before, cur, r, m, n)
            case None => Doomed(c, merges) || SomeRepointFails(before, r, m)
  {
    hide Sound, Unchained, Refs, Underway, Doomed, Repoint;
    if n > 0 {
      RepointFirstRuns(c, merges, r, m, before, n - 1);
      var step := RepointFirst(c.indexes, before, r, m.loserId, m.winnerId, n - 1);
      if step.Some? {
        var cur := step.value;
        assert cur[n - 1] == before[n - 1];
        if Repoint(cur[n - 1], r, m.loserId, m.winnerId).Some? {
          RepointOneRuns(c, merges, r, m, cur, n - 1);
        } else {
          assert SomeRepointFails(before, r, m);
        }
      }
    }
  }

  lemma {:induction false} SweepSnoc(doc: Value, refs: seq<RefPath>, loser: Id, winner: Id)
    requires refs != []
    ensures Sweep(doc, refs, loser, winner) ==
            match Sweep(doc, refs[..|refs| - 1], loser, winner)
            case Some(next) => Repoint(next, refs[|refs| - 1], loser, winner)
            case None => None
  {
    var n := |refs| - 1;
    assert refs == refs[..n] + [refs[n]];
    SweepConcat(doc, refs[..n], [refs[n]], loser, winner);
    var mid := Sweep(doc, refs[..n], loser, winner);
    if mid.Some? {
      SweepOne(mid.value, refs[n], loser, winner);
    }
  }

  ghost predicate SomeSweepFails(docs: seq<Value>, refs: seq<RefPath>, m: Merge) {
    exists i :: 0 <= i < |docs| && Sweep(docs[i], refs, m.loserId, m.winnerId) == None
  }

  lemma {:induction false} SweepAllRuns(
    c: Collection, merges: seq<Merge>, refs: seq<RefPath>, m: Merge, before: seq<Value>)
    requires Sound(c) && Unchained(merges) && m in merges && forall r :: r in refs ==> r in Refs(c.fields)
    requires Underway(c, merges, before)
    ensures match SweepAll(c.indexes, before, refs, m.loserId, m.winnerId)
            case Some(cur) => Underway(c, merges, cur) && SweptTo(before, cur, refs, m)
            case None => Doomed(c, merges) || SomeSweepFails(before, refs, m)
    decreases |refs|
  {
    hide Sound, Unchained, Refs, Underway, Doomed, Repoint, RepointFirst;
    if refs != [] {
      var n := |refs| - 1;
      SweepAllRuns(c, merges, refs[..n], m, before);
      forall i | 0 <= i < |before|
        ensures Sweep(before[i], refs, m.loserId, m.winnerId) ==
                match Sweep(before[i], refs[..n], m.loserId, m.winnerId)
                case Some(next) => Repoint(next, refs[n], m.loserId, m.winnerId)
                case None => None
      {
        SweepSnoc(before[i], refs, m.loserId, m.winnerId);
      }
      var mid := SweepAll(c.indexes, before, refs[..n], m.loserId, m.winnerId);
      if mid.Some? {
        RepointFirstRuns(c, merges, refs[n], m, mid.value, |mid.value|);
      }
    }
  }

  ghost predicate MergedTo(docs: seq<Value>, cur: seq<Value>, refs: seq<RefPath>, merges: seq<Merge>) {
    |cur| == |docs| && forall i :: 0 <= i < |cur| ==> SweepMerges(docs[i], refs, merges) == Some(cur[i])
  }

  ghost predicate SomeMergeFails(docs: seq<Value>, refs: seq<RefPath>, merges: seq<Merge>) {
    exists i :: 0 <= i < |docs| && SweepMerges(docs[i], refs, merges) == None
  }

  lemma {:induction false} MergeAllRuns(c: Collection, all: seq<Merge>, refs: seq<RefPath>, merges: seq<Merge>)
    requires Sound(c) && Unchained(all) && Underway(c, all, c.docs)
    requires (forall m :: m in merges ==> m in all) && forall r :: r in refs ==> r in Refs(c.fields)
    ensures match MergeAll(c.indexes, c.docs, refs, merges)
            case Some(cur) => Underway(c, all, cur) && MergedTo(c.docs, cur, refs, merges)
            case None => Doomed(c, all) || SomeMergeFails(c.docs, refs, merges)
    decreases |merges|
  {
    hide Sound, Unchained, Refs, Underway, Doomed, Sweep, SweepAll;
    if merges != [] {
      var n := |merges| - 1;
      MergeAllRuns(c, all, refs, merges[..n]);
      var mid := MergeAll(c.indexes, c.docs, refs, merges[..n]);
      if mid.Some? {
        assert merges[n] in merges;
        SweepAllRuns(c, all, refs, merges[n], mid.value);
      }
    }
  }

  /**
   * Writing every merge over a sound collection, document by document, ends with every declared slot
   * renamed, or breaks off, and it breaks off exactly when the renamed collection would break a unique
   * index: no order of the writes loses a run that could have ended well, and none gets past a duplicate.
   */
  lemma {:induction false} WritesRename(c: Collection, merges: seq<Merge>)
    requires Sound(c) && Fits(c.indexes, c.docs) && Unchained(merges)
    ensures var out := Renamed(c.fields, c.docs, merges);
            MergeAll(c.indexes, c.docs, SweepsOf(c, LosersOf(merges)), merges) ==
            if Fits(c.indexes, out) then Some(out) else None
  {
    hide MergeAll, Follows, Fits, Conforms, OneArrayDeep;
    var refs, out := SweepsOf(c, LosersOf(merges)), Renamed(c.fields, c.docs, merges);
    forall i | 0 <= i < |c.docs|
      ensures Follows(c.fields, merges, c.docs[i], c.docs[i])
      ensures SweepMerges(c.docs[i], refs, merges) == Some(out[i])
    {
      FollowsItself(c.fields, merges, c.docs[i]);
      WrittenCollection(c, merges, i);
    }
    HavingMember(Refs(c.fields), NamedOf(c.docs, LosersOf(merges)), true);
    MergeAllRuns(c, merges, refs, merges);
    var run := MergeAll(c.indexes, c.docs, refs, merges);
    if run.Some? {
      assert run.value == out;
    }
  }
}
