/**
 * How far the sweep reaches. references.ts:111 promises `null` for an id inside two arrays, so that the
 * caller refuses; the walk at lines 79-86 flattens such an id to the outer array instead, an update is
 * always built, and it fails or overwrites. The sweep is right for a schema exactly when no reference
 * sits inside two arrays.
 */
module ReferencesLimits {
  import opened Options
  import opened Sequences
  import opened OrgRows
  import opened References
  import opened ReferencesTheorems
  import opened ReferencesMerges
  import opened ReferencesIndexes

  // ---------------------------------------------------------------- paths are unique

  lemma {:induction false} PathsDistinct(fields: seq<Field>, i: nat, j: nat)
    requires WellFormed(fields) && i < j < |Refs(fields)|
    ensures Refs(fields)[i].path != Refs(fields)[j].path
    decreases fields, 0
  {
    var n := |fields| - 1;
    var init, field := fields[..n], fields[n];
    var before := Refs(init);
    assert Refs(fields) == before + RefsOf(field);
    assert forall k :: 0 <= k < n ==> init[k] == fields[k];
    if j < |before| {
      PathsDistinct(init, i, j);
    } else {
      FieldPaths(field);
      if i < |before| {
        assert before[i] in before;
        var k := RefHasField(init, before[i]);
        FieldPaths(init[k]);
        assert fields[k].name != field.name;
      } else {
        FieldPathsDistinct(field, i - |before|, j - |before|);
      }
    }
  }

  lemma {:induction false} FieldPaths(field: Field)
    ensures forall r :: r in RefsOf(field) ==> r.path != [] && r.path[0] == field.name
  {
    FieldIsExpressible(field);
  }

  lemma {:induction false} FieldPathsDistinct(field: Field, i: nat, j: nat)
    requires WellFormedField(field) && i < j < |RefsOf(field)|
    ensures RefsOf(field)[i].path != RefsOf(field)[j].path
    decreases field, 1
  {
    match field.kind
    case SubType(schema) =>
      PathsDistinct(schema, i, j);
      assert ([field.name] + Refs(schema)[i].path)[1..] == Refs(schema)[i].path;
      assert ([field.name] + Refs(schema)[j].path)[1..] == Refs(schema)[j].path;
    case SubArrayType(schema) =>
      PathsDistinct(schema, i, j);
      assert ([field.name] + Refs(schema)[i].path)[1..] == Refs(schema)[i].path;
      assert ([field.name] + Refs(schema)[j].path)[1..] == Refs(schema)[j].path;
  }

  // ---------------------------------------------------------------- documents holding one reference

  datatype Step = Key(name: string) | Elem

  /** The document that holds `leaf` at the end of one path and nothing else. */
  function Chain(steps: seq<Step>, leaf: Value): Value {
    if steps == [] then leaf
    else if steps[0].Key? then Obj(map[steps[0].name := Chain(steps[1..], leaf)])
    else Arr([Chain(steps[1..], leaf)])
  }

  function KeysIn(steps: seq<Step>): Path {
    if steps == [] then []
    else if steps[0].Key? then [steps[0].name] + KeysIn(steps[1..])
    else KeysIn(steps[1..])
  }

  /** An array holds sub-documents, never another array. */
  ghost predicate Proper(steps: seq<Step>) {
    steps != [] ==> (steps[0].Elem? ==> |steps| > 1 && steps[1].Key?) && Proper(steps[1..])
  }

  ghost predicate Leaf(leaf: Value, x: Id) {
    leaf == Ref(x) || leaf == Arr([Ref(x)])
  }

  lemma {:induction false} ChainNamesOnly(steps: seq<Step>, leaf: Value, x: Id, p: Path, id: Id)
    requires Proper(steps) && Leaf(leaf, x) && Matches(Chain(steps, leaf), p, id)
    ensures p == KeysIn(steps) && id == x
    decreases |steps|
  {
    if steps != [] {
      var rest := Chain(steps[1..], leaf);
      assert p != [];
      if steps[0].Key? {
        ChainNamesOnly(steps[1..], leaf, x, p[1..], id);
        assert p == [p[0]] + p[1..];
      } else {
        assert rest.Obj? && Matches(rest, p, id);
        ChainNamesOnly(steps[1..], leaf, x, p, id);
      }
    }
  }

  lemma {:induction false} ChainNames(steps: seq<Step>, leaf: Value, x: Id)
    requires Proper(steps) && Leaf(leaf, x)
    ensures Matches(Chain(steps, leaf), KeysIn(steps), x)
    decreases |steps|
  {
    if steps != [] {
      var rest, p := Chain(steps[1..], leaf), KeysIn(steps);
      ChainNames(steps[1..], leaf, x);
      if steps[0].Key? {
        assert p[0] == steps[0].name && p[1..] == KeysIn(steps[1..]);
      } else {
        assert rest.Obj? && p == KeysIn(steps[1..]) && p != [];
        assert Arr([rest]).items[0] == rest;
        assert p[0] in rest.fields && Matches(rest.fields[p[0]], p[1..], x);
      }
    }
  }

  // ---------------------------------------------------------------- the updates on a chain

  lemma {:induction false} SetOnChain(steps: seq<Step>, leaf: Value, w: Id)
    requires Proper(steps)
    ensures SetAt(Chain(steps, leaf), KeysIn(steps), Ref(w)) ==
            if exists k :: 0 <= k < |steps| && steps[k].Elem? then None else Some(Chain(steps, Ref(w)))
    decreases |steps|
  {
    if steps != [] {
      if steps[0].Elem? {
        assert KeysIn(steps) == [steps[1].name] + KeysIn(steps[1..][1..]);
      } else {
        SetOnChain(steps[1..], leaf, w);
        var name, rest := steps[0].name, KeysIn(steps[1..]);
        assert KeysIn(steps)[0] == name && KeysIn(steps)[1..] == rest;
        if k :| 0 <= k < |steps| && steps[k].Elem? {
          assert steps[1..][k - 1].Elem?;
        }
        assert map[name := Chain(steps[1..], leaf)][name := Chain(steps[1..], Ref(w))] ==
          map[name := Chain(steps[1..], Ref(w))];
      }
    }
  }

  lemma {:induction false} OneElement(item: Value, tail: Path, x: Id, w: Id)
    ensures SetPositional(Arr([item]), [], tail, x, w) ==
            match SetInElement(item, tail, x, w)
            case Some(v) => Some(Arr([v]))
            case None => None
  {
    assert [item][0] == item && [item][1..] == [];
    assert SetInElements([], tail, x, w) == Some([]);
    var r := SetInElement(item, tail, x, w);
    if r.Some? {
      assert [r.value] + [] == [r.value];
    }
  }

  lemma {:induction false} PositionalOnChain(pre: seq<Step>, post: seq<Step>, leaf: Value, x: Id, w: Id)
    requires (forall k :: 0 <= k < |pre| ==> pre[k].Key?) && Proper(post) && post != [] && post[0].Key? && Leaf(leaf, x)
    ensures SetPositional(Chain(pre + [Elem] + post, leaf), KeysIn(pre), KeysIn(post), x, w) ==
            if exists k :: 0 <= k < |post| && post[k].Elem? then None else Some(Chain(pre + [Elem] + post, Ref(w)))
    decreases |pre|
  {
    var steps := pre + [Elem] + post;
    if pre == [] {
      assert steps[0] == Elem && steps[1..] == post;
      var item, tail := Chain(post, leaf), KeysIn(post);
      ChainNames(post, leaf, x);
      SetOnChain(post, leaf, w);
      OneElement(item, tail, x, w);
      assert Chain(steps, leaf) == Arr([item]) && Chain(steps, Ref(w)) == Arr([Chain(post, Ref(w))]);
    } else {
      assert steps[0] == pre[0] && steps[1..] == pre[1..] + [Elem] + post;
      PositionalOnChain(pre[1..], post, leaf, x, w);
      var name := pre[0].name;
      assert KeysIn(pre)[0] == name && KeysIn(pre)[1..] == KeysIn(pre[1..]);
      assert map[name := Chain(steps[1..], leaf)][name := Chain(steps[1..], Ref(w))] ==
        map[name := Chain(steps[1..], Ref(w))];
    }
  }

  // ---------------------------------------------------------------- a conforming document for every reference

  /** What a witness for reference `r` looks like. */
  ghost predicate WitnessFor(
    fields: seq<Field>, r: RefPath, steps: seq<Step>, leaf: Value, renamed: Value, x: Id, w: Id)
  {
    && Proper(steps) && steps != [] && steps[0].Key? && KeysIn(steps) == r.path && Leaf(leaf, x)
    && renamed == (if leaf.Arr? then Arr([Ref(w)]) else Ref(w))
    && Conforms(fields, Chain(steps, leaf).fields)
    && MapFields(fields, Chain(steps, leaf).fields, Swap(x, w)) == Chain(steps, renamed).fields
    && (!r.ScalarRef? ==> leaf.Arr? || exists k :: 0 <= k < |steps| && steps[k].Elem?)
  }

  lemma {:induction false} OneField(fields: seq<Field>, i: nat, v: Value, f: Id -> Id)
    requires WellFormed(fields) && i < |fields|
    ensures ConformsField(fields[i], v) ==> Conforms(fields, map[fields[i].name := v])
    ensures MapFields(fields, map[fields[i].name := v], f) == map[fields[i].name := MapValue(fields[i], v, f)]
  {
    var doc := map[fields[i].name := v];
    MapFieldsFrame(fields, doc, f);
    MapLookup(fields, doc, f, i);
    assert forall k :: 0 <= k < |fields| && fields[k].name in doc ==> k == i;
  }

  lemma {:induction false} Witness(fields: seq<Field>, r: RefPath, x: Id, w: Id)
    returns (steps: seq<Step>, leaf: Value, renamed: Value)
    requires WellFormed(fields) && r in Refs(fields)
    ensures WitnessFor(fields, r, steps, leaf, renamed, x, w)
    decreases |r.path|
  {
    CollectedIsExpressible(fields);
    var i := RefHasField(fields, r);
    var field := fields[i];
    var name := field.name;
    match field.kind {
      case ObjectIdType =>
        steps, leaf, renamed := [Key(name)], Ref(x), Ref(w);
        LeafWitness(fields, i, r, leaf, renamed, x, w);
      case IdArrayType =>
        steps, leaf, renamed := [Key(name)], Arr([Ref(x)]), Arr([Ref(w)]);
        LeafWitness(fields, i, r, leaf, renamed, x, w);
      case SubType(schema) =>
        var k :| 0 <= k < |Refs(schema)| && Under([name], Refs(schema)[k]) == r;
        var inner := Refs(schema)[k];
        assert inner in Refs(schema) && WellFormedField(field);
        var rest;
        rest, leaf, renamed := Witness(schema, inner, x, w);
        steps := [Key(name)] + rest;
        SubWitness(fields, i, schema, inner, rest, leaf, renamed, x, w);
      case SubArrayType(schema) =>
        var k :| 0 <= k < |Refs(schema)| && InElement([name], Refs(schema)[k]) == r;
        var inner := Refs(schema)[k];
        assert inner in Refs(schema) && WellFormedField(field);
        var rest;
        rest, leaf, renamed := Witness(schema, inner, x, w);
        steps := [Key(name), Elem] + rest;
        ArrayWitness(fields, i, schema, inner, rest, leaf, renamed, x, w);
      case OtherType =>
        assert false;
    }
  }

  lemma {:induction false} LeafWitness(
    fields: seq<Field>, i: nat, r: RefPath, leaf: Value, renamed: Value, x: Id, w: Id)
    requires WellFormed(fields) && i < |fields| && r in RefsOf(fields[i])
    requires (fields[i].kind.ObjectIdType? && leaf == Ref(x) && renamed == Ref(w)) ||
             (fields[i].kind.IdArrayType? && leaf == Arr([Ref(x)]) && renamed == Arr([Ref(w)]))
    ensures WitnessFor(fields, r, [Key(fields[i].name)], leaf, renamed, x, w)
  {
    var name := fields[i].name;
    var steps := [Key(name)];
    assert steps[1..] == [] && Chain([], leaf) == leaf && Chain([], renamed) == renamed && KeysIn([]) == [];
    assert Proper(steps[1..]);
    OneField(fields, i, leaf, Swap(x, w));
    if leaf.Arr? {
      assert MapRefs([Ref(x)], Swap(x, w)) == [Ref(w)];
    }
  }

  lemma {:induction false} SubWitness(
    fields: seq<Field>, i: nat, schema: seq<Field>, inner: RefPath, rest: seq<Step>, leaf: Value, renamed: Value,
    x: Id, w: Id)
    requires WellFormed(fields) && i < |fields| && fields[i].kind == SubType(schema)
    requires WitnessFor(schema, inner, rest, leaf, renamed, x, w)
    ensures WitnessFor(fields, Under([fields[i].name], inner), [Key(fields[i].name)] + rest, leaf, renamed, x, w)
  {
    var name := fields[i].name;
    var steps := [Key(name)] + rest;
    assert steps[1..] == rest;
    var v := Chain(rest, leaf);
    OneField(fields, i, v, Swap(x, w));
    assert MapObject(schema, v, Swap(x, w)) == Obj(MapFields(schema, v.fields, Swap(x, w)));
    if k :| 0 <= k < |rest| && rest[k].Elem? {
      assert steps[k + 1].Elem?;
    }
  }

  lemma {:induction false} ArrayWitness(
    fields: seq<Field>, i: nat, schema: seq<Field>, inner: RefPath, rest: seq<Step>, leaf: Value, renamed: Value,
    x: Id, w: Id)
    requires WellFormed(fields) && i < |fields| && fields[i].kind == SubArrayType(schema)
    requires WitnessFor(schema, inner, rest, leaf, renamed, x, w)
    ensures WitnessFor(fields, InElement([fields[i].name], inner), [Key(fields[i].name), Elem] + rest, leaf, renamed,
            x, w)
  {
    var name := fields[i].name;
    var steps := [Key(name), Elem] + rest;
    assert steps[1..] == [Elem] + rest && ([Elem] + rest)[1..] == rest;
    var v, item := Chain([Elem] + rest, leaf), Chain(rest, leaf);
    assert v == Arr([item]);
    OneField(fields, i, v, Swap(x, w));
    assert MapObject(schema, item, Swap(x, w)) == Obj(MapFields(schema, item.fields, Swap(x, w)));
    assert MapObjects(schema, [item], Swap(x, w)) == [Chain(rest, renamed)];
    assert steps[1].Elem?;
  }

  // ---------------------------------------------------------------- the reference the sweep gets wrong

  /** A document on which the collected update for `r` fails or overwrites. */
  ghost predicate BadWitness(
    fields: seq<Field>, r: RefPath, pre: seq<Step>, post: seq<Step>, leaf: Value, renamed: Value, x: Id, w: Id)
  {
    && r in Refs(fields) && r.DocumentArrayRef? && r.arrayPath == KeysIn(pre) && r.tailPath == KeysIn(post)
    && (forall k :: 0 <= k < |pre| ==> pre[k].Key?) && Proper(post) && post != [] && post[0].Key?
    && (leaf.Arr? || exists k :: 0 <= k < |post| && post[k].Elem?)
    && WitnessFor(fields, r, pre + [Elem] + post, leaf, renamed, x, w)
  }

  lemma {:induction false} FindBad(fields: seq<Field>, x: Id, w: Id)
    returns (r: RefPath, pre: seq<Step>, post: seq<Step>, leaf: Value, renamed: Value)
    requires WellFormed(fields) && !OneArrayDeep(fields)
    ensures BadWitness(fields, r, pre, post, leaf, renamed, x, w)
    decreases fields
  {
    var i :| 0 <= i < |fields| && !OneArrayDeepField(fields[i]);
    var field := fields[i];
    assert WellFormedField(field);
    match field.kind {
      case SubType(schema) =>
        var inner, before;
        inner, before, post, leaf, renamed := FindBad(schema, x, w);
        r, pre := Under([field.name], inner), [Key(field.name)] + before;
        BadUnder(fields, i, schema, inner, before, post, leaf, renamed, x, w);
      case SubArrayType(schema) =>
        var inner :| inner in Refs(schema) && !inner.ScalarRef?;
        post, leaf, renamed := Witness(schema, inner, x, w);
        r, pre := InElement([field.name], inner), [Key(field.name)];
        BadInArray(fields, i, schema, inner, post, leaf, renamed, x, w);
    }
  }

  lemma {:induction false} BadUnder(
    fields: seq<Field>, i: nat, schema: seq<Field>, inner: RefPath, before: seq<Step>, post: seq<Step>,
    leaf: Value, renamed: Value, x: Id, w: Id)
    requires WellFormed(fields) && i < |fields| && fields[i].kind == SubType(schema)
    requires BadWitness(schema, inner, before, post, leaf, renamed, x, w)
    ensures BadWitness(fields, Under([fields[i].name], inner), [Key(fields[i].name)] + before, post, leaf, renamed, x,
            w)
  {
    var name := fields[i].name;
    var r, pre := Under([name], inner), [Key(name)] + before;
    RefsOfFieldIn(fields, i);
    var k :| 0 <= k < |Refs(schema)| && Refs(schema)[k] == inner;
    assert RefsOf(fields[i])[k] == r;
    SubWitness(fields, i, schema, inner, before + [Elem] + post, leaf, renamed, x, w);
    assert pre + [Elem] + post == [Key(name)] + (before + [Elem] + post);
    assert pre[1..] == before;
  }

  lemma {:induction false} BadInArray(
    fields: seq<Field>, i: nat, schema: seq<Field>, inner: RefPath, post: seq<Step>,
    leaf: Value, renamed: Value, x: Id, w: Id)
    requires WellFormed(fields) && i < |fields| && fields[i].kind == SubArrayType(schema)
    requires inner in Refs(schema) && !inner.ScalarRef? && WitnessFor(schema, inner, post, leaf, renamed, x, w)
    ensures BadWitness(fields, InElement([fields[i].name], inner), [Key(fields[i].name)], post, leaf, renamed, x, w)
  {
    var name := fields[i].name;
    var r, pre := InElement([name], inner), [Key(name)];
    RefsOfFieldIn(fields, i);
    var k :| 0 <= k < |Refs(schema)| && Refs(schema)[k] == inner;
    assert RefsOf(fields[i])[k] == r;
    ArrayWitness(fields, i, schema, inner, post, leaf, renamed, x, w);
    assert pre + [Elem] + post == [Key(name), Elem] + post;
    assert pre[1..] == [] && KeysIn([]) == [];
  }

  lemma {:induction false} SweepSilent(doc: Value, refs: seq<RefPath>, x: Id, w: Id)
    requires forall r :: r in refs ==> !Matches(doc, r.path, x)
    ensures Sweep(doc, refs, x, w) == Some(doc)
    decreases |refs|
  {
    if refs != [] {
      assert refs[0] in refs;
      SweepSilent(doc, refs[1..], x, w);
    }
  }

  lemma {:induction false} ChainInjective(steps: seq<Step>, a: Value, b: Value)
    requires Chain(steps, a) == Chain(steps, b)
    ensures a == b
    decreases |steps|
  {
    if steps != [] {
      if steps[0].Key? {
        var name := steps[0].name;
        assert map[name := Chain(steps[1..], a)][name] == map[name := Chain(steps[1..], b)][name];
      } else {
        assert [Chain(steps[1..], a)][0] == [Chain(steps[1..], b)][0];
      }
      ChainInjective(steps[1..], a, b);
    }
  }

  /** In a document that holds one reference, only that reference's own update acts. */
  lemma {:induction false} OnlyOneActs(fields: seq<Field>, k: nat, doc: Value, x: Id, w: Id)
    requires WellFormed(fields) && k < |Refs(fields)|
    requires forall p :: Matches(doc, p, x) ==> p == Refs(fields)[k].path
    ensures Sweep(doc, Refs(fields), x, w) ==
            match Repoint(doc, Refs(fields)[k], x, w)
            case Some(next) => Sweep(next, Refs(fields)[k + 1..], x, w)
            case None => None
  {
    var refs := Refs(fields);
    var r, a, b := refs[k], refs[..k], refs[k + 1..];
    forall q | q in a ensures !Matches(doc, q.path, x) {
      var i :| 0 <= i < k && refs[i] == q;
      PathsDistinct(fields, i, k);
    }
    SweepSilent(doc, a, x, w);
    assert refs == a + ([r] + b);
    SweepConcat(doc, a, [r] + b, x, w);
    assert ([r] + b)[0] == r && ([r] + b)[1..] == b;
  }

  lemma {:induction false} BadRepoint(
    fields: seq<Field>, r: RefPath, pre: seq<Step>, post: seq<Step>, leaf: Value, renamed: Value, x: Id, w: Id)
    requires WellFormed(fields) && x != w && BadWitness(fields, r, pre, post, leaf, renamed, x, w)
    ensures var steps := pre + [Elem] + post;
            var out := Repoint(Chain(steps, leaf), r, x, w);
            out == None || (out == Some(Chain(steps, Ref(w))) && renamed == Arr([Ref(w)]))
  {
    CollectedIsExpressible(fields);
    ChainNames(pre + [Elem] + post, leaf, x);
    PositionalOnChain(pre, post, leaf, x, w);
  }

  /** On a bad witness the sweep does not produce the renamed document. */
  lemma {:induction false} SweepGoesWrong(
    fields: seq<Field>, r: RefPath, pre: seq<Step>, post: seq<Step>, leaf: Value, renamed: Value, x: Id, w: Id)
    requires WellFormed(fields) && x != w && BadWitness(fields, r, pre, post, leaf, renamed, x, w)
    ensures var doc := Chain(pre + [Elem] + post, leaf);
            Sweep(doc, Refs(fields), x, w) != Some(Chain(pre + [Elem] + post, renamed))
  {
    var steps := pre + [Elem] + post;
    var doc, out := Chain(steps, leaf), Chain(steps, Ref(w));
    var k :| 0 <= k < |Refs(fields)| && Refs(fields)[k] == r;
    forall p | Matches(doc, p, x) ensures p == r.path {
      ChainNamesOnly(steps, leaf, x, p, x);
    }
    OnlyOneActs(fields, k, doc, x, w);
    BadRepoint(fields, r, pre, post, leaf, renamed, x, w);
    if Repoint(doc, r, x, w).Some? {
      forall q | q in Refs(fields)[k + 1..] ensures !Matches(out, q.path, x) {
        if Matches(out, q.path, x) {
          ChainNamesOnly(steps, Ref(w), w, q.path, x);
        }
      }
      SweepSilent(out, Refs(fields)[k + 1..], x, w);
      if out == Chain(steps, renamed) {
        ChainInjective(steps, Ref(w), renamed);
      }
    }
  }

  /** The sweep renames every reference in every conforming document. */
  ghost predicate SweepIsRight(fields: seq<Field>) {
    forall doc: map<string, Value>, loser: Id, winner: Id {:trigger Sweep(Obj(doc), Refs(fields), loser, winner)} ::
      Conforms(fields, doc) ==>
      Sweep(Obj(doc), Refs(fields), loser, winner) == Some(Obj(MapFields(fields, doc, Swap(loser, winner))))
  }

  /** Exactly the schemas with no reference inside two arrays are swept correctly. */
  lemma {:induction false} SweepIsRightIff(fields: seq<Field>)
    requires WellFormed(fields)
    ensures SweepIsRight(fields) <==> OneArrayDeep(fields)
  {
    if OneArrayDeep(fields) {
      forall doc: map<string, Value>, loser: Id, winner: Id | Conforms(fields, doc)
        ensures Sweep(Obj(doc), Refs(fields), loser, winner) == Some(Obj(MapFields(fields, doc, Swap(loser, winner))))
      {
        SweepFields(fields, doc, loser, winner);
      }
    } else {
      var r, pre, post, leaf, renamed := FindBad(fields, 0, 1);
      SweepGoesWrong(fields, r, pre, post, leaf, renamed, 0, 1);
      var doc := Chain(pre + [Elem] + post, leaf);
      assert doc == Obj(doc.fields);
      assert Chain(pre + [Elem] + post, renamed) == Obj(MapFields(fields, doc.fields, Swap(0, 1)));
    }
  }
}
