/** Sweeping a document rewrites every declared department slot and nothing else. */
module ReferencesTheorems {
  import opened Options
  import opened Sequences
  import opened OrgRows
  import opened References

  function Swap(loser: Id, winner: Id): Id -> Id {
    (id: Id) => if id == loser then winner else id
  }

  lemma {:induction false} SweepConcat(doc: Value, a: seq<RefPath>, b: seq<RefPath>, loser: Id, winner: Id)
    ensures Sweep(doc, a + b, loser, winner) ==
            match Sweep(doc, a, loser, winner)
            case Some(next) => Sweep(next, b, loser, winner)
            case None => None
    decreases |a|
  {
    if a == [] {
      assert a + b == b;
    } else {
      assert (a + b)[1..] == a[1..] + b;
      var step := Repoint(doc, a[0], loser, winner);
      if step.Some? {
        SweepConcat(step.value, a[1..], b, loser, winner);
      }
    }
  }

  // ---------------------------------------------------------------- collected references

  ghost predicate Expressible(r: RefPath) {
    && r.path != []
    && (r.DocumentArrayRef? ==> r.arrayPath != [] && r.tailPath != [] && r.path == r.arrayPath + r.tailPath)
  }

  /**
   * Every collected reference has an update: `repointUpdate` never answers `null` for one, also when
   * the id sits inside two arrays.
   */
  lemma {:induction false} CollectedIsExpressible(fields: seq<Field>)
    ensures forall r :: r in Refs(fields) ==> Expressible(r) && RepointUpdate(r).Some?
    decreases fields, 0
  {
    if fields != [] {
      var n := |fields| - 1;
      CollectedIsExpressible(fields[..n]);
      FieldIsExpressible(fields[n]);
    }
  }

  lemma {:induction false} FieldIsExpressible(field: Field)
    ensures forall r :: r in RefsOf(field) ==> Expressible(r) && RepointUpdate(r).Some?
    decreases field, 1
  {
    match field.kind
    case SubType(schema) =>
      CollectedIsExpressible(schema);
      forall r | r in RefsOf(field) ensures Expressible(r) && RepointUpdate(r).Some? {
        var i :| 0 <= i < |Refs(schema)| && r == Under([field.name], Refs(schema)[i]);
        var inner := Refs(schema)[i];
        assert inner in Refs(schema);
        if inner.DocumentArrayRef? {
          assert [field.name] + (inner.arrayPath + inner.tailPath) == [field.name] + inner.arrayPath + inner.tailPath;
        }
      }
    case SubArrayType(schema) =>
      CollectedIsExpressible(schema);
      forall r | r in RefsOf(field) ensures Expressible(r) && RepointUpdate(r).Some? {
        var i :| 0 <= i < |Refs(schema)| && r == InElement([field.name], Refs(schema)[i]);
        assert Refs(schema)[i] in Refs(schema);
      }
    case _ =>
  }

  // ---------------------------------------------------------------- one step down a path

  function Lift(doc: map<string, Value>, name: string, child: Option<Value>): Option<Value> {
    match child
    case Some(v) => Some(Obj(doc[name := v]))
    case None => None
  }

  lemma {:induction false} SweepOne(doc: Value, r: RefPath, loser: Id, winner: Id)
    ensures Sweep(doc, [r], loser, winner) == Repoint(doc, r, loser, winner)
  {
    assert [r][1..] == [];
    var step := Repoint(doc, r, loser, winner);
    if step.Some? {
      assert Sweep(step.value, [], loser, winner) == step;
    }
  }

  lemma {:induction false} MatchesField(doc: map<string, Value>, name: string, rest: Path, id: Id)
    ensures Matches(Obj(doc), [name] + rest, id) <==> name in doc && Matches(doc[name], rest, id)
  {
    assert ([name] + rest)[0] == name && ([name] + rest)[1..] == rest;
  }

  lemma {:induction false} MatchesElement(items: seq<Value>, path: Path, id: Id)
    requires path != [] && forall i :: 0 <= i < |items| ==> items[i].Obj?
    ensures Matches(Arr(items), path, id) <==> exists i :: 0 <= i < |items| && Matches(items[i], path, id)
  {
    assert forall i :: 0 <= i < |items| ==>
        (Matches(items[i], path, id) <==>
         path[0] in items[i].fields && Matches(items[i].fields[path[0]], path[1..], id));
  }

  lemma {:induction false} SetField(doc: map<string, Value>, name: string, w: Value)
    ensures SetAt(Obj(doc), [name], w) == Some(Obj(doc[name := w]))
  {
    assert [name][0] == name && [name][1..] == [];
    assert Nest([], w) == w;
    if name in doc {
      assert SetAt(doc[name], [], w) == Some(w);
    }
  }

  lemma {:induction false} SetArrayField(
    doc: map<string, Value>, name: string, items: seq<Value>, out: seq<Value>, tail: Path, loser: Id, winner: Id)
    requires name in doc && doc[name] == Arr(items)
    requires SetInElements(items, tail, loser, winner) == Some(out)
    ensures SetPositional(Obj(doc), [name], tail, loser, winner) == Some(Obj(doc[name := Arr(out)]))
  {
    assert [name][0] == name && [name][1..] == [];
    assert SetPositional(doc[name], [], tail, loser, winner) == Some(Arr(out));
  }

  lemma {:induction false} RepointUnder(doc: map<string, Value>, name: string, r: RefPath, loser: Id, winner: Id)
    requires Expressible(r)
    ensures Repoint(Obj(doc), Under([name], r), loser, winner) ==
            if name in doc then Lift(doc, name, Repoint(doc[name], r, loser, winner)) else Some(Obj(doc))
  {
    var path := [name] + r.path;
    assert path[0] == name && path[1..] == r.path;
    if r.DocumentArrayRef? {
      var arrayPath := [name] + r.arrayPath;
      assert arrayPath[0] == name && arrayPath[1..] == r.arrayPath;
    }
    if name in doc {
      assert doc[name := doc[name]] == doc;
    }
  }

  lemma {:induction false} SweepUnder(doc: map<string, Value>, name: string, rs: seq<RefPath>, loser: Id, winner: Id)
    requires forall r :: r in rs ==> Expressible(r)
    ensures Sweep(Obj(doc), AllUnder([name], rs), loser, winner) ==
            if name in doc then Lift(doc, name, Sweep(doc[name], rs, loser, winner)) else Some(Obj(doc))
    decreases |rs|
  {
    if rs == [] {
      if name in doc {
        assert doc[name := doc[name]] == doc;
      }
    } else {
      assert rs[0] in rs;
      assert AllUnder([name], rs)[1..] == AllUnder([name], rs[1..]);
      RepointUnder(doc, name, rs[0], loser, winner);
      if name !in doc {
        SweepUnder(doc, name, rs[1..], loser, winner);
      } else {
        var step := Repoint(doc[name], rs[0], loser, winner);
        if step.Some? {
          var next := doc[name := step.value];
          SweepUnder(next, name, rs[1..], loser, winner);
          var last := Sweep(step.value, rs[1..], loser, winner);
          if last.Some? {
            assert next[name := last.value] == doc[name := last.value];
          }
        }
      }
    }
  }

  // ---------------------------------------------------------------- arrays of sub-documents

  lemma {:induction false} ElementsOneByOne(items: seq<Value>, out: seq<Value>, tail: Path, loser: Id, winner: Id)
    requires |out| == |items|
    requires forall i :: 0 <= i < |items| ==> SetInElement(items[i], tail, loser, winner) == Some(out[i])
    ensures SetInElements(items, tail, loser, winner) == Some(out)
  {
    if items != [] {
      ElementsOneByOne(items[1..], out[1..], tail, loser, winner);
      assert out == [out[0]] + out[1..];
    }
  }

  /** A positional update over one array does to each element what a scalar update would. */
  lemma {:induction false} RepointElements(
    doc: map<string, Value>, name: string, r: RefPath, items: seq<Value>, out: seq<Value>, loser: Id, winner: Id)
    requires r.ScalarRef? && r.path != [] && name in doc && doc[name] == Arr(items)
    requires |out| == |items| && forall i :: 0 <= i < |items| ==> items[i].Obj?
    requires forall i :: 0 <= i < |items| ==> Repoint(items[i], r, loser, winner) == Some(out[i])
    ensures Repoint(Obj(doc), InElement([name], r), loser, winner) == Some(Obj(doc[name := Arr(out)]))
  {
    MatchesField(doc, name, r.path, loser);
    MatchesElement(items, r.path, loser);
    if Matches(Obj(doc), [name] + r.path, loser) {
      ElementsOneByOne(items, out, r.path, loser, winner);
      SetArrayField(doc, name, items, out, r.path, loser, winner);
    } else {
      forall i | 0 <= i < |items| ensures out[i] == items[i] {
        assert !Matches(items[i], r.path, loser);
      }
      assert out == items;
      assert doc[name := Arr(out)] == doc;
    }
  }

  lemma {:induction false} SweepElements(
    doc: map<string, Value>, name: string, rs: seq<RefPath>, items: seq<Value>, out: seq<Value>, loser: Id, winner: Id)
    requires name in doc && doc[name] == Arr(items) && |out| == |items|
    requires forall r :: r in rs ==> r.ScalarRef? && r.path != []
    requires forall i :: 0 <= i < |items| ==> items[i].Obj? && Sweep(items[i], rs, loser, winner) == Some(out[i])
    ensures Sweep(Obj(doc), AllInElement([name], rs), loser, winner) == Some(Obj(doc[name := Arr(out)]))
    decreases |rs|
  {
    if rs == [] {
      assert out == items;
      assert doc[name := Arr(out)] == doc;
    } else {
      assert rs[0] in rs;
      assert AllInElement([name], rs)[1..] == AllInElement([name], rs[1..]);
      var step := seq(|items|, i requires 0 <= i < |items| =>
        match Repoint(items[i], rs[0], loser, winner) case Some(v) => v case None => Null);
      forall i | 0 <= i < |items|
        ensures Repoint(items[i], rs[0], loser, winner) == Some(step[i])
        ensures step[i].Obj? && Sweep(step[i], rs[1..], loser, winner) == Some(out[i])
      {
        assert Repoint(items[i], rs[0], loser, winner).Some?;
      }
      RepointElements(doc, name, rs[0], items, step, loser, winner);
      var next := doc[name := Arr(step)];
      SweepElements(next, name, rs[1..], step, out, loser, winner);
      assert next[name := Arr(out)] == doc[name := Arr(out)];
    }
  }

  // ---------------------------------------------------------------- arrays of ids

  lemma {:induction false} IdElements(items: seq<Value>, loser: Id, winner: Id)
    requires forall i :: 0 <= i < |items| ==> items[i].Ref?
    ensures SetInElements(items, [], loser, winner) == Some(MapRefs(items, Swap(loser, winner)))
  {
    var out := MapRefs(items, Swap(loser, winner));
    forall i | 0 <= i < |items| ensures SetInElement(items[i], [], loser, winner) == Some(out[i]) {
    }
    ElementsOneByOne(items, out, [], loser, winner);
  }

  // ---------------------------------------------------------------- one field

  function Updated(doc: map<string, Value>, field: Field, f: Id -> Id): map<string, Value> {
    if field.name in doc then doc[field.name := MapValue(field, doc[field.name], f)] else doc
  }

  lemma {:induction false} SweepIdArray(field: Field, doc: map<string, Value>, loser: Id, winner: Id)
    requires field.kind.IdArrayType?
    requires field.name in doc ==> ConformsField(field, doc[field.name])
    ensures Sweep(Obj(doc), RefsOf(field), loser, winner) == Some(Obj(Updated(doc, field, Swap(loser, winner))))
  {
    var name, ref := field.name, IdArrayRef([field.name]);
    if name in doc {
      assert doc[name := doc[name]] == doc;
    }
    if IsDepartmentArray(name) {
      SweepOne(Obj(doc), ref, loser, winner);
      MatchesField(doc, name, [], loser);
      assert [name] + [] == [name];
      if name in doc && doc[name].Arr? {
        var items := doc[name].items;
        var out := MapRefs(items, Swap(loser, winner));
        IdElements(items, loser, winner);
        SetArrayField(doc, name, items, out, [], loser, winner);
        if Ref(loser) !in items {
          assert out == items;
        }
      }
    }
  }

  lemma {:induction false} SweepScalar(field: Field, doc: map<string, Value>, loser: Id, winner: Id)
    requires field.kind.ObjectIdType?
    requires field.name in doc ==> ConformsField(field, doc[field.name])
    ensures Sweep(Obj(doc), RefsOf(field), loser, winner) == Some(Obj(Updated(doc, field, Swap(loser, winner))))
  {
    var name, ref := field.name, ScalarRef([field.name]);
    if name in doc {
      assert doc[name := doc[name]] == doc;
    }
    if IsDepartmentScalar(name) {
      SweepOne(Obj(doc), ref, loser, winner);
      MatchesField(doc, name, [], loser);
      assert [name] + [] == [name];
      SetField(doc, name, Ref(winner));
    }
  }

  lemma {:induction false} SweepField(field: Field, doc: map<string, Value>, loser: Id, winner: Id)
    requires WellFormedField(field) && OneArrayDeepField(field)
    requires field.name in doc ==> ConformsField(field, doc[field.name])
    ensures Sweep(Obj(doc), RefsOf(field), loser, winner) == Some(Obj(Updated(doc, field, Swap(loser, winner))))
    decreases field, 1
  {
    match field.kind
    case ObjectIdType => SweepScalar(field, doc, loser, winner);
    case IdArrayType => SweepIdArray(field, doc, loser, winner);
    case SubType(schema) => SweepSub(field, schema, doc, loser, winner);
    case SubArrayType(schema) => SweepSubArray(field, schema, doc, loser, winner);
    case OtherType =>
      if field.name in doc {
        assert doc[field.name := doc[field.name]] == doc;
      }
  }

  lemma {:induction false} SweepNothing(v: Value, rs: seq<RefPath>, loser: Id, winner: Id)
    requires v.Null? && forall r :: r in rs ==> r.path != []
    ensures Sweep(v, rs, loser, winner) == Some(v)
    decreases |rs|
  {
    if rs != [] {
      assert rs[0] in rs;
      SweepNothing(v, rs[1..], loser, winner);
    }
  }

  lemma {:induction false} SweepSub(
    field: Field, schema: seq<Field>, doc: map<string, Value>, loser: Id, winner: Id)
    requires field.kind == SubType(schema) && WellFormedField(field) && OneArrayDeepField(field)
    requires field.name in doc ==> ConformsField(field, doc[field.name])
    ensures Sweep(Obj(doc), RefsOf(field), loser, winner) == Some(Obj(Updated(doc, field, Swap(loser, winner))))
    decreases field, 0
  {
    CollectedIsExpressible(schema);
    SweepUnder(doc, field.name, Refs(schema), loser, winner);
    if field.name in doc {
      var v := doc[field.name];
      if v.Obj? {
        SweepFields(schema, v.fields, loser, winner);
        var f := Swap(loser, winner);
        assert MapObject(schema, v, f) == Obj(MapFields(schema, v.fields, f));
        assert MapValue(field, v, f) == MapObject(schema, v, f);
      } else {
        SweepNothing(v, Refs(schema), loser, winner);
        assert MapValue(field, v, Swap(loser, winner)) == v;
      }
    }
  }

  lemma {:induction false} SweepSubArray(
    field: Field, schema: seq<Field>, doc: map<string, Value>, loser: Id, winner: Id)
    requires field.kind == SubArrayType(schema) && WellFormedField(field) && OneArrayDeepField(field)
    requires field.name in doc ==> ConformsField(field, doc[field.name])
    ensures Sweep(Obj(doc), RefsOf(field), loser, winner) == Some(Obj(Updated(doc, field, Swap(loser, winner))))
    decreases field, 0
  {
    var name, rs := field.name, Refs(schema);
    CollectedIsExpressible(schema);
    if name in doc && doc[name].Arr? {
      var items := doc[name].items;
      var out := MapObjects(schema, items, Swap(loser, winner));
      ScalarsAreOneArrayDeep(schema);
      forall i | 0 <= i < |items| ensures Sweep(items[i], rs, loser, winner) == Some(out[i]) {
        SweepFields(schema, items[i].fields, loser, winner);
        assert out[i] == MapObject(schema, items[i], Swap(loser, winner));
        assert out[i] == Obj(MapFields(schema, items[i].fields, Swap(loser, winner)));
      }
      SweepElements(doc, name, rs, items, out, loser, winner);
    } else {
      SweepAbsentArray(doc, name, rs, loser, winner);
      if name in doc {
        assert doc[name := doc[name]] == doc;
      }
    }
  }

  lemma {:induction false} SweepAbsentArray(
    doc: map<string, Value>, name: string, rs: seq<RefPath>, loser: Id, winner: Id)
    requires name in doc ==> doc[name].Null?
    requires forall r :: r in rs ==> r.path != []
    ensures Sweep(Obj(doc), AllInElement([name], rs), loser, winner) == Some(Obj(doc))
    decreases |rs|
  {
    if rs != [] {
      assert rs[0] in rs;
      MatchesField(doc, name, rs[0].path, loser);
      assert AllInElement([name], rs)[1..] == AllInElement([name], rs[1..]);
      SweepAbsentArray(doc, name, rs[1..], loser, winner);
    }
  }

  /** A schema whose references are all scalars has none behind an array. */
  lemma {:induction false} ScalarsAreOneArrayDeep(fields: seq<Field>)
    requires forall r :: r in Refs(fields) ==> r.ScalarRef?
    ensures OneArrayDeep(fields)
    decreases fields, 0
  {
    forall i | 0 <= i < |fields| ensures OneArrayDeepField(fields[i]) {
      RefsOfFieldIn(fields, i);
      ScalarFieldIsOneArrayDeep(fields[i]);
    }
  }

  lemma {:induction false} RefsOfFieldIn(fields: seq<Field>, i: nat)
    requires i < |fields|
    ensures forall r :: r in RefsOf(fields[i]) ==> r in Refs(fields)
    decreases |fields|
  {
    var n := |fields| - 1;
    if i < n {
      RefsOfFieldIn(fields[..n], i);
    }
  }

  lemma {:induction false} ElementIsNoScalar(field: Field, schema: seq<Field>, i: nat)
    requires field.kind == SubArrayType(schema) && i < |Refs(schema)|
    ensures exists r :: r in RefsOf(field) && !r.ScalarRef?
  {
    assert RefsOf(field)[i] in RefsOf(field);
  }

  lemma {:induction false} ScalarsOnly(field: Field, schema: seq<Field>)
    requires field.kind == SubArrayType(schema) && forall r :: r in RefsOf(field) ==> r.ScalarRef?
    ensures Refs(schema) == []
  {
    if Refs(schema) != [] {
      ElementIsNoScalar(field, schema, 0);
    }
  }

  lemma {:induction false} ScalarFieldIsOneArrayDeep(field: Field)
    requires forall r :: r in RefsOf(field) ==> r.ScalarRef?
    ensures OneArrayDeepField(field)
    decreases field, 1
  {
    match field.kind
    case SubType(schema) =>
      forall r | r in Refs(schema) ensures r.ScalarRef? {
        var i :| 0 <= i < |Refs(schema)| && Refs(schema)[i] == r;
        assert RefsOf(field)[i] == Under([field.name], r);
        assert RefsOf(field)[i] in RefsOf(field);
      }
      ScalarsAreOneArrayDeep(schema);
    case SubArrayType(schema) =>
      ScalarsOnly(field, schema);
    case _ =>
  }

  // ---------------------------------------------------------------- the whole document

  lemma {:induction false} MapFieldsFrame(fields: seq<Field>, doc: map<string, Value>, f: Id -> Id)
    ensures MapFields(fields, doc, f).Keys == doc.Keys
    ensures forall name :: name in doc && (forall i :: 0 <= i < |fields| ==> fields[i].name != name) ==>
              MapFields(fields, doc, f)[name] == doc[name]
    decreases |fields|
  {
    if fields != [] {
      var n := |fields| - 1;
      MapFieldsFrame(fields[..n], doc, f);
      forall name | name in doc && (forall i :: 0 <= i < |fields| ==> fields[i].name != name)
        ensures MapFields(fields, doc, f)[name] == doc[name]
      {
        assert forall i :: 0 <= i < n ==> fields[..n][i] == fields[i];
      }
    }
  }

  /**
   * The sweep of one merge over a conforming document is the schema-directed substitution: every
   * scalar, id-array and sub-document-array slot that named the loser names the winner, and the rest
   * of the document is as it was.
   */
  lemma {:induction false} SweepFields(fields: seq<Field>, doc: map<string, Value>, loser: Id, winner: Id)
    requires WellFormed(fields) && OneArrayDeep(fields) && Conforms(fields, doc)
    ensures Sweep(Obj(doc), Refs(fields), loser, winner) == Some(Obj(MapFields(fields, doc, Swap(loser, winner))))
    decreases fields, 0
  {
    if fields != [] {
      var n := |fields| - 1;
      var init, field := fields[..n], fields[n];
      SweepInit(fields, doc, loser, winner);
      var mid := MapFields(init, doc, Swap(loser, winner));
      MapFieldsFrame(init, doc, Swap(loser, winner));
      assert field.name in doc ==> mid[field.name] == doc[field.name];
      SweepField(field, mid, loser, winner);
      SweepConcat(Obj(doc), Refs(init), RefsOf(field), loser, winner);
    }
  }

  lemma {:induction false} SweepInit(fields: seq<Field>, doc: map<string, Value>, loser: Id, winner: Id)
    requires fields != [] && WellFormed(fields) && OneArrayDeep(fields) && Conforms(fields, doc)
    ensures var init := fields[..|fields| - 1];
            Sweep(Obj(doc), Refs(init), loser, winner) == Some(Obj(MapFields(init, doc, Swap(loser, winner))))
    decreases fields[..|fields| - 1], 1
  {
    var init := fields[..|fields| - 1];
    assert forall i :: 0 <= i < |init| ==> init[i] == fields[i];
    SweepFields(init, doc, loser, winner);
  }
}
