/** All merges together: one simultaneous renaming, whatever order they are applied in. */
module ReferencesMerges {
  import opened Options
  import opened Sequences
  import opened OrgRows
  import opened OrgPlanSpec
  import opened OrgPlanner
  import opened References
  import opened ReferencesTheorems

  /** What the planner guarantees of its merges: no loser repeats, and no survivor is merged away. */
  ghost predicate Unchained(merges: seq<Merge>) {
    && (forall i, j :: 0 <= i < j < |merges| ==> merges[i].loserId != merges[j].loserId)
    && (forall m, m' :: m in merges && m' in merges ==> m.winnerId != m'.loserId)
  }

  /** The renaming a list of merges amounts to. */
  function Renaming(merges: seq<Merge>): Id -> Id {
    (id: Id) => WinnerFor(merges, id)
  }

  lemma {:induction false} UnchainedInit(merges: seq<Merge>)
    requires merges != [] && Unchained(merges)
    ensures Unchained(merges[..|merges| - 1])
    ensures !LosesIn(merges[..|merges| - 1], merges[|merges| - 1].loserId)
  {
    var n := |merges| - 1;
    assert forall m :: m in merges[..n] ==> m in merges;
  }

  /** Applying the last merge after the others is the renaming of them all. */
  lemma {:induction false} RenamingStep(merges: seq<Merge>, id: Id)
    requires merges != [] && Unchained(merges)
    ensures var n := |merges| - 1;
            Renaming(merges)(id) == Swap(merges[n].loserId, merges[n].winnerId)(Renaming(merges[..n])(id))
  {
    var n := |merges| - 1;
    var last, init := merges[n], merges[..n];
    UnchainedInit(merges);
    WinnerForMeaning(init, id);
    if id != last.loserId && LosesIn(init, id) {
      var m :| m in init && m.loserId == id && m.winnerId == WinnerFor(init, id);
      assert m in merges && last in merges;
    }
  }

  // ---------------------------------------------------------------- the algebra of renamings

  lemma {:induction false} MapLookup(fields: seq<Field>, doc: map<string, Value>, f: Id -> Id, i: nat)
    requires WellFormed(fields) && i < |fields| && fields[i].name in doc
    ensures fields[i].name in MapFields(fields, doc, f)
    ensures MapFields(fields, doc, f)[fields[i].name] == MapValue(fields[i], doc[fields[i].name], f)
    decreases |fields|
  {
    var n := |fields| - 1;
    MapFieldsFrame(fields, doc, f);
    if i < n {
      assert fields[..n][i] == fields[i];
      assert forall k :: 0 <= k < n ==> fields[..n][k] == fields[k];
      MapLookup(fields[..n], doc, f, i);
      assert fields[n].name != fields[i].name;
    }
  }

  /** A document is known by its keys, its declared fields and the rest. */
  lemma {:induction false} SameDocument(
    fields: seq<Field>, doc: map<string, Value>, f: Id -> Id, other: map<string, Value>)
    requires WellFormed(fields) && other.Keys == doc.Keys
    requires forall i :: 0 <= i < |fields| && fields[i].name in doc ==>
               other[fields[i].name] == MapValue(fields[i], doc[fields[i].name], f)
    requires forall name :: name in doc && (forall i :: 0 <= i < |fields| ==> fields[i].name != name) ==>
               other[name] == doc[name]
    ensures other == MapFields(fields, doc, f)
  {
    MapFieldsFrame(fields, doc, f);
    forall name | name in doc ensures other[name] == MapFields(fields, doc, f)[name] {
      if i :| 0 <= i < |fields| && fields[i].name == name {
        MapLookup(fields, doc, f, i);
      }
    }
  }

  /** Renaming by `f` and then by `g` is renaming by their composition. */
  lemma {:induction false} MapCompose(
    fields: seq<Field>, doc: map<string, Value>, f: Id -> Id, g: Id -> Id, h: Id -> Id)
    requires WellFormed(fields) && forall id :: h(id) == g(f(id))
    ensures MapFields(fields, MapFields(fields, doc, f), g) == MapFields(fields, doc, h)
    decreases fields, 0
  {
    var mid := MapFields(fields, doc, f);
    var out := MapFields(fields, mid, g);
    MapFieldsFrame(fields, doc, f);
    MapFieldsFrame(fields, mid, g);
    forall i | 0 <= i < |fields| && fields[i].name in doc
      ensures out[fields[i].name] == MapValue(fields[i], doc[fields[i].name], h)
    {
      MapLookup(fields, doc, f, i);
      MapLookup(fields, mid, g, i);
      MapValueCompose(fields[i], doc[fields[i].name], f, g, h);
    }
    SameDocument(fields, doc, h, out);
  }

  lemma {:induction false} MapValueCompose(field: Field, v: Value, f: Id -> Id, g: Id -> Id, h: Id -> Id)
    requires WellFormedField(field) && forall id :: h(id) == g(f(id))
    ensures MapValue(field, MapValue(field, v, f), g) == MapValue(field, v, h)
    decreases field, 1
  {
    match field.kind
    case SubType(schema) =>
      MapObjectCompose(schema, v, f, g, h);
    case SubArrayType(schema) =>
      if v.Arr? {
        forall i | 0 <= i < |v.items|
          ensures MapObject(schema, MapObject(schema, v.items[i], f), g) == MapObject(schema, v.items[i], h)
        {
          MapObjectCompose(schema, v.items[i], f, g, h);
        }
        assert MapObjects(schema, MapObjects(schema, v.items, f), g) == MapObjects(schema, v.items, h);
      }
    case IdArrayType =>
      if v.Arr? {
        assert MapRefs(MapRefs(v.items, f), g) == MapRefs(v.items, h);
      }
    case _ =>
  }

  lemma {:induction false} MapObjectCompose(schema: seq<Field>, v: Value, f: Id -> Id, g: Id -> Id, h: Id -> Id)
    requires WellFormed(schema) && forall id :: h(id) == g(f(id))
    ensures MapObject(schema, MapObject(schema, v, f), g) == MapObject(schema, v, h)
    decreases schema, 1
  {
    if v.Obj? {
      MapCompose(schema, v.fields, f, g, h);
      assert MapObject(schema, v, f) == Obj(MapFields(schema, v.fields, f));
    }
  }

  /** Renaming keeps a document's shape. */
  lemma {:induction false} MapConforms(fields: seq<Field>, doc: map<string, Value>, f: Id -> Id)
    requires WellFormed(fields) && Conforms(fields, doc)
    ensures Conforms(fields, MapFields(fields, doc, f))
    decreases fields, 0
  {
    MapFieldsFrame(fields, doc, f);
    forall i | 0 <= i < |fields| && fields[i].name in doc
      ensures ConformsField(fields[i], MapFields(fields, doc, f)[fields[i].name])
    {
      MapLookup(fields, doc, f, i);
      MapValueConforms(fields[i], doc[fields[i].name], f);
    }
  }

  lemma {:induction false} MapValueConforms(field: Field, v: Value, f: Id -> Id)
    requires WellFormedField(field) && ConformsField(field, v)
    ensures ConformsField(field, MapValue(field, v, f))
    decreases field, 1
  {
    match field.kind
    case SubType(schema) =>
      if v.Obj? {
        MapConforms(schema, v.fields, f);
        assert MapValue(field, v, f) == Obj(MapFields(schema, v.fields, f));
      }
    case SubArrayType(schema) =>
      if v.Arr? {
        var out := MapObjects(schema, v.items, f);
        forall i | 0 <= i < |out| ensures out[i].Obj? && Conforms(schema, out[i].fields) {
          MapConforms(schema, v.items[i].fields, f);
          assert out[i] == MapObject(schema, v.items[i], f);
          assert out[i] == Obj(MapFields(schema, v.items[i].fields, f));
        }
      }
    case _ =>
  }

  // ---------------------------------------------------------------- the sweep of every merge

  /** `applyMerges` on one document: merge after merge, sweep after sweep. */
  function SweepMerges(doc: Value, refs: seq<RefPath>, merges: seq<Merge>): Option<Value> {
    if merges == [] then Some(doc)
    else
      var m := merges[|merges| - 1];
      match SweepMerges(doc, refs, merges[..|merges| - 1])
      case Some(next) => Sweep(next, refs, m.loserId, m.winnerId)
      case None => None
  }

  /** Merging one by one is the simultaneous renaming of every loser to its winner. */
  lemma {:induction false} SweepMergesIsRenaming(fields: seq<Field>, doc: map<string, Value>, merges: seq<Merge>)
    requires WellFormed(fields) && OneArrayDeep(fields) && Conforms(fields, doc) && Unchained(merges)
    ensures SweepMerges(Obj(doc), Refs(fields), merges) == Some(Obj(MapFields(fields, doc, Renaming(merges))))
    decreases |merges|
  {
    if merges == [] {
      MapIdentity(fields, doc, Renaming(merges));
    } else {
      var n := |merges| - 1;
      var last, init := merges[n], merges[..n];
      UnchainedInit(merges);
      SweepMergesIsRenaming(fields, doc, init);
      var mid := MapFields(fields, doc, Renaming(init));
      MapConforms(fields, doc, Renaming(init));
      SweepFields(fields, mid, last.loserId, last.winnerId);
      forall id: Id ensures Renaming(merges)(id) == Swap(last.loserId, last.winnerId)(Renaming(init)(id)) {
        RenamingStep(merges, id);
      }
      MapCompose(fields, doc, Renaming(init), Swap(last.loserId, last.winnerId), Renaming(merges));
    }
  }

  lemma {:induction false} MapIdentity(fields: seq<Field>, doc: map<string, Value>, f: Id -> Id)
    requires WellFormed(fields) && forall id :: f(id) == id
    ensures MapFields(fields, doc, f) == doc
    decreases fields, 0
  {
    forall i | 0 <= i < |fields| && fields[i].name in doc
      ensures doc[fields[i].name] == MapValue(fields[i], doc[fields[i].name], f)
    {
      MapValueIdentity(fields[i], doc[fields[i].name], f);
    }
    SameDocument(fields, doc, f, doc);
  }

  lemma {:induction false} MapValueIdentity(field: Field, v: Value, f: Id -> Id)
    requires WellFormedField(field) && forall id :: f(id) == id
    ensures MapValue(field, v, f) == v
    decreases field, 1
  {
    match field.kind
    case SubType(schema) =>
      MapObjectIdentity(schema, v, f);
    case SubArrayType(schema) =>
      if v.Arr? {
        forall i | 0 <= i < |v.items| ensures MapObject(schema, v.items[i], f) == v.items[i] {
          MapObjectIdentity(schema, v.items[i], f);
        }
        assert MapObjects(schema, v.items, f) == v.items;
      }
    case IdArrayType =>
      if v.Arr? {
        assert MapRefs(v.items, f) == v.items;
      }
    case _ =>
  }

  lemma {:induction false} MapObjectIdentity(schema: seq<Field>, v: Value, f: Id -> Id)
    requires WellFormed(schema) && forall id :: f(id) == id
    ensures MapObject(schema, v, f) == v
    decreases schema, 1
  {
    if v.Obj? {
      MapIdentity(schema, v.fields, f);
    }
  }

  // ---------------------------------------------------------------- what the slots say afterwards

  /** Every department id a document holds in a declared slot, in schema order. */
  function Slots(fields: seq<Field>, doc: map<string, Value>): seq<Id>
    decreases fields, 0
  {
    if fields == [] then []
    else
      var field := fields[|fields| - 1];
      var rest := Slots(fields[..|fields| - 1], doc);
      if field.name in doc then rest + SlotsOf(field, doc[field.name]) else rest
  }

  function SlotsOf(field: Field, v: Value): seq<Id>
    decreases field, 3
  {
    match field.kind
    case ObjectIdType => if IsDepartmentScalar(field.name) && v.Ref? then [v.id] else []
    case IdArrayType => if IsDepartmentArray(field.name) && v.Arr? then IdsOf(v.items) else []
    case SubType(schema) => if v.Obj? then Slots(schema, v.fields) else []
    case SubArrayType(schema) => if v.Arr? then SlotsOfAll(schema, v.items) else []
    case OtherType => []
  }

  function IdsOf(items: seq<Value>): seq<Id> {
    if items == [] then []
    else (if items[0].Ref? then [items[0].id] else []) + IdsOf(items[1..])
  }

  function SlotsOfAll(schema: seq<Field>, items: seq<Value>): seq<Id>
    decreases schema, 1, |items|
  {
    if items == [] then []
    else (if items[0].Obj? then Slots(schema, items[0].fields) else []) + SlotsOfAll(schema, items[1..])
  }

  lemma {:induction false} MappedConcat(a: seq<Id>, b: seq<Id>, f: Id -> Id)
    ensures Mapped(a + b, f) == Mapped(a, f) + Mapped(b, f)
  {
  }

  /** A renaming acts slot by slot: no slot appears, disappears or moves. */
  lemma {:induction false} SlotsRenamed(
    fields: seq<Field>, doc: map<string, Value>, out: map<string, Value>, f: Id -> Id)
    requires out.Keys == doc.Keys
    requires forall i :: 0 <= i < |fields| ==> WellFormedField(fields[i])
    requires forall i :: 0 <= i < |fields| && fields[i].name in doc ==>
               out[fields[i].name] == MapValue(fields[i], doc[fields[i].name], f)
    ensures Slots(fields, out) == Mapped(Slots(fields, doc), f)
    decreases fields, 0
  {
    if fields != [] {
      var n := |fields| - 1;
      var init, field := fields[..n], fields[n];
      assert forall i :: 0 <= i < n ==> init[i] == fields[i];
      SlotsRenamed(init, doc, out, f);
      if field.name in doc {
        SlotsOfRenamed(field, doc[field.name], f);
        MappedConcat(Slots(init, doc), SlotsOf(field, doc[field.name]), f);
      }
    }
  }

  lemma {:induction false} SlotsOfRenamed(field: Field, v: Value, f: Id -> Id)
    requires WellFormedField(field)
    ensures SlotsOf(field, MapValue(field, v, f)) == Mapped(SlotsOf(field, v), f)
    decreases field, 3
  {
    match field.kind
    case SubType(schema) =>
      if v.Obj? {
        SlotsOfDocument(schema, v.fields, f);
        assert MapValue(field, v, f) == Obj(MapFields(schema, v.fields, f));
      }
    case SubArrayType(schema) =>
      if v.Arr? {
        SlotsOfAllRenamed(schema, v.items, f);
      }
    case IdArrayType =>
      if v.Arr? {
        IdsRenamed(v.items, f);
      }
    case _ =>
  }

  lemma {:induction false} IdsRenamed(items: seq<Value>, f: Id -> Id)
    ensures IdsOf(MapRefs(items, f)) == Mapped(IdsOf(items), f)
  {
    if items != [] {
      IdsRenamed(items[1..], f);
      assert MapRefs(items, f)[1..] == MapRefs(items[1..], f);
    }
  }

  lemma {:induction false} SlotsOfAllRenamed(schema: seq<Field>, items: seq<Value>, f: Id -> Id)
    requires WellFormed(schema)
    ensures SlotsOfAll(schema, MapObjects(schema, items, f)) == Mapped(SlotsOfAll(schema, items), f)
    decreases schema, 2, |items|
  {
    if items != [] {
      var out := MapObjects(schema, items, f);
      SlotsOfAllRenamed(schema, items[1..], f);
      assert out[1..] == MapObjects(schema, items[1..], f);
      assert out[0] == MapObject(schema, items[0], f);
      if items[0].Obj? {
        SlotsOfDocument(schema, items[0].fields, f);
        assert out[0] == Obj(MapFields(schema, items[0].fields, f));
        MappedConcat(Slots(schema, items[0].fields), SlotsOfAll(schema, items[1..]), f);
      } else {
        assert SlotsOfAll(schema, items) == [] + SlotsOfAll(schema, items[1..]);
      }
    }
  }

  lemma {:induction false} SlotsOfDocument(fields: seq<Field>, doc: map<string, Value>, f: Id -> Id)
    requires WellFormed(fields)
    ensures Slots(fields, MapFields(fields, doc, f)) == Mapped(Slots(fields, doc), f)
    decreases fields, 1
  {
    MapFieldsFrame(fields, doc, f);
    forall i | 0 <= i < |fields| && fields[i].name in doc
      ensures MapFields(fields, doc, f)[fields[i].name] == MapValue(fields[i], doc[fields[i].name], f)
    {
      MapLookup(fields, doc, f, i);
    }
    SlotsRenamed(fields, doc, MapFields(fields, doc, f), f);
  }

  /**
   * After all merges: slot for slot, no declared reference names a retired department, and one names
   * a winner exactly when it named that winner or one of its losers before.
   */
  lemma {:induction false} SlotsAfterMerges(fields: seq<Field>, doc: map<string, Value>, merges: seq<Merge>)
    requires WellFormed(fields) && OneArrayDeep(fields) && Conforms(fields, doc) && Unchained(merges)
    ensures SweepMerges(Obj(doc), Refs(fields), merges).Some?
    ensures SweepMerges(Obj(doc), Refs(fields), merges).value.Obj?
    ensures var before := Slots(fields, doc);
            var after := Slots(fields, SweepMerges(Obj(doc), Refs(fields), merges).value.fields);
            && |after| == |before|
            && (forall k :: 0 <= k < |after| ==> !LosesIn(merges, after[k]))
            && (forall k, w :: 0 <= k < |after| && !LosesIn(merges, w) ==>
                  (after[k] == w <==>
                    before[k] == w || exists m :: m in merges && m.loserId == before[k] && m.winnerId == w))
  {
    SweepMergesIsRenaming(fields, doc, merges);
    SlotsOfDocument(fields, doc, Renaming(merges));
    var before := Slots(fields, doc);
    var after := Slots(fields, MapFields(fields, doc, Renaming(merges)));
    forall k | 0 <= k < |after| ensures !LosesIn(merges, after[k]) {
      RenamingAvoidsLosers(merges, before[k]);
    }
    forall k, w | 0 <= k < |after| && !LosesIn(merges, w)
      ensures after[k] == w <==> before[k] == w || exists m :: m in merges && m.loserId == before[k] && m.winnerId == w
    {
      RenamingMeets(merges, before[k], w);
    }
  }

  lemma {:induction false} RenamingAvoidsLosers(merges: seq<Merge>, id: Id)
    requires Unchained(merges)
    ensures !LosesIn(merges, WinnerFor(merges, id))
  {
    WinnerForMeaning(merges, id);
  }

  lemma {:induction false} RenamingMeets(merges: seq<Merge>, id: Id, w: Id)
    requires Unchained(merges) && !LosesIn(merges, w)
    ensures WinnerFor(merges, id) == w <==> id == w || exists m :: m in merges && m.loserId == id && m.winnerId == w
  {
    WinnerForMeaning(merges, id);
    if m :| m in merges && m.loserId == id && m.winnerId == w {
      assert LosesIn(merges, id);
      var m' :| m' in merges && m'.loserId == id && m'.winnerId == WinnerFor(merges, id);
      var i :| 0 <= i < |merges| && merges[i] == m;
      var j :| 0 <= j < |merges| && merges[j] == m';
    }
  }

  /** Any order of the merges gives the same documents. */
  lemma {:induction false} MergesCommute(
    fields: seq<Field>, doc: map<string, Value>, merges: seq<Merge>, others: seq<Merge>)
    requires WellFormed(fields) && OneArrayDeep(fields) && Conforms(fields, doc)
    requires Unchained(merges) && multiset(merges) == multiset(others)
    ensures Unchained(others)
    ensures SweepMerges(Obj(doc), Refs(fields), merges) == SweepMerges(Obj(doc), Refs(fields), others)
  {
    UnchainedPermuted(merges, others);
    SweepMergesIsRenaming(fields, doc, merges);
    SweepMergesIsRenaming(fields, doc, others);
    forall id: Id ensures Renaming(others)(id) == Renaming(merges)(id) {
      SameRenaming(merges, others, id);
    }
    MapIdentity(fields, doc, (id: Id) => id);
    MapCompose(fields, doc, (id: Id) => id, Renaming(merges), Renaming(others));
  }

  lemma {:induction false} PermutedMembers(merges: seq<Merge>, others: seq<Merge>)
    requires multiset(merges) == multiset(others)
    ensures forall m :: m in merges <==> m in others
  {
    assert forall m :: m in merges <==> m in multiset(merges);
    assert forall m :: m in others <==> m in multiset(others);
  }

  function LoserOf(): Merge -> Id {
    (m: Merge) => m.loserId
  }

  lemma {:induction false} UnchainedPermuted(merges: seq<Merge>, others: seq<Merge>)
    requires Unchained(merges) && multiset(merges) == multiset(others)
    ensures Unchained(others)
  {
    PermutedMembers(merges, others);
    MappedPermuted(merges, others, LoserOf());
    PermutationKeepsDistinct(Mapped(merges, LoserOf()), Mapped(others, LoserOf()));
    forall i, j | 0 <= i < j < |others| ensures others[i].loserId != others[j].loserId {
      assert Mapped(others, LoserOf())[i] != Mapped(others, LoserOf())[j];
    }
  }

  lemma {:induction false} SameRenaming(merges: seq<Merge>, others: seq<Merge>, id: Id)
    requires Unchained(merges) && Unchained(others) && multiset(merges) == multiset(others)
    ensures WinnerFor(merges, id) == WinnerFor(others, id)
  {
    PermutedMembers(merges, others);
    WinnerForMeaning(merges, id);
    if LosesIn(merges, id) {
      var m :| m in merges && m.loserId == id && m.winnerId == WinnerFor(merges, id);
      assert m in others && LosesIn(others, id);
      RenamingAvoidsLosers(merges, id);
      assert !LosesIn(others, m.winnerId);
      RenamingMeets(others, id, m.winnerId);
    } else {
      WinnerForMeaning(others, id);
      assert !LosesIn(others, id);
    }
  }
}
