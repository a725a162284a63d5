/** What a silent pre-flight says about the unique indexes after every merge. */
module ReferencesIndexes {
  import opened Options
  import opened Sequences
  import opened OrgRows
  import opened OrgPlanSpec
  import opened OrgPlanner
  import opened References
  import opened ReferencesTheorems
  import opened ReferencesMerges
  import opened ReferencesSurvey

  // ---------------------------------------------------------------- keys and slots under a renaming

  /** An index key no department slot lies at, above or below. */
  ghost predicate UntouchedKey(fields: seq<Field>, key: Path)
    decreases |key|
  {
    && key != []
    && forall i :: 0 <= i < |fields| && fields[i].name == key[0] ==>
         || RefsOf(fields[i]) == []
         || (fields[i].kind.SubType? && UntouchedKey(fields[i].kind.schema, key[1..]))
  }

  lemma {:induction false} NoRefsNoChange(fields: seq<Field>, doc: map<string, Value>, f: Id -> Id)
    requires Refs(fields) == []
    ensures MapFields(fields, doc, f) == doc
    decreases fields, 0
  {
    if fields != [] {
      var n := |fields| - 1;
      assert Refs(fields) == Refs(fields[..n]) + RefsOf(fields[n]);
      NoRefsNoChange(fields[..n], doc, f);
      if fields[n].name in doc {
        NoRefsNoValueChange(fields[n], doc[fields[n].name], f);
      }
    }
  }

  lemma {:induction false} NoRefsNoValueChange(field: Field, v: Value, f: Id -> Id)
    requires RefsOf(field) == []
    ensures MapValue(field, v, f) == v
    decreases field, 1
  {
    match field.kind
    case SubType(schema) =>
      assert |RefsOf(field)| == |Refs(schema)|;
      NoRefsNoObjectChange(schema, v, f);
    case SubArrayType(schema) =>
      assert |RefsOf(field)| == |Refs(schema)|;
      if v.Arr? {
        forall i | 0 <= i < |v.items| ensures MapObject(schema, v.items[i], f) == v.items[i] {
          NoRefsNoObjectChange(schema, v.items[i], f);
        }
        assert MapObjects(schema, v.items, f) == v.items;
      }
    case _ =>
  }

  lemma {:induction false} NoRefsNoObjectChange(schema: seq<Field>, v: Value, f: Id -> Id)
    requires Refs(schema) == []
    ensures MapObject(schema, v, f) == v
    decreases schema, 1
  {
    if v.Obj? {
      NoRefsNoChange(schema, v.fields, f);
    }
  }

  lemma {:induction false} UntouchedValue(fields: seq<Field>, doc: map<string, Value>, f: Id -> Id, key: Path)
    requires WellFormed(fields) && UntouchedKey(fields, key)
    ensures ValueAt(Obj(MapFields(fields, doc, f)), key) == ValueAt(Obj(doc), key)
    decreases |key|
  {
    MapFieldsFrame(fields, doc, f);
    var out := MapFields(fields, doc, f);
    var name := key[0];
    if name in doc {
      if i :| 0 <= i < |fields| && fields[i].name == name {
        MapLookup(fields, doc, f, i);
        if RefsOf(fields[i]) == [] {
          NoRefsNoValueChange(fields[i], doc[name], f);
        } else {
          var schema := fields[i].kind.schema;
          if doc[name].Obj? {
            assert WellFormedField(fields[i]);
            UntouchedValue(schema, doc[name].fields, f, key[1..]);
            assert out[name] == Obj(MapFields(schema, doc[name].fields, f));
          }
        }
      }
    }
  }

  lemma {:induction false} RefHasField(fields: seq<Field>, r: RefPath) returns (i: nat)
    requires r in Refs(fields)
    ensures i < |fields| && r in RefsOf(fields[i])
    decreases |fields|
  {
    var n := |fields| - 1;
    assert Refs(fields) == Refs(fields[..n]) + RefsOf(fields[n]);
    if r in RefsOf(fields[n]) {
      i := n;
    } else {
      i := RefHasField(fields[..n], r);
    }
  }

  /** A scalar reference, before and after: the id there is renamed, and the path matches by that id alone. */
  lemma {:induction false} ScalarSlot(fields: seq<Field>, doc: map<string, Value>, f: Id -> Id, path: Path)
    requires WellFormed(fields) && Conforms(fields, doc) && ScalarRef(path) in Refs(fields)
    ensures ValueAt(Obj(MapFields(fields, doc, f)), path) == MapRef(ValueAt(Obj(doc), path), f)
    ensures forall l :: Matches(Obj(doc), path, l) <==> ValueAt(Obj(doc), path) == Ref(l)
    decreases |path|
  {
    MapFieldsFrame(fields, doc, f);
    CollectedIsExpressible(fields);
    var i := RefHasField(fields, ScalarRef(path));
    var field := fields[i];
    var name := field.name;
    match field.kind {
      case ObjectIdType =>
        assert path == [name];
        forall l: Id ensures Matches(Obj(doc), path, l) <==> ValueAt(Obj(doc), path) == Ref(l) {
          MatchesField(doc, name, [], l);
          assert [name] + [] == [name] && [name][1..] == [];
        }
        if name in doc {
          MapLookup(fields, doc, f, i);
          assert [name][1..] == [];
        }
      case SubType(schema) =>
        var k :| 0 <= k < |Refs(schema)| && Under([name], Refs(schema)[k]) == ScalarRef(path);
        var rest := Refs(schema)[k].path;
        assert Refs(schema)[k] == ScalarRef(rest) && Refs(schema)[k] in Refs(schema);
        assert path == [name] + rest && path[1..] == rest && path[0] == name;
        CollectedIsExpressible(schema);
        ScalarSlotUnder(fields, i, schema, doc, f, rest);
      case SubArrayType(schema) =>
        assert false;
      case IdArrayType =>
        assert false;
      case OtherType =>
        assert false;
    }
  }

  lemma {:induction false} ScalarSlotUnder(
    fields: seq<Field>, i: nat, schema: seq<Field>, doc: map<string, Value>, f: Id -> Id, rest: Path)
    requires WellFormed(fields) && Conforms(fields, doc) && i < |fields| && fields[i].kind == SubType(schema)
    requires ScalarRef(rest) in Refs(schema) && rest != []
    ensures var path := [fields[i].name] + rest;
            && ValueAt(Obj(MapFields(fields, doc, f)), path) == MapRef(ValueAt(Obj(doc), path), f)
            && forall l :: Matches(Obj(doc), path, l) <==> ValueAt(Obj(doc), path) == Ref(l)
    decreases |rest| + 1, 0
  {
    var name := fields[i].name;
    var path := [name] + rest;
    assert path[0] == name && path[1..] == rest;
    MapFieldsFrame(fields, doc, f);
    forall l: Id ensures Matches(Obj(doc), path, l) <==> name in doc && Matches(doc[name], rest, l) {
      MatchesField(doc, name, rest, l);
    }
    if name in doc {
      var v := doc[name];
      MapLookup(fields, doc, f, i);
      assert WellFormedField(fields[i]) && ConformsField(fields[i], v);
      if v.Obj? {
        ScalarSlot(schema, v.fields, f, rest);
        assert v == Obj(v.fields);
        assert MapFields(fields, doc, f)[name] == Obj(MapFields(schema, v.fields, f));
      }
    }
  }

  // ---------------------------------------------------------------- uniqueness

  predicate Meets(doc: Value, c: Condition) {
    match c
    case IsFlag(path, on) => ValueAt(doc, path) == Flag(on)
    case IsId(path) => ValueAt(doc, path).Ref?
  }

  /** The documents a partial index is about. */
  predicate Covers(index: Index, doc: Value) {
    forall c :: c in index.filter ==> Meets(doc, c)
  }

  predicate Collide(index: Index, a: Value, b: Value) {
    Covers(index, a) && Covers(index, b) && SameAt(a, b, index.keys)
  }

  ghost predicate IndexHolds(index: Index, docs: seq<Value>) {
    forall i, j :: 0 <= i < j < |docs| ==> !Collide(index, docs[i], docs[j])
  }

  /** Every unique index holds. */
  ghost predicate Fits(indexes: seq<Index>, docs: seq<Value>) {
    forall k :: 0 <= k < |indexes| && indexes[k].unique ==> IndexHolds(indexes[k], docs)
  }

  ghost predicate FilterUntouched(fields: seq<Field>, index: Index) {
    forall c :: c in index.filter ==> UntouchedKey(fields, c.path)
  }

  /** An index over one department path, among the living at most. */
  ghost predicate Keyed(fields: seq<Field>, index: Index, path: Path) {
    && ScalarRef(path) in Refs(fields) && path in index.keys
    && (forall key :: key in index.keys ==> key == path || UntouchedKey(fields, key))
    && FilterUntouched(fields, index) && IsFlag(["isDeleted"], false) in index.filter
  }

  /** An index no merge touches. */
  ghost predicate Unkeyed(fields: seq<Field>, index: Index) {
    FilterUntouched(fields, index) && forall key :: key in index.keys ==> UntouchedKey(fields, key)
  }

  ghost predicate Ordinary(fields: seq<Field>, index: Index) {
    Unkeyed(fields, index) || exists path :: Keyed(fields, index, path)
  }

  /** A collection whose schema is one array deep, whose documents conform and whose unique indexes are ordinary. */
  ghost predicate Sound(c: Collection) {
    && WellFormed(c.fields) && OneArrayDeep(c.fields)
    && (forall i :: 0 <= i < |c.docs| ==> c.docs[i].Obj? && Conforms(c.fields, c.docs[i].fields))
    && forall k :: 0 <= k < |c.indexes| && c.indexes[k].unique ==> Ordinary(c.fields, c.indexes[k])
  }

  function OthersOf(index: Index, path: Path): seq<Path> {
    Having(index.keys, OtherThan(path), true)
  }

  /** Two rows name two different losers of one winner and agree on every other key. */
  ghost predicate TwoLosersMeet(index: Index, path: Path, docs: seq<Value>, merges: seq<Merge>) {
    exists i, j, l, l' :: 0 <= i < j < |docs| && Covers(index, docs[i]) && Covers(index, docs[j]) &&
      LoserPair(merges, l, l') && ValueAt(docs[i], path) == Ref(l) && ValueAt(docs[j], path) == Ref(l') &&
      SameAt(docs[i], docs[j], OthersOf(index, path))
  }

  ghost predicate LoserPair(merges: seq<Merge>, l: Id, l': Id) {
    l != l' && LosesIn(merges, l) && LosesIn(merges, l') && WinnerFor(merges, l) == WinnerFor(merges, l')
  }

  function Renamed(fields: seq<Field>, docs: seq<Value>, merges: seq<Merge>): seq<Value> {
    seq(|docs|, i requires 0 <= i < |docs| => MapObject(fields, docs[i], Renaming(merges)))
  }

  lemma {:induction false} RenamedCovers(c: Collection, index: Index, merges: seq<Merge>, i: nat)
    requires Sound(c) && FilterUntouched(c.fields, index) && i < |c.docs|
    ensures Covers(index, Renamed(c.fields, c.docs, merges)[i]) == Covers(index, c.docs[i])
  {
    var doc, f := c.docs[i].fields, Renaming(merges);
    assert c.docs[i] == Obj(doc);
    forall x | x in index.filter
      ensures ValueAt(Renamed(c.fields, c.docs, merges)[i], x.path) == ValueAt(c.docs[i], x.path)
    {
      UntouchedValue(c.fields, doc, f, x.path);
    }
  }

  lemma {:induction false} RenamedUntouched(c: Collection, merges: seq<Merge>, i: nat, key: Path)
    requires Sound(c) && i < |c.docs| && UntouchedKey(c.fields, key)
    ensures ValueAt(Renamed(c.fields, c.docs, merges)[i], key) == ValueAt(c.docs[i], key)
  {
    assert c.docs[i] == Obj(c.docs[i].fields);
    UntouchedValue(c.fields, c.docs[i].fields, Renaming(merges), key);
  }

  lemma {:induction false} RenamedScalar(c: Collection, merges: seq<Merge>, i: nat, path: Path)
    requires Sound(c) && i < |c.docs| && ScalarRef(path) in Refs(c.fields)
    ensures ValueAt(Renamed(c.fields, c.docs, merges)[i], path) == MapRef(ValueAt(c.docs[i], path), Renaming(merges))
    ensures Loses(c.docs[i], path, LosersOf(merges)) <==>
            ValueAt(c.docs[i], path).Ref? && LosesIn(merges, ValueAt(c.docs[i], path).id)
  {
    assert c.docs[i] == Obj(c.docs[i].fields);
    ScalarSlot(c.fields, c.docs[i].fields, Renaming(merges), path);
    if ValueAt(c.docs[i], path).Ref? {
      LosersOfMeaning(merges, ValueAt(c.docs[i], path).id);
    }
  }

  /** When two rows collide after the merges: equal other keys, and the same department once renamed. */
  lemma {:induction false} RenamedCollideIff(
    c: Collection, index: Index, path: Path, merges: seq<Merge>, i: nat, j: nat)
    requires Sound(c) && Keyed(c.fields, index, path) && i < |c.docs| && j < |c.docs|
    ensures var out := Renamed(c.fields, c.docs, merges);
            Collide(index, out[i], out[j]) <==>
            && Covers(index, c.docs[i]) && Covers(index, c.docs[j])
            && SameAt(c.docs[i], c.docs[j], OthersOf(index, path))
            && MapRef(ValueAt(c.docs[i], path), Renaming(merges)) == MapRef(ValueAt(c.docs[j], path), Renaming(merges))
  {
    var out := Renamed(c.fields, c.docs, merges);
    RenamedCovers(c, index, merges, i);
    RenamedCovers(c, index, merges, j);
    RenamedScalar(c, merges, i, path);
    RenamedScalar(c, merges, j, path);
    HavingMember(index.keys, OtherThan(path), true);
    forall key | key in OthersOf(index, path)
      ensures ValueAt(out[i], key) == ValueAt(c.docs[i], key) && ValueAt(out[j], key) == ValueAt(c.docs[j], key)
    {
      RenamedUntouched(c, merges, i, key);
      RenamedUntouched(c, merges, j, key);
    }
    SplitKeys(index, path, out[i], out[j]);
  }

  lemma {:induction false} SplitKeys(index: Index, path: Path, a: Value, b: Value)
    requires path in index.keys
    ensures SameAt(a, b, index.keys) <==> ValueAt(a, path) == ValueAt(b, path) && SameAt(a, b, OthersOf(index, path))
  {
    HavingMember(index.keys, OtherThan(path), true);
  }

  lemma {:induction false} CoveredIsLive(index: Index, doc: Value)
    requires IsFlag(["isDeleted"], false) in index.filter && Covers(index, doc)
    ensures Live(doc)
  {
    assert Meets(doc, IsFlag(["isDeleted"], false));
  }

  /** Two rows collide after the merges only if they collided before or name two losers of one winner. */
  lemma {:induction false} CollisionCases(
    show: Value -> string, c: Collection, index: Index, path: Path, merges: seq<Merge>, i: nat, j: nat)
    requires Sound(c) && Keyed(c.fields, index, path) && i < j < |c.docs|
    requires Unchained(merges) && !Clashes(show, c.docs, path, LosersOf(merges), Risk(OthersOf(index, path)))
    requires Collide(index, Renamed(c.fields, c.docs, merges)[i], Renamed(c.fields, c.docs, merges)[j])
    ensures Collide(index, c.docs[i], c.docs[j]) || TwoLosersMeet(index, path, c.docs, merges)
  {
    hide Sound, Covers, SameAt, OthersOf, ValueAt, Live, Shape, Loses, WinnerFor, Renamed;
    RenamedCollideIff(c, index, path, merges, i, j);
    RenamedScalar(c, merges, i, path);
    RenamedScalar(c, merges, j, path);
    CoveredIsLive(index, c.docs[i]);
    CoveredIsLive(index, c.docs[j]);
    ShapeHidesNothing(show, c.docs[i], c.docs[j], OthersOf(index, path));
    SplitKeys(index, path, c.docs[i], c.docs[j]);
    var losers := LosersOf(merges);
    var a, b := ValueAt(c.docs[i], path), ValueAt(c.docs[j], path);
    assert c.docs[i] in c.docs && c.docs[j] in c.docs;
    assert Loses(c.docs[i], path, losers) == Loses(c.docs[j], path, losers);
    if Loses(c.docs[i], path, losers) {
      if a != b {
        assert LoserPair(merges, a.id, b.id);
      }
    } else {
      if a.Ref? {
        WinnerForMeaning(merges, a.id);
      }
      if b.Ref? {
        WinnerForMeaning(merges, b.id);
      }
    }
  }

  lemma {:induction false} LosersCollide(c: Collection, index: Index, path: Path, merges: seq<Merge>)
    requires Sound(c) && Keyed(c.fields, index, path) && TwoLosersMeet(index, path, c.docs, merges)
    ensures !IndexHolds(index, Renamed(c.fields, c.docs, merges))
  {
    hide Sound, Keyed, Covers, Collide, SameAt, OthersOf, ValueAt;
    var i, j, l, l' :| 0 <= i < j < |c.docs| && Covers(index, c.docs[i]) && Covers(index, c.docs[j]) &&
      LoserPair(merges, l, l') && ValueAt(c.docs[i], path) == Ref(l) && ValueAt(c.docs[j], path) == Ref(l') &&
      SameAt(c.docs[i], c.docs[j], OthersOf(index, path));
    RenamedCollideIff(c, index, path, merges, i, j);
    assert Collide(index, Renamed(c.fields, c.docs, merges)[i], Renamed(c.fields, c.docs, merges)[j]);
  }

  /**
   * After a silent pre-flight the index holds exactly when no two losers of one winner meet: the
   * pre-flight compares losing rows with surviving rows only.
   */
  lemma {:induction false} IndexSurvivesIff(
    show: Value -> string, c: Collection, index: Index, path: Path, merges: seq<Merge>)
    requires Sound(c) && Keyed(c.fields, index, path) && Unchained(merges)
    requires IndexHolds(index, c.docs) && !Clashes(show, c.docs, path, LosersOf(merges), Risk(OthersOf(index, path)))
    ensures IndexHolds(index, Renamed(c.fields, c.docs, merges)) <==> !TwoLosersMeet(index, path, c.docs, merges)
  {
    var out := Renamed(c.fields, c.docs, merges);
    if TwoLosersMeet(index, path, c.docs, merges) {
      LosersCollide(c, index, path, merges);
    } else {
      forall i, j | 0 <= i < j < |out| ensures !Collide(index, out[i], out[j]) {
        if Collide(index, out[i], out[j]) {
          CollisionCases(show, c, index, path, merges, i, j);
        }
      }
    }
  }

  lemma {:induction false} UnkeyedSurvives(c: Collection, index: Index, merges: seq<Merge>)
    requires Sound(c) && Unkeyed(c.fields, index) && IndexHolds(index, c.docs)
    ensures IndexHolds(index, Renamed(c.fields, c.docs, merges))
  {
    var out := Renamed(c.fields, c.docs, merges);
    forall i, j | 0 <= i < j < |out| ensures !Collide(index, out[i], out[j]) {
      RenamedCovers(c, index, merges, i);
      RenamedCovers(c, index, merges, j);
      forall key | key in index.keys
        ensures ValueAt(out[i], key) == ValueAt(c.docs[i], key) && ValueAt(out[j], key) == ValueAt(c.docs[j], key)
      {
        RenamedUntouched(c, merges, i, key);
        RenamedUntouched(c, merges, j, key);
      }
      assert !Collide(index, c.docs[i], c.docs[j]);
    }
  }

  // ---------------------------------------------------------------- every index of a collection

  /** Somewhere in this collection two losers of one winner meet in a unique index. */
  ghost predicate LosersMeet(c: Collection, merges: seq<Merge>) {
    exists k, path :: 0 <= k < |c.indexes| && c.indexes[k].unique && Keyed(c.fields, c.indexes[k], path) &&
      TwoLosersMeet(c.indexes[k], path, c.docs, merges)
  }

  lemma {:induction false} RiskListed(indexes: seq<Index>, k: nat, path: Path)
    requires k < |indexes| && indexes[k].unique && path in indexes[k].keys
    ensures Risk(OthersOf(indexes[k], path)) in RisksOf(indexes, path)
    decreases |indexes|
  {
    var n := |indexes| - 1;
    if k < n {
      RiskListed(indexes[..n], k, path);
    }
  }

  /** A clear collection clashes nowhere: a path the survey skipped has no losing row. */
  lemma {:induction false} ClearMeansNoClash(show: Value -> string, c: Collection, losers: seq<Id>, k: nat, path: Path)
    requires Clear(show, c, losers) && k < |c.indexes| && c.indexes[k].unique && Keyed(c.fields, c.indexes[k], path)
    ensures !Clashes(show, c.docs, path, losers, Risk(OthersOf(c.indexes[k], path)))
  {
    var ref := ScalarRef(path);
    HavingMember(Refs(c.fields), NamedOf(c.docs, losers), true);
    RiskListed(c.indexes, k, path);
    if ref !in SweepsOf(c, losers) {
      assert !NamesAny(c.docs, path, losers);
    }
  }

  /** After a silent pre-flight every unique index of the collection survives exactly when no two losers meet. */
  lemma {:induction false} CollectionSurvivesIff(show: Value -> string, c: Collection, merges: seq<Merge>)
    requires Sound(c) && Fits(c.indexes, c.docs) && Unchained(merges) && Clear(show, c, LosersOf(merges))
    ensures Fits(c.indexes, Renamed(c.fields, c.docs, merges)) <==> !LosersMeet(c, merges)
  {
    var out := Renamed(c.fields, c.docs, merges);
    if LosersMeet(c, merges) {
      var k, path :| 0 <= k < |c.indexes| && c.indexes[k].unique && Keyed(c.fields, c.indexes[k], path) &&
        TwoLosersMeet(c.indexes[k], path, c.docs, merges);
      LosersCollide(c, c.indexes[k], path, merges);
    } else {
      forall k | 0 <= k < |c.indexes| && c.indexes[k].unique ensures IndexHolds(c.indexes[k], out) {
        if path :| Keyed(c.fields, c.indexes[k], path) {
          ClearMeansNoClash(show, c, LosersOf(merges), k, path);
          IndexSurvivesIff(show, c, c.indexes[k], path, merges);
        } else {
          UnkeyedSurvives(c, c.indexes[k], merges);
        }
      }
    }
  }

  ghost predicate OneLoserEach(merges: seq<Merge>) {
    forall m, m' :: m in merges && m' in merges && m.winnerId == m'.winnerId ==> m.loserId == m'.loserId
  }

  /** With one loser per winner no two losers meet, so a silent pre-flight is enough. */
  lemma {:induction false} OneLoserPerWinner(c: Collection, merges: seq<Merge>)
    requires Unchained(merges) && OneLoserEach(merges)
    ensures !LosersMeet(c, merges)
  {
    forall l, l' | LosesIn(merges, l) && LosesIn(merges, l') && l != l' ensures !LoserPair(merges, l, l') {
      WinnerForMeaning(merges, l);
      WinnerForMeaning(merges, l');
    }
  }
}
