/**
 * When the two Zod walks give the same numeric fields
 * (packages/contracts/src/expression/field-catalog.ts, lines 9-16 and 97-131;
 * packages/contracts/src/events/catalog.ts, lines 434-466).
 */
module NumericAgreement {
  import opened Options
  import opened Sequences
  import opened ZodSchemas
  import opened EventFields
  import opened ExpressionFields

  /** The event catalogue's number fields that are not under an array, as the expression catalog would list them. */
  function Numbers(fields: seq<Field>): seq<ExpressionField> {
    if fields == [] then []
    else
      var last := fields[|fields| - 1];
      var number := last.kind == NumberKind && '[' !in Text(last.path);
      Numbers(fields[..|fields| - 1]) + (if number then [ExpressionField(Text(last.path), last.nullable)] else [])
  }

  lemma {:induction false} NumbersConcat(a: seq<Field>, b: seq<Field>)
    ensures Numbers(a + b) == Numbers(a) + Numbers(b)
  {
    if b == [] {
      assert a + b == a;
    } else {
      var n := |b| - 1;
      assert (a + b)[..|a + b| - 1] == a + b[..n];
      NumbersConcat(a, b[..n]);
    }
  }

  lemma {:induction false} NumbersOne(f: Field)
    ensures Numbers([f]) == if f.kind == NumberKind &&
            '[' !in Text(f.path) then [ExpressionField(Text(f.path), f.nullable)] else []
  {
    assert [f][..0] == [];
    assert Numbers([]) == [];
  }

  lemma {:induction false} TextGrows(path: Path, hop: Hop)
    ensures '[' in Text(path) || hop.ofElement ==> '[' in Text(path + [hop])
    ensures Text(path) != "" && !hop.ofElement ==> Text(path + [hop]) != ""
  {
    assert (path + [hop])[..|path|] == path;
    if hop.ofElement {
      assert Text(path + [hop])[|Text(path)|] == '[';
    }
  }

  /** Nothing under an array is compared. */
  lemma {:induction false} UnderArray(z: Zod, path: Path)
    requires '[' in Text(path)
    ensures Numbers(Describe(z, path)) == []
    decreases Size(z)
  {
    hide Text;
    var r := Unwrapped(z);
    var self := SelfField(r, path);
    NumbersOne(self);
    if r.inner.ZodObject? {
      UnderArrayShape(r.inner.shape, path, false);
      NumbersConcat([self], DescribeShape(r.inner.shape, path, false));
    } else if r.inner.ZodArray? && r.inner.element.Some? && Unwrapped(r.inner.element.value).inner.ZodObject? {
      var e := Unwrapped(r.inner.element.value).inner;
      UnderArrayShape(e.shape, path, true);
      NumbersConcat([self], DescribeShape(e.shape, path, true));
    }
  }

  lemma {:induction false} UnderArrayShape(shape: seq<Property>, path: Path, ofElement: bool)
    requires '[' in Text(path) || ofElement
    ensures Numbers(DescribeShape(shape, path, ofElement)) == []
    decreases ShapeSize(shape)
  {
    hide Text;
    if shape != [] {
      var n := |shape| - 1;
      var hop := Hop(ofElement, shape[n].key);
      PropertySmaller(shape, n);
      UnderArrayShape(shape[..n], path, ofElement);
      TextGrows(path, hop);
      UnderArray(shape[n].schema, path + [hop]);
      NumbersConcat(DescribeShape(shape[..n], path, ofElement), Describe(shape[n].schema, path + [hop]));
    }
  }

  // ---------------------------------------------------------------- the fields only one walk lists

  /** How many number fields the expression catalog misses: bigints, fields too deep, a field with no path. */
  function Missed(z: Zod, path: Path, depth: nat): nat
    decreases Size(z)
  {
    match Unwrapped(z).inner
    case ZodNumber(_) => if '[' !in Text(path) && (depth > EXPRESSION_MAX_DEPTH || Text(path) == "") then 1 else 0
    case ZodBigInt => if '[' !in Text(path) then 1 else 0
    case ZodObject(shape) => MissedInShape(shape, path, depth + 1)
    case _ => 0
  }

  function MissedInShape(shape: seq<Property>, path: Path, depth: nat): nat
    decreases ShapeSize(shape)
  {
    if shape == [] then 0
    else
      var n := |shape| - 1;
      PropertySmaller(shape, n);
      MissedInShape(shape[..n], path, depth) + Missed(shape[n].schema, path + [Hop(false, shape[n].key)], depth)
  }

  /** How many it lists though they look like array elements: keys that hold a bracket. */
  function Extra(z: Zod, path: Path, depth: nat): nat
    decreases Size(z)
  {
    match Unwrapped(z).inner
    case ZodNumber(_) => if '[' in Text(path) && depth <= EXPRESSION_MAX_DEPTH then 1 else 0
    case ZodObject(shape) => ExtraInShape(shape, path, depth + 1)
    case _ => 0
  }

  function ExtraInShape(shape: seq<Property>, path: Path, depth: nat): nat
    decreases ShapeSize(shape)
  {
    if shape == [] then 0
    else
      var n := |shape| - 1;
      PropertySmaller(shape, n);
      ExtraInShape(shape[..n], path, depth) + Extra(shape[n].schema, path + [Hop(false, shape[n].key)], depth)
  }

  /** The two lists up to the fields only one of them has. */
  ghost predicate Tallies(numbers: seq<ExpressionField>, leaves: seq<ExpressionField>, missed: nat, extra: nat) {
    && |numbers| + extra == |leaves| + missed
    && (missed == 0 && extra == 0 ==> numbers == leaves)
    && (extra > 0 ==> exists i :: 0 <= i < |leaves| && '[' in leaves[i].path)
    && (forall i :: 0 <= i < |numbers| ==> '[' !in numbers[i].path)
  }

  lemma {:induction false} TalliesConcat(
    a: seq<ExpressionField>, b: seq<ExpressionField>, m: nat, e: nat, c: seq<ExpressionField>, d: seq<ExpressionField>,
    n: nat, f: nat)
    requires Tallies(a, b, m, e) && Tallies(c, d, n, f)
    ensures Tallies(a + c, b + d, m + n, e + f)
  {
    if e > 0 {
      var i :| 0 <= i < |b| && '[' in b[i].path;
      assert (b + d)[i] == b[i];
    } else if f > 0 {
      var i :| 0 <= i < |d| && '[' in d[i].path;
      assert (b + d)[|b| + i] == d[i];
    }
  }

  /** Beyond the limit nothing is listed. */
  lemma {:induction false} TooDeep(shape: seq<Property>, path: Path, depth: nat)
    requires depth > EXPRESSION_MAX_DEPTH
    ensures LeavesOfShape(shape, path, depth) == []
    decreases |shape|
  {
    if shape != [] {
      TooDeep(shape[..|shape| - 1], path, depth);
    }
  }

  lemma {:induction false} WalksTally(z: Zod, path: Path, depth: nat)
    ensures Tallies(Numbers(Describe(z, path)), Leaves(z, path, depth), Missed(z, path, depth), Extra(z, path, depth))
    decreases Size(z)
  {
    hide Text, Numbers;
    var r := Unwrapped(z);
    var self := SelfField(r, path);
    NumbersOne(self);
    match r.inner
    case ZodNumber(_) =>
      NumberTallies(z, path, depth);
    case ZodObject(shape) =>
      ShapesTally(shape, path, depth + 1);
      TooDeepObject(shape, path, depth);
      NumbersConcat([self], DescribeShape(shape, path, false));
      assert [] + Numbers(DescribeShape(shape, path, false)) == Numbers(DescribeShape(shape, path, false));
    case ZodArray(Some(element)) =>
      var e := Unwrapped(element).inner;
      if e.ZodObject? {
        UnderArrayShape(e.shape, path, true);
        NumbersConcat([self], DescribeShape(e.shape, path, true));
      }
    case _ =>
  }

  lemma {:induction false} TooDeepObject(shape: seq<Property>, path: Path, depth: nat)
    ensures depth > EXPRESSION_MAX_DEPTH ==> LeavesOfShape(shape, path, depth + 1) == []
  {
    if depth > EXPRESSION_MAX_DEPTH {
      TooDeep(shape, path, depth + 1);
    }
  }

  lemma {:induction false} NumberTallies(z: Zod, path: Path, depth: nat)
    requires Unwrapped(z).inner.ZodNumber?
    ensures Tallies(Numbers(Describe(z, path)), Leaves(z, path, depth), Missed(z, path, depth), Extra(z, path, depth))
  {
    hide Text, Numbers;
    NumbersOne(SelfField(Unwrapped(z), path));
    var leaves := Leaves(z, path, depth);
    if Extra(z, path, depth) > 0 {
      assert leaves == [ExpressionField(Text(path), Unwrapped(z).nullable)];
      assert '[' in leaves[0].path;
    }
  }

  lemma {:induction false} ShapesTally(shape: seq<Property>, path: Path, depth: nat)
    ensures Tallies(Numbers(DescribeShape(shape, path, false)), LeavesOfShape(shape, path, depth),
                    MissedInShape(shape, path, depth), ExtraInShape(shape, path, depth))
    decreases ShapeSize(shape)
  {
    hide Text, Describe, Leaves, Missed, Extra;
    if shape != [] {
      var n := |shape| - 1;
      var child := path + [Hop(false, shape[n].key)];
      PropertySmaller(shape, n);
      ShapesTally(shape[..n], path, depth);
      WalksTally(shape[n].schema, child, depth);
      NumbersConcat(DescribeShape(shape[..n], path, false), Describe(shape[n].schema, child));
      TalliesConcat(Numbers(DescribeShape(shape[..n], path, false)), LeavesOfShape(shape[..n], path, depth),
                    MissedInShape(shape[..n], path, depth), ExtraInShape(shape[..n], path, depth),
                    Numbers(Describe(shape[n].schema, child)), Leaves(shape[n].schema, child, depth),
                    Missed(shape[n].schema, child, depth), Extra(shape[n].schema, child, depth));
    }
  }

  /** The catalogs, sorted alike, are equal exactly when neither walk has a field of its own. */
  lemma {:induction false} CatalogsAgreeIff(z: Zod, localeBefore: (string, string) -> bool)
    ensures Sort(Numbers(Describe(z, [])), ByPath(localeBefore)) == Catalog(z, localeBefore)
      <==> Missed(z, [], 0) == 0 && Extra(z, [], 0) == 0
  {
    hide Describe, Leaves, Missed, Extra, Numbers, Sort;
    WalksTally(z, [], 0);
    var numbers, leaves := Numbers(Describe(z, [])), Leaves(z, [], 0);
    var order := ByPath(localeBefore);
    if Sort(numbers, order) == Sort(leaves, order) {
      SortPermutes(numbers, order);
      SortPermutes(leaves, order);
      forall i | 0 <= i < |leaves| ensures '[' !in leaves[i].path {
        assert leaves[i] in Sort(leaves, order);
        assert leaves[i] in numbers;
        var j :| 0 <= j < |numbers| && numbers[j] == leaves[i];
      }
      SameLength(numbers, leaves);
    }
  }

  // ---------------------------------------------------------------- the schemas the contracts use

  /**
   * Keys a dotted path can tell apart from an array element, no bigint, and objects nested no deeper than the limit.
   */
  predicate Ordinary(z: Zod, depth: nat)
    decreases Size(z)
  {
    match Unwrapped(z).inner
    case ZodNumber(_) => depth <= EXPRESSION_MAX_DEPTH
    case ZodBigInt => false
    case ZodObject(shape) => OrdinaryShape(shape, depth + 1)
    case _ => true
  }

  predicate OrdinaryShape(shape: seq<Property>, depth: nat)
    decreases ShapeSize(shape)
  {
    shape != [] ==>
      var n := |shape| - 1;
      PropertySmaller(shape, n);
      shape[n].key != "" && '[' !in shape[n].key && OrdinaryShape(shape[..n], depth) && Ordinary(shape[n].schema, depth)
  }

  lemma {:induction false} OrdinaryText(path: Path, key: string)
    requires '[' !in Text(path) && key != "" && '[' !in key
    ensures '[' !in Text(path + [Hop(false, key)]) && Text(path + [Hop(false, key)]) != ""
  {
    assert (path + [Hop(false, key)])[..|path|] == path;
  }

  lemma {:induction false} OrdinaryAgrees(z: Zod, path: Path, depth: nat)
    requires Ordinary(z, depth) && '[' !in Text(path) && (Text(path) == "" ==> !Unwrapped(z).inner.ZodNumber?)
    ensures Missed(z, path, depth) == 0 && Extra(z, path, depth) == 0
    decreases Size(z)
  {
    hide Text;
    if Unwrapped(z).inner.ZodObject? {
      OrdinaryShapeAgrees(Unwrapped(z).inner.shape, path, depth + 1);
    }
  }

  lemma {:induction false} OrdinaryShapeAgrees(shape: seq<Property>, path: Path, depth: nat)
    requires OrdinaryShape(shape, depth) && '[' !in Text(path)
    ensures MissedInShape(shape, path, depth) == 0 && ExtraInShape(shape, path, depth) == 0
    decreases ShapeSize(shape)
  {
    hide Text, Ordinary, Missed, Extra;
    if shape != [] {
      var n := |shape| - 1;
      PropertySmaller(shape, n);
      OrdinaryShapeAgrees(shape[..n], path, depth);
      OrdinaryText(path, shape[n].key);
      OrdinaryAgrees(shape[n].schema, path + [Hop(false, shape[n].key)], depth);
    }
  }

  /** On every object schema of that kind the two derivations give the same answer. */
  lemma {:induction false} OrdinarySchemasAgree(z: Zod, localeBefore: (string, string) -> bool)
    requires Ordinary(z, 0) && Unwrapped(z).inner.ZodObject?
    ensures Sort(Numbers(Describe(z, [])), ByPath(localeBefore)) == Catalog(z, localeBefore)
  {
    OrdinaryAgrees(z, [], 0);
    CatalogsAgreeIff(z, localeBefore);
  }
}

/**
 * Every described field stands in the generated JSON Schema (packages/contracts/src/events/catalog.ts, lines 434-466
 * and 581-642).
 */
module SchemaResolution {
  import opened Options
  import opened Sequences
  import opened ZodSchemas
  import opened EventFields
  import opened JsonSchemas

  /** The object node whose property a hop names. */
  function OwnerOf(node: Node, hop: Hop): Option<Node> {
    if !hop.ofElement then if node.ObjectNode? then Some(node) else None
    else if node.ArrayNode? && node.items.Some? && node.items.value.ObjectNode? then Some(node.items.value)
    else None
  }

  function PropertyOf(properties: seq<NodeProperty>, key: string): Option<Node> {
    if properties == [] then None
    else if properties[0].key == key then Some(properties[0].node)
    else PropertyOf(properties[1..], key)
  }

  /** What a path leads to: the node, and whether the object that holds it requires it. */
  datatype Place = Place(node: Node, required: bool)

  function Resolve(node: Node, path: Path): Option<Place>
    decreases |path|
  {
    if path == [] then Some(Place(node, true))
    else
      match OwnerOf(node, path[0])
      case None => None
      case Some(owner) =>
        match PropertyOf(owner.properties, path[0].key)
        case None => None
        case Some(child) =>
          if |path| == 1 then Some(Place(child, path[0].key in owner.required)) else Resolve(child, path[1..])
  }

  /** An object names each property once. */
  predicate WellKeyed(z: Zod)
    decreases Size(z)
  {
    match z
    case Wrap(_, wrapped) => wrapped.Some? ==> WellKeyed(wrapped.value)
    case ZodObject(shape) => WellKeyedShape(shape)
    case ZodArray(element) => element.Some? ==> WellKeyed(element.value)
    case _ => true
  }

  predicate WellKeyedShape(shape: seq<Property>)
    decreases ShapeSize(shape)
  {
    shape != [] ==>
      var n := |shape| - 1;
      PropertySmaller(shape, n);
      (forall i :: 0 <= i < n ==> shape[i].key != shape[n].key) && WellKeyedShape(shape[..n]) &&
        WellKeyed(shape[n].schema)
  }

  lemma {:induction false} PeelWellKeyed(z: Zod, guard: nat)
    requires WellKeyed(z)
    ensures WellKeyed(Peel(z, guard).inner)
  {
    if guard > 0 && z.Wrap? && z.wrapped.Some? {
      PeelWellKeyed(z.wrapped.value, guard - 1);
    }
  }

  /** The node says of itself what the field says: its kind, and whether it may be null. */
  predicate Fits(f: Field, node: Node) {
    match f.kind
    case StringKind => node == LeafNode(TypesOf("string", f.nullable), None, None)
    case NumberKind =>
      exists name :: name in ["integer", "number"] && node == LeafNode(TypesOf(name, f.nullable), None, None)
    case BooleanKind => node == LeafNode(TypesOf("boolean", f.nullable), None, None)
    case DateKind => node == LeafNode(TypesOf("string", f.nullable), Some("date-time"), None)
    case EnumKind => node == LeafNode(TypesOf("string", f.nullable), None, f.values) && f.values.Some?
    case ObjectKind => node.ObjectNode? && node.types == TypesOf("object", f.nullable)
    case ArrayKind => node.ArrayNode? && node.types == TypesOf("array", f.nullable)
    case RecordKind => node.MapNode? && node.types == TypesOf("object", f.nullable)
    case UnknownKind => node.AnyNode? || node.ConstNode?
  }

  lemma {:induction false} SelfFits(z: Zod, path: Path)
    ensures Fits(SelfField(Unwrapped(z), path), Json(z))
  {
    hide Peel, TypesOf;
    var r := Unwrapped(z);
    if r.inner.ZodNumber? || r.inner.ZodBigInt? {
      var name := if r.inner.ZodNumber? && r.inner.isInt then "integer" else "number";
      assert name in ["integer", "number"];
      assert Json(z) == LeafNode(TypesOf(name, r.nullable), None, None);
    }
  }

  lemma {:induction false} PropertyFound(shape: seq<Property>, i: nat)
    requires WellKeyedShape(shape) && i < |shape|
    ensures PropertyOf(JsonProperties(shape), shape[i].key) == Some(Json(shape[i].schema))
    ensures shape[i].key in RequiredOf(shape) <==> !Unwrapped(shape[i].schema).optional
    decreases |shape|
  {
    hide Json, Unwrapped, WellKeyed;
    var n := |shape| - 1;
    PropertiesLast(JsonProperties(shape[..n]), NodeProperty(shape[n].key, Json(shape[n].schema)), shape[i].key);
    RequiredOnly(shape[..n], shape[n].key);
    if i < n {
      PropertyFound(shape[..n], i);
      assert shape[..n][i] == shape[i];
    } else {
      PropertyAbsent(shape[..n], shape[n].key);
    }
  }

  lemma {:induction false} PropertiesLast(properties: seq<NodeProperty>, last: NodeProperty, key: string)
    ensures PropertyOf(properties + [last], key) ==
      if PropertyOf(properties, key).Some? then PropertyOf(properties, key)
      else if last.key == key then Some(last.node) else None
  {
    if properties != [] {
      assert (properties + [last])[1..] == properties[1..] + [last];
      PropertiesLast(properties[1..], last, key);
    } else {
      assert properties + [last] == [last] && [last][1..] == [];
    }
  }

  lemma {:induction false} PropertyAbsent(shape: seq<Property>, key: string)
    requires forall i :: 0 <= i < |shape| ==> shape[i].key != key
    ensures PropertyOf(JsonProperties(shape), key) == None
    decreases |shape|
  {
    hide Json;
    if shape != [] {
      var n := |shape| - 1;
      PropertyAbsent(shape[..n], key);
      PropertiesLast(JsonProperties(shape[..n]), NodeProperty(shape[n].key, Json(shape[n].schema)), key);
    }
  }

  lemma {:induction false} RequiredOnly(shape: seq<Property>, key: string)
    requires forall i :: 0 <= i < |shape| ==> shape[i].key != key
    ensures key !in RequiredOf(shape)
  {
    hide Unwrapped;
    if shape != [] {
      RequiredOnly(shape[..|shape| - 1], key);
    }
  }

  /** The field stands at the rest of its path below the node, fits what is there, and is optional there as it says. */
  ghost predicate Stands(f: Field, path: Path, node: Node) {
    && path <= f.path
    && var place := Resolve(node, f.path[|path|..]);
       place.Some? && Fits(f, place.value.node) && (f.path != path ==> (f.optional <==> !place.value.required))
  }

  ghost predicate AllStand(fields: seq<Field>, path: Path, node: Node) {
    forall i :: 0 <= i < |fields| ==> Stands(fields[i], path, node)
  }

  lemma {:induction false} SelfStands(z: Zod, path: Path)
    ensures Stands(SelfField(Unwrapped(z), path), path, Json(z))
  {
    hide Fits, Json, Unwrapped;
    SelfFits(z, path);
    assert path[|path|..] == [];
  }

  /** Only the first field of a described child can be the child itself. */
  ghost predicate OwnAnswer(fields: seq<Field>, path: Path, optional: bool) {
    forall i :: 0 <= i < |fields| ==>
      path <= fields[i].path && (fields[i].path == path ==> fields[i].optional == optional)
  }

  lemma {:induction false} ChildStands(
    f: Field, path: Path, hop: Hop, node: Node, owner: Node, child: Node, optional: bool)
    requires OwnerOf(node, hop) == Some(owner) && PropertyOf(owner.properties, hop.key) == Some(child)
    requires Stands(f, path + [hop], child) && (f.path == path + [hop] ==> f.optional == optional)
    requires hop.key in owner.required <==> !optional
    ensures Stands(f, path, node)
  {
    hide Fits;
    var rest := f.path[|path|..];
    assert f.path[|path|] == (path + [hop])[|path|] == hop;
    assert rest[0] == hop && rest[1..] == f.path[|path| + 1..];
    assert path <= f.path;
    if f.path == path + [hop] {
      assert |rest| == 1;
      assert f.path[|path| + 1..] == [];
    } else {
      assert |f.path| > |path| + 1;
    }
  }

  lemma {:induction false} DescribeStands(z: Zod, path: Path)
    requires WellKeyed(z)
    ensures AllStand(Describe(z, path), path, Json(z))
    ensures OwnAnswer(Describe(z, path), path, Unwrapped(z).optional)
    decreases Size(z)
  {
    hide Text, Fits, Stands, OwnerOf, TypesOf, Resolve;
    var r := Unwrapped(z);
    PeelWellKeyed(z, GUARD);
    SelfStands(z, path);
    match r.inner
    case ZodObject(shape) =>
      OwnNode(z);
      ShapeStands(shape, path, false, Json(z), Json(z));
    case ZodArray(Some(element)) =>
      PeelWellKeyed(element, GUARD);
      var e := Unwrapped(element).inner;
      if e.ZodObject? {
        ElementNode(z, element);
        ShapeStands(e.shape, path, true, Json(z), Json(element));
      }
    case _ =>
  }

  lemma {:induction false} OwnNode(z: Zod)
    requires Unwrapped(z).inner.ZodObject?
    ensures var shape := Unwrapped(z).inner.shape;
            Json(z).ObjectNode? && Json(z).properties == JsonProperties(shape) && Json(z).required == RequiredOf(shape)
    ensures forall key :: OwnerOf(Json(z), Hop(false, key)) == Some(Json(z))
  {
  }

  lemma {:induction false} ElementNode(z: Zod, element: Zod)
    requires Unwrapped(z).inner == ZodArray(Some(element)) && Unwrapped(element).inner.ZodObject?
    ensures var shape := Unwrapped(element).inner.shape;
            Json(element).ObjectNode? && Json(element).properties == JsonProperties(shape) &&
              Json(element).required == RequiredOf(shape)
    ensures forall key :: OwnerOf(Json(z), Hop(true, key)) == Some(Json(element))
  {
    OwnNode(element);
  }

  lemma {:induction false} ShapeStands(shape: seq<Property>, path: Path, ofElement: bool, node: Node, owner: Node)
    requires WellKeyedShape(shape) && owner.ObjectNode?
    requires forall key :: OwnerOf(node, Hop(ofElement, key)) == Some(owner)
    requires owner.properties == JsonProperties(shape) && owner.required == RequiredOf(shape)
    ensures AllStand(DescribeShape(shape, path, ofElement), path, node)
    ensures forall i :: 0 <= i < |DescribeShape(shape, path, ofElement)| ==>
              path < DescribeShape(shape, path, ofElement)[i].path
    decreases ShapeSize(shape), 1
  {
    hide JsonProperties, RequiredOf, OwnerOf, Stands, DescribeShape;
    PropertiesStand(shape, |shape|, path, ofElement, node, owner);
    assert shape[..|shape|] == shape;
  }

  lemma {:induction false} PropertiesStand(
    shape: seq<Property>, n: nat, path: Path, ofElement: bool, node: Node, owner: Node)
    requires WellKeyedShape(shape) && owner.ObjectNode? && n <= |shape|
    requires forall key :: OwnerOf(node, Hop(ofElement, key)) == Some(owner)
    requires owner.properties == JsonProperties(shape) && owner.required == RequiredOf(shape)
    ensures var fields := DescribeShape(shape[..n], path, ofElement);
            AllStand(fields, path, node) && forall i :: 0 <= i < |fields| ==> path < fields[i].path
    decreases ShapeSize(shape), 0, n
  {
    hide JsonProperties, RequiredOf, OwnerOf, Stands, Describe, Json;
    if n > 0 {
      PropertiesStand(shape, n - 1, path, ofElement, node, owner);
      var p, hop := shape[n - 1], Hop(ofElement, shape[n - 1].key);
      assert shape[..n][..n - 1] == shape[..n - 1];
      PropertySmaller(shape, n - 1);
      WellKeyedChild(shape, n - 1);
      DescribeStands(p.schema, path + [hop]);
      PropertyFound(shape, n - 1);
      var fields := Describe(p.schema, path + [hop]);
      forall i | 0 <= i < |fields| ensures Stands(fields[i], path, node) && path < fields[i].path {
        assert path < path + [hop];
        ChildStands(fields[i], path, hop, node, owner, Json(p.schema), Unwrapped(p.schema).optional);
      }
    }
  }

  lemma {:induction false} WellKeyedChild(shape: seq<Property>, i: nat)
    requires WellKeyedShape(shape) && i < |shape|
    ensures WellKeyed(shape[i].schema)
    decreases |shape|
  {
    hide WellKeyed;
    if i < |shape| - 1 {
      WellKeyedChild(shape[..|shape| - 1], i);
    }
  }

  /**
   * Every field the catalogue describes resolves in its JSON Schema, with the same type, nullability and optionality.
   */
  lemma {:induction false} FieldsResolve(z: Zod, f: Field)
    requires WellKeyed(z) && f in Describe(z, [])
    ensures var place := Resolve(Json(z), f.path);
            place.Some? && Fits(f, place.value.node) && (f.path != [] ==> (f.optional <==> !place.value.required))
  {
    hide Describe, Fits, Resolve;
    DescribeStands(z, []);
    assert f.path[0..] == f.path;
  }
}
