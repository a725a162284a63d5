/**
 * Zod schemas as the two walks see them, and the wrappers both peel (packages/contracts/src/events/catalog.ts, lines
 * 361-430).
 */
module ZodSchemas {
  import opened Options

  datatype Wrapper = Optional | Default | Catch | Nullable | Readonly | Effects

  /** A schema node; a wrapper, an array or a record may lack its inner schema. */
  datatype Zod =
    | Wrap(wrapper: Wrapper, wrapped: Option<Zod>)
    | ZodString
    | ZodNumber(isInt: bool)
    | ZodBigInt
    | ZodBoolean
    | ZodDate
    | ZodEnum(values: seq<string>)
    | ZodLiteral(value: string)
    | ZodObject(shape: seq<Property>)
    | ZodArray(element: Option<Zod>)
    | ZodRecord(entry: Option<Zod>)
    | ZodOther

  datatype Property = Property(key: string, schema: Zod)

  function Size(z: Zod): nat {
    match z
    case Wrap(_, wrapped) => 1 + (if wrapped.Some? then Size(wrapped.value) else 0)
    case ZodObject(shape) => 1 + ShapeSize(shape)
    case ZodArray(element) => 1 + (if element.Some? then Size(element.value) else 0)
    case ZodRecord(entry) => 1 + (if entry.Some? then Size(entry.value) else 0)
    case _ => 1
  }

  function ShapeSize(shape: seq<Property>): nat {
    if shape == [] then 0 else ShapeSize(shape[..|shape| - 1]) + 1 + Size(shape[|shape| - 1].schema)
  }

  lemma {:induction false} PropertySmaller(shape: seq<Property>, i: nat)
    requires i < |shape|
    ensures Size(shape[i].schema) < ShapeSize(shape)
  {
    if i < |shape| - 1 {
      PropertySmaller(shape[..|shape| - 1], i);
    }
  }

  datatype Peeled = Peeled(inner: Zod, optional: bool, nullable: bool)

  predicate MakesOptional(w: Wrapper) {
    w == Optional || w == Default
  }

  const GUARD: nat := 20

  /** What is left after peeling at most `guard` wrappers. */
  function Peel(z: Zod, guard: nat): (r: Peeled)
    ensures Size(r.inner) <= Size(z)
  {
    if guard == 0 || !z.Wrap? then Peeled(z, false, false)
    else if z.wrapped.None? then Peeled(z, MakesOptional(z.wrapper), z.wrapper == Nullable)
    else
      var r := Peel(z.wrapped.value, guard - 1);
      Peeled(r.inner, MakesOptional(z.wrapper) || r.optional, z.wrapper == Nullable || r.nullable)
  }

  function Unwrapped(z: Zod): Peeled {
    Peel(z, GUARD)
  }

  /** `unwrap` of the event catalogue. */
  method UnwrapForEvents(z: Zod) returns (inner: Zod, optional: bool, nullable: bool)
    ensures Peeled(inner, optional, nullable) == Unwrapped(z)
  {
    inner, optional, nullable := z, false, false;
    for guard := 0 to GUARD
      invariant var rest := Peel(inner, GUARD - guard);
                Unwrapped(z) == Peeled(rest.inner, optional || rest.optional, nullable || rest.nullable)
    {
      if !inner.Wrap? {
        return;
      }
      match inner.wrapper {
        case Optional | Default | Catch => optional := optional || inner.wrapper != Catch;
        case Nullable => nullable := true;
        case Readonly | Effects =>
      }
      if inner.wrapped.None? {
        return;
      }
      inner := inner.wrapped.value;
    }
  }

  /** `unwrap` of the expression catalog: the same wrappers, without the optional answer. */
  method UnwrapForExpressions(z: Zod) returns (inner: Zod, nullable: bool)
    ensures inner == Unwrapped(z).inner && nullable == Unwrapped(z).nullable
  {
    inner, nullable := z, false;
    for guard := 0 to GUARD
      invariant var rest := Peel(inner, GUARD - guard);
                Unwrapped(z).inner == rest.inner && Unwrapped(z).nullable == (nullable || rest.nullable)
    {
      if !inner.Wrap? {
        return;
      }
      if inner.wrapper == Nullable {
        nullable := true;
      }
      if inner.wrapped.None? {
        return;
      }
      inner := inner.wrapped.value;
    }
  }
}

/** `describeField` (packages/contracts/src/events/catalog.ts, lines 417-466). */
module EventFields {
  import opened Options
  import opened ZodSchemas

  datatype Kind =
    | StringKind | NumberKind | BooleanKind | DateKind | EnumKind | ObjectKind | ArrayKind | RecordKind | UnknownKind

  /** One step of a field path: a key, of the value itself or of the elements of the array it is. */
  datatype Hop = Hop(ofElement: bool, key: string)

  type Path = seq<Hop>

  datatype Field = Field(path: Path, kind: Kind, optional: bool, nullable: bool, values: Option<seq<string>>)

  /** The dotted text of a path; array elements are addressed as `items[].name`. */
  function Text(path: Path): string {
    if path == [] then ""
    else
      var before, last := Text(path[..|path| - 1]), path[|path| - 1];
      if last.ofElement then before + "[]." + last.key
      else if before == "" then last.key
      else before + "." + last.key
  }

  function KindOf(z: Zod): Kind {
    match z
    case ZodString => StringKind
    case ZodNumber(_) => NumberKind
    case ZodBigInt => NumberKind
    case ZodBoolean => BooleanKind
    case ZodDate => DateKind
    case ZodEnum(_) => EnumKind
    case ZodObject(_) => ObjectKind
    case ZodArray(_) => ArrayKind
    case ZodRecord(_) => RecordKind
    case _ => UnknownKind
  }

  function SelfField(r: Peeled, path: Path): Field {
    Field(path, KindOf(r.inner), r.optional, r.nullable, if r.inner.ZodEnum? then Some(r.inner.values) else None)
  }

  /** `describeField`; the root object is the payload itself, not a field of it. */
  function Describe(z: Zod, path: Path): seq<Field>
    decreases Size(z)
  {
    var r := Unwrapped(z);
    match r.inner
    case ZodObject(shape) =>
      var children := DescribeShape(shape, path, false);
      if Text(path) == "" then children else [SelfField(r, path)] + children
    case ZodArray(Some(element)) =>
      var e := Unwrapped(element).inner;
      if e.ZodObject? then [SelfField(r, path)] + DescribeShape(e.shape, path, true) else [SelfField(r, path)]
    case _ => [SelfField(r, path)]
  }

  function DescribeShape(shape: seq<Property>, path: Path, ofElement: bool): seq<Field>
    decreases ShapeSize(shape)
  {
    if shape == [] then []
    else
      var n := |shape| - 1;
      PropertySmaller(shape, n);
      DescribeShape(shape[..n], path, ofElement) + Describe(shape[n].schema, path + [Hop(ofElement, shape[n].key)])
  }
}

/** `toJsonSchemaNode` (packages/contracts/src/events/catalog.ts, lines 567-642). */
module JsonSchemas {
  import opened Options
  import opened ZodSchemas

  /** A JSON Schema: its type names, and what its kind adds. */
  datatype Node =
    | AnyNode
    | ConstNode(value: string)
    | LeafNode(types: seq<string>, format: Option<string>, values: Option<seq<string>>)
    | ObjectNode(types: seq<string>, properties: seq<NodeProperty>, required: seq<string>)
    | ArrayNode(types: seq<string>, items: Option<Node>)
    | MapNode(types: seq<string>, entries: Option<Node>)

  datatype NodeProperty = NodeProperty(key: string, node: Node)

  /** `withNull`: a node that names its type names `null` too. */
  function TypesOf(name: string, nullable: bool): seq<string> {
    if nullable then [name, "null"] else [name]
  }

  function Json(z: Zod): Node
    decreases Size(z)
  {
    var r := Unwrapped(z);
    match r.inner
    case ZodString => LeafNode(TypesOf("string", r.nullable), None, None)
    case ZodNumber(isInt) => LeafNode(TypesOf(if isInt then "integer" else "number", r.nullable), None, None)
    case ZodBigInt => LeafNode(TypesOf("number", r.nullable), None, None)
    case ZodBoolean => LeafNode(TypesOf("boolean", r.nullable), None, None)
    case ZodDate => LeafNode(TypesOf("string", r.nullable), Some("date-time"), None)
    case ZodEnum(values) => LeafNode(TypesOf("string", r.nullable), None, Some(values))
    case ZodLiteral(value) => ConstNode(value)
    case ZodObject(shape) => ObjectNode(TypesOf("object", r.nullable), JsonProperties(shape), RequiredOf(shape))
    case ZodArray(element) => ArrayNode(TypesOf("array", r.nullable),
      if element.Some? then Some(Json(element.value)) else None)
    case ZodRecord(entry) => MapNode(TypesOf("object", r.nullable),
      if entry.Some? then Some(Json(entry.value)) else None)
    case _ => AnyNode
  }

  function JsonProperties(shape: seq<Property>): seq<NodeProperty>
    decreases ShapeSize(shape)
  {
    if shape == [] then []
    else
      var n := |shape| - 1;
      PropertySmaller(shape, n);
      JsonProperties(shape[..n]) + [NodeProperty(shape[n].key, Json(shape[n].schema))]
  }

  function RequiredOf(shape: seq<Property>): seq<string> {
    if shape == [] then []
    else
      var n := |shape| - 1;
      RequiredOf(shape[..n]) + (if Unwrapped(shape[n].schema).optional then [] else [shape[n].key])
  }

  /** `toJsonSchemaNode` */
  method ToJsonSchemaNode(z: Zod) returns (node: Node)
    ensures node == Json(z)
    decreases Size(z)
  {
    var inner, optional, nullable := UnwrapForEvents(z);
    match inner {
      case ZodString => node := LeafNode(TypesOf("string", nullable), None, None);
      case ZodNumber(isInt) => node := LeafNode(TypesOf(if isInt then "integer" else "number", nullable), None, None);
      case ZodBigInt => node := LeafNode(TypesOf("number", nullable), None, None);
      case ZodBoolean => node := LeafNode(TypesOf("boolean", nullable), None, None);
      case ZodDate => node := LeafNode(TypesOf("string", nullable), Some("date-time"), None);
      case ZodEnum(values) => node := LeafNode(TypesOf("string", nullable), None, Some(values));
      case ZodLiteral(value) => node := ConstNode(value);
      case ZodObject(shape) =>
        var properties, required := FillProperties(shape);
        node := ObjectNode(TypesOf("object", nullable), properties, required);
      case ZodArray(Some(element)) =>
        var items := ToJsonSchemaNode(element);
        node := ArrayNode(TypesOf("array", nullable), Some(items));
      case ZodArray(None) => node := ArrayNode(TypesOf("array", nullable), None);
      case ZodRecord(Some(entry)) =>
        var entries := ToJsonSchemaNode(entry);
        node := MapNode(TypesOf("object", nullable), Some(entries));
      case ZodRecord(None) => node := MapNode(TypesOf("object", nullable), None);
      case _ => node := AnyNode;
    }
  }

  method FillProperties(shape: seq<Property>) returns (properties: seq<NodeProperty>, required: seq<string>)
    ensures properties == JsonProperties(shape) && required == RequiredOf(shape)
    decreases ShapeSize(shape)
  {
    properties, required := [], [];
    for i := 0 to |shape|
      invariant properties == JsonProperties(shape[..i]) && required == RequiredOf(shape[..i])
    {
      PropertySmaller(shape, i);
      assert shape[..i + 1][..i] == shape[..i];
      var node := ToJsonSchemaNode(shape[i].schema);
      properties := properties + [NodeProperty(shape[i].key, node)];
      var inner, optional, nullable := UnwrapForEvents(shape[i].schema);
      if !optional {
        required := required + [shape[i].key];
      }
    }
    assert shape[..|shape|] == shape;
  }
}

/** `numericLeaves` and the catalog (packages/contracts/src/expression/field-catalog.ts, lines 111-147). */
module ExpressionFields {
  import opened Options
  import opened Sequences
  import opened ZodSchemas
  import opened EventFields

  const EXPRESSION_MAX_DEPTH: nat := 12

  datatype ExpressionField = ExpressionField(path: string, nullable: bool)

  function Leaves(z: Zod, path: Path, depth: nat): seq<ExpressionField>
    decreases Size(z)
  {
    var r := Unwrapped(z);
    if depth > EXPRESSION_MAX_DEPTH then []
    else
      match r.inner
      case ZodNumber(_) => if Text(path) != "" then [ExpressionField(Text(path), r.nullable)] else []
      case ZodObject(shape) => LeavesOfShape(shape, path, depth + 1)
      case _ => []
  }

  function LeavesOfShape(shape: seq<Property>, path: Path, depth: nat): seq<ExpressionField>
    decreases ShapeSize(shape)
  {
    if shape == [] then []
    else
      var n := |shape| - 1;
      PropertySmaller(shape, n);
      LeavesOfShape(shape[..n], path, depth) + Leaves(shape[n].schema, path + [Hop(false, shape[n].key)], depth)
  }

  /** `numericLeaves`: pushes into `out`, which carries the text of each path. */
  method NumericLeaves(z: Zod, path: Path, depth: nat, before: seq<ExpressionField>) returns (out: seq<ExpressionField>)
    ensures out == before + Leaves(z, path, depth)
    decreases Size(z), 0
  {
    out := before;
    if depth > EXPRESSION_MAX_DEPTH {
      return;
    }
    var inner, nullable := UnwrapForExpressions(z);
    match inner {
      case ZodNumber(_) =>
        if Text(path) != "" {
          out := out + [ExpressionField(Text(path), nullable)];
        }
      case ZodObject(shape) =>
        for i := 0 to |shape|
          invariant out == before + LeavesOfShape(shape[..i], path, depth + 1)
        {
          PropertySmaller(shape, i);
          assert shape[..i + 1][..i] == shape[..i];
          out := NumericLeaves(shape[i].schema, path + [Hop(false, shape[i].key)], depth + 1, out);
        }
        assert shape[..|shape|] == shape;
      case _ =>
    }
  }

  /** Paths in the order the locale gives their text. */
  function ByPath(localeBefore: (string, string) -> bool): (ExpressionField, ExpressionField) -> bool {
    (a: ExpressionField, b: ExpressionField) => localeBefore(a.path, b.path)
  }

  function Catalog(z: Zod, localeBefore: (string, string) -> bool): seq<ExpressionField> {
    Sort(Leaves(z, [], 0), ByPath(localeBefore))
  }

  /** `expressionCatalogFromSchema` */
  method ExpressionCatalogFromSchema(
    z: Zod, localeBefore: (string, string) -> bool) returns (fields: seq<ExpressionField>)
    ensures fields == Catalog(z, localeBefore)
  {
    fields := NumericLeaves(z, [], 0, []);
    assert [] + Leaves(z, [], 0) == Leaves(z, [], 0);
    fields := Sort(fields, ByPath(localeBefore));
  }
}
