/**
 * Every place a document names a department, and the updates that repoint it
 * (apps/api/src/org-catalog-migration/references.ts).
 *
 * Documents are trees and schemas are trees of declared paths; the update operators are the parts
 * of MongoDB's `$set` and `arrayFilters` the migration uses.
 */
module References {
  import opened Options
  import opened Sequences
  import opened OrgRows

  datatype Value =
    | Null
    | Ref(id: Id)
    | Text(text: string)
    | Flag(on: bool)
    | Arr(items: seq<Value>)
    | Obj(fields: map<string, Value>)

  type Path = seq<string>

  /** A declared path; a plain nested object is declared like a sub-schema, with the same dotted path. */
  datatype Type =
    | ObjectIdType
    | IdArrayType
    | SubType(schema: seq<Field>)
    | SubArrayType(schema: seq<Field>)
    | OtherType

  datatype Field = Field(name: string, kind: Type)

  datatype RefPath =
    | ScalarRef(path: Path)
    | IdArrayRef(path: Path)
    | DocumentArrayRef(path: Path, arrayPath: Path, tailPath: Path)

  predicate IsDepartmentScalar(name: string) {
    name == "departmentId"
  }

  predicate IsDepartmentArray(name: string) {
    |name| >= 13 && name[|name| - 13..] == "DepartmentIds"
  }

  // ---------------------------------------------------------------- collecting the paths

  function Under(prefix: Path, r: RefPath): RefPath {
    match r
    case ScalarRef(path) => ScalarRef(prefix + path)
    case IdArrayRef(path) => IdArrayRef(prefix + path)
    case DocumentArrayRef(path, arrayPath, tailPath) => DocumentArrayRef(prefix + path, prefix + arrayPath, tailPath)
  }

  /** A reference inside one element of the array at `arrayPath`: whatever it was, it is flattened to this. */
  function InElement(arrayPath: Path, r: RefPath): RefPath {
    DocumentArrayRef(arrayPath + r.path, arrayPath, r.path)
  }

  function AllUnder(prefix: Path, rs: seq<RefPath>): seq<RefPath> {
    seq(|rs|, i requires 0 <= i < |rs| => Under(prefix, rs[i]))
  }

  function AllInElement(arrayPath: Path, rs: seq<RefPath>): seq<RefPath> {
    seq(|rs|, i requires 0 <= i < |rs| => InElement(arrayPath, rs[i]))
  }

  /** The department references a schema declares, relative to the document it describes. */
  function Refs(fields: seq<Field>): seq<RefPath>
    decreases fields, 0
  {
    if fields == [] then []
    else Refs(fields[..|fields| - 1]) + RefsOf(fields[|fields| - 1])
  }

  function RefsOf(field: Field): seq<RefPath>
    decreases field, 1
  {
    match field.kind
    case ObjectIdType => if IsDepartmentScalar(field.name) then [ScalarRef([field.name])] else []
    case IdArrayType => if IsDepartmentArray(field.name) then [IdArrayRef([field.name])] else []
    case SubType(schema) => AllUnder([field.name], Refs(schema))
    case SubArrayType(schema) => AllInElement([field.name], Refs(schema))
    case OtherType => []
  }

  lemma {:induction false} UnderUnder(prefix: Path, name: string, rs: seq<RefPath>)
    ensures AllUnder(prefix, AllUnder([name], rs)) == AllUnder(prefix + [name], rs)
  {
    forall i | 0 <= i < |rs| ensures Under(prefix, Under([name], rs[i])) == Under(prefix + [name], rs[i]) {
      assert prefix + ([name] + rs[i].path) == prefix + [name] + rs[i].path;
      if rs[i].DocumentArrayRef? {
        assert prefix + ([name] + rs[i].arrayPath) == prefix + [name] + rs[i].arrayPath;
      }
    }
  }

  lemma {:induction false} UnderInElement(prefix: Path, name: string, rs: seq<RefPath>)
    ensures AllUnder(prefix, AllInElement([name], rs)) == AllInElement(prefix + [name], rs)
  {
    forall i | 0 <= i < |rs|
      ensures Under(prefix, InElement([name], rs[i])) == InElement(prefix + [name], rs[i])
    {
      assert prefix + ([name] + rs[i].path) == prefix + [name] + rs[i].path;
    }
  }

  /** `collectRefPaths`: the walk over `schema.paths`, sub-schemas first recursed into. */
  method CollectRefPaths(fields: seq<Field>, prefix: Path) returns (out: seq<RefPath>)
    ensures out == AllUnder(prefix, Refs(fields))
    decreases fields
  {
    out := [];
    for n := 0 to |fields|
      invariant out == AllUnder(prefix, Refs(fields[..n]))
    {
      var field := fields[n];
      var path := prefix + [field.name];
      assert fields[..n + 1][..n] == fields[..n];
      var before := Refs(fields[..n]);
      assert Refs(fields[..n + 1]) == before + RefsOf(field);
      assert AllUnder(prefix, before + RefsOf(field)) == AllUnder(prefix, before) + AllUnder(prefix, RefsOf(field));
      match field.kind {
        case SubType(schema) =>
          var inner := CollectRefPaths(schema, path);
          UnderUnder(prefix, field.name, Refs(schema));
          out := out + inner;
        case SubArrayType(schema) =>
          var inner := CollectRefPaths(schema, path);
          var flattened := seq(|inner|, i requires 0 <= i < |inner| =>
            DocumentArrayRef(inner[i].path, path, TailOf(inner[i].path, path)));
          UnderInElement(prefix, field.name, Refs(schema));
          FlattenedIs(path, Refs(schema), inner, flattened);
          out := out + flattened;
        case ObjectIdType =>
          if IsDepartmentScalar(field.name) {
            out := out + [ScalarRef(path)];
          }
        case IdArrayType =>
          if IsDepartmentArray(field.name) {
            out := out + [IdArrayRef(path)];
          }
        case OtherType =>
      }
    }
    assert fields[..|fields|] == fields;
  }

  /** `ref.path.slice(path.length + 1)` */
  function TailOf(path: Path, arrayPath: Path): Path {
    if |arrayPath| <= |path| then path[|arrayPath|..] else []
  }

  lemma {:induction false} FlattenedIs(path: Path, rs: seq<RefPath>, inner: seq<RefPath>, flattened: seq<RefPath>)
    requires inner == AllUnder(path, rs) && |flattened| == |inner|
    requires forall i :: 0 <= i < |inner| ==>
               flattened[i] == DocumentArrayRef(inner[i].path, path, TailOf(inner[i].path, path))
    ensures flattened == AllInElement(path, rs)
  {
    forall i | 0 <= i < |rs| ensures flattened[i] == InElement(path, rs[i]) {
      assert inner[i] == Under(path, rs[i]);
      assert (path + rs[i].path)[|path|..] == rs[i].path;
    }
  }

  // ---------------------------------------------------------------- the update operators

  /** `{[path]: id}`: a dotted path matches through arrays of sub-documents, and an array by its elements. */
  predicate Matches(v: Value, path: Path, id: Id)
    decreases |path|
  {
    if path == [] then v == Ref(id) || (v.Arr? && Ref(id) in v.items)
    else if v.Obj? then path[0] in v.fields && Matches(v.fields[path[0]], path[1..], id)
    else if v.Arr? then
      exists i :: 0 <= i < |v.items| && v.items[i].Obj? && path[0] in v.items[i].fields &&
        Matches(v.items[i].fields[path[0]], path[1..], id)
    else false
  }

  /** The nested document `$set` creates where none stands. */
  function Nest(path: Path, w: Value): Value {
    if path == [] then w else Obj(map[path[0] := Nest(path[1..], w)])
  }

  /** `$set {path: w}`; an array or a scalar on the way makes the write fail. */
  function SetAt(v: Value, path: Path, w: Value): Option<Value>
    decreases |path|
  {
    if path == [] then Some(w)
    else if !v.Obj? then None
    else if path[0] !in v.fields then Some(Obj(v.fields[path[0] := Nest(path[1..], w)]))
    else
      match SetAt(v.fields[path[0]], path[1..], w)
      case Some(child) => Some(Obj(v.fields[path[0] := child]))
      case None => None
  }

  /** One array element under `$[element].tail` with the filter `element.tail == loser`. */
  function SetInElement(item: Value, tail: Path, loser: Id, winner: Id): Option<Value> {
    if Matches(item, tail, loser) then SetAt(item, tail, Ref(winner)) else Some(item)
  }

  function SetInElements(items: seq<Value>, tail: Path, loser: Id, winner: Id): (r: Option<seq<Value>>)
    ensures r.Some? ==> |r.value| == |items|
  {
    if items == [] then Some([])
    else
      match (SetInElement(items[0], tail, loser, winner), SetInElements(items[1..], tail, loser, winner))
      case (Some(item), Some(rest)) => Some([item] + rest)
      case _ => None
  }

  /** `$set {arrayPath.$[element].tail: winner}`; the path must lead to an array. */
  function SetPositional(v: Value, arrayPath: Path, tail: Path, loser: Id, winner: Id): Option<Value>
    decreases |arrayPath|
  {
    if arrayPath == [] then
      if !v.Arr? then None
      else
        match SetInElements(v.items, tail, loser, winner)
        case Some(items) => Some(Arr(items))
        case None => None
    else if !v.Obj? || arrayPath[0] !in v.fields then None
    else
      match SetPositional(v.fields[arrayPath[0]], arrayPath[1..], tail, loser, winner)
      case Some(child) => Some(Obj(v.fields[arrayPath[0] := child]))
      case None => None
  }

  datatype Update = SetScalar(path: Path) | SetElements(arrayPath: Path, tailPath: Path)

  /** `repointUpdate`: the update that rewrites a reference of this shape, or nothing. */
  function RepointUpdate(ref: RefPath): Option<Update> {
    match ref
    case ScalarRef(path) => Some(SetScalar(path))
    case IdArrayRef(path) => Some(SetElements(path, []))
    case DocumentArrayRef(_, arrayPath, tailPath) =>
      if arrayPath == [] || tailPath == [] then None else Some(SetElements(arrayPath, tailPath))
  }

  /** `updateMany({[path]: loser}, update)` on one document. `None` is a failed write. */
  function Repoint(doc: Value, ref: RefPath, loser: Id, winner: Id): Option<Value> {
    if !Matches(doc, ref.path, loser) then Some(doc)
    else
      match RepointUpdate(ref)
      case None => Some(doc)
      case Some(SetScalar(path)) => SetAt(doc, path, Ref(winner))
      case Some(SetElements(arrayPath, tail)) => SetPositional(doc, arrayPath, tail, loser, winner)
  }

  /** One document through every sweep of one merge, in order. */
  function Sweep(doc: Value, refs: seq<RefPath>, loser: Id, winner: Id): Option<Value>
    decreases |refs|
  {
    if refs == [] then Some(doc)
    else
      match Repoint(doc, refs[0], loser, winner)
      case Some(next) => Sweep(next, refs[1..], loser, winner)
      case None => None
  }

  // ---------------------------------------------------------------- the reference definition

  /** The document with `f` applied to the id in every declared department slot, and nothing else changed. */
  function MapFields(fields: seq<Field>, doc: map<string, Value>, f: Id -> Id): map<string, Value>
    decreases fields, 0
  {
    if fields == [] then doc
    else
      var field := fields[|fields| - 1];
      var rest := MapFields(fields[..|fields| - 1], doc, f);
      if field.name in doc then rest[field.name := MapValue(field, doc[field.name], f)] else rest
  }

  function MapValue(field: Field, v: Value, f: Id -> Id): Value
    decreases field, 1
  {
    match field.kind
    case ObjectIdType => if IsDepartmentScalar(field.name) then MapRef(v, f) else v
    case IdArrayType => if IsDepartmentArray(field.name) && v.Arr? then Arr(MapRefs(v.items, f)) else v
    case SubType(schema) => MapObject(schema, v, f)
    case SubArrayType(schema) => if v.Arr? then Arr(MapObjects(schema, v.items, f)) else v
    case OtherType => v
  }

  function MapRef(v: Value, f: Id -> Id): Value {
    if v.Ref? then Ref(f(v.id)) else v
  }

  function MapRefs(items: seq<Value>, f: Id -> Id): seq<Value> {
    seq(|items|, i requires 0 <= i < |items| => MapRef(items[i], f))
  }

  function MapObject(schema: seq<Field>, v: Value, f: Id -> Id): Value
    decreases schema, 1
  {
    if v.Obj? then Obj(MapFields(schema, v.fields, f)) else v
  }

  function MapObjects(schema: seq<Field>, items: seq<Value>, f: Id -> Id): seq<Value>
    decreases schema, 2
  {
    seq(|items|, i requires 0 <= i < |items| => MapObject(schema, items[i], f))
  }

  // ---------------------------------------------------------------- schemas and documents

  /** Field names are keys. */
  ghost predicate WellFormed(fields: seq<Field>)
    decreases fields, 0
  {
    && (forall i, j :: 0 <= i < j < |fields| ==> fields[i].name != fields[j].name)
    && (forall i :: 0 <= i < |fields| ==> WellFormedField(fields[i]))
  }

  ghost predicate WellFormedField(field: Field)
    decreases field, 1
  {
    match field.kind
    case SubType(schema) => WellFormed(schema)
    case SubArrayType(schema) => WellFormed(schema)
    case _ => true
  }

  /** No department reference sits inside two arrays. */
  ghost predicate OneArrayDeep(fields: seq<Field>)
    decreases fields, 0
  {
    forall i :: 0 <= i < |fields| ==> OneArrayDeepField(fields[i])
  }

  ghost predicate OneArrayDeepField(field: Field)
    decreases field, 1
  {
    match field.kind
    case SubType(schema) => OneArrayDeep(schema)
    case SubArrayType(schema) => forall r :: r in Refs(schema) ==> r.ScalarRef?
    case _ => true
  }

  ghost predicate Conforms(fields: seq<Field>, doc: map<string, Value>)
    decreases fields, 0
  {
    forall i :: 0 <= i < |fields| && fields[i].name in doc ==> ConformsField(fields[i], doc[fields[i].name])
  }

  ghost predicate ConformsField(field: Field, v: Value)
    decreases field, 1
  {
    match field.kind
    case ObjectIdType => v.Ref? || v.Null?
    case IdArrayType => v.Null? || (v.Arr? && forall i :: 0 <= i < |v.items| ==> v.items[i].Ref?)
    case SubType(schema) => v.Null? || (v.Obj? && Conforms(schema, v.fields))
    case SubArrayType(schema) =>
      v.Null? || (v.Arr? && forall i :: 0 <= i < |v.items| ==> v.items[i].Obj? && Conforms(schema, v.items[i].fields))
    case OtherType => true
  }
}
