/**
 * The reset's walk over schemas that may contain themselves (apps/api/src/workforce-reset/targets.ts, lines 59-119).
 */
module SchemaWalk {
  import opened Options
  import opened Sequences

  /** A declared path, and the schema nested under it if there is one. */
  datatype PathDef = PathDef(name: string, nested: Option<nat>)

  /** All the schemas; a schema is its number. */
  type Graph = seq<seq<PathDef>>

  type Path = seq<string>

  predicate WellFormed(g: Graph) {
    forall s, i :: 0 <= s < |g| && 0 <= i < |g[s]| ==> g[s][i].nested.Some? ==> g[s][i].nested.value < |g|
  }

  /** The schemas being walked, outermost first: none twice. */
  ghost predicate Chain(g: Graph, ancestors: seq<nat>) {
    Distinct(ancestors) && forall i :: 0 <= i < |ancestors| ==> ancestors[i] < |g|
  }

  function Elements(s: seq<nat>): set<nat> {
    set x | x in s
  }

  lemma {:induction false} DistinctSize(s: seq<nat>)
    requires Distinct(s)
    ensures |Elements(s)| == |s|
  {
    if s != [] {
      var n := |s| - 1;
      DistinctSize(s[..n]);
      assert s[n] !in s[..n];
      assert Elements(s) == Elements(s[..n]) + {s[n]};
    }
  }

  lemma {:induction false} BelowSize(n: nat, a: set<nat>)
    requires forall x :: x in a ==> x < n
    ensures |a| <= n
  {
    if n > 0 {
      BelowSize(n - 1, a - {n - 1});
    } else {
      assert a == {};
    }
  }

  /** The chain is never longer than there are schemas, which is why the walk ends. */
  lemma {:induction false} ChainIsShort(g: Graph, ancestors: seq<nat>)
    requires Chain(g, ancestors)
    ensures |ancestors| <= |g|
  {
    DistinctSize(ancestors);
    BelowSize(|g|, Elements(ancestors));
  }

  lemma {:induction false} ChainGrows(g: Graph, ancestors: seq<nat>, s: nat)
    requires Chain(g, ancestors) && s < |g| && s !in ancestors
    ensures Chain(g, ancestors + [s]) && |ancestors| < |g|
  {
    ChainIsShort(g, ancestors + [s]);
  }

  /** What `pathsMatching` finds, relative to the prefix. */
  function Found(g: Graph, matches: string -> bool, s: nat, prefix: Path, ancestors: seq<nat>): seq<Path>
    requires WellFormed(g) && s < |g| && Chain(g, ancestors)
    decreases |g| + 1 - |ancestors|, 1, 0
  {
    if s in ancestors then [] else FoundIn(g, matches, s, prefix, ancestors, |g[s]|)
  }

  /** The same over the first `n` paths of the schema. */
  function FoundIn(g: Graph, matches: string -> bool, s: nat, prefix: Path, ancestors: seq<nat>, n: nat): seq<Path>
    requires WellFormed(g) && s < |g| && Chain(g, ancestors) && s !in ancestors && n <= |g[s]|
    decreases |g| + 1 - |ancestors|, 0, n
  {
    if n == 0 then []
    else
      ChainGrows(g, ancestors, s);
      var def := g[s][n - 1];
      var full := prefix + [def.name];
      FoundIn(g, matches, s, prefix, ancestors, n - 1)
      + (if matches(def.name) then [full] else [])
      + (if def.nested.Some? then Found(g, matches, def.nested.value, full, ancestors + [s]) else [])
  }

  /** `pathsMatching` */
  method PathsMatching(
    g: Graph, matches: string -> bool, s: nat, prefix: Path, ancestors: seq<nat>) returns (found: seq<Path>)
    requires WellFormed(g) && s < |g| && Chain(g, ancestors)
    ensures found == Found(g, matches, s, prefix, ancestors)
    decreases |g| + 1 - |ancestors|
  {
    found := [];
    if s in ancestors {
      return;
    }
    ChainGrows(g, ancestors, s);
    var chain := ancestors + [s];
    for i := 0 to |g[s]|
      invariant found == FoundIn(g, matches, s, prefix, ancestors, i)
    {
      var def := g[s][i];
      var full := prefix + [def.name];
      if matches(def.name) {
        found := found + [full];
      }
      if def.nested.Some? {
        var below := PathsMatching(g, matches, def.nested.value, full, chain);
        found := found + below;
      }
    }
  }

  // ---------------------------------------------------------------- trails

  /** A way down the schemas: the number of the path taken at each. */
  type Trail = seq<nat>

  predicate IsTrail(g: Graph, s: nat, trail: Trail)
    requires WellFormed(g)
    decreases |trail|
  {
    && s < |g| && trail != [] && trail[0] < |g[s]|
    && (|trail| > 1 ==> g[s][trail[0]].nested.Some? && IsTrail(g, g[s][trail[0]].nested.value, trail[1..]))
  }

  /** The names along the trail. */
  function Names(g: Graph, s: nat, trail: Trail): Path
    requires WellFormed(g) && IsTrail(g, s, trail)
    decreases |trail|
  {
    [g[s][trail[0]].name] + (if |trail| > 1 then Names(g, g[s][trail[0]].nested.value, trail[1..]) else [])
  }

  function LastName(g: Graph, s: nat, trail: Trail): string
    requires WellFormed(g) && IsTrail(g, s, trail)
    decreases |trail|
  {
    if |trail| == 1 then g[s][trail[0]].name else LastName(g, g[s][trail[0]].nested.value, trail[1..])
  }

  /** The schemas the trail goes through. */
  function Visits(g: Graph, s: nat, trail: Trail): seq<nat>
    requires WellFormed(g) && IsTrail(g, s, trail)
    decreases |trail|
  {
    [s] + (if |trail| > 1 then Visits(g, g[s][trail[0]].nested.value, trail[1..]) else [])
  }

  // ---------------------------------------------------------------- what is found is real

  predicate LeadsTo(g: Graph, matches: string -> bool, s: nat, prefix: Path, p: Path, trail: Trail)
    requires WellFormed(g)
  {
    IsTrail(g, s, trail) && p == prefix + Names(g, s, trail) && matches(LastName(g, s, trail))
  }

  ghost predicate IsReal(g: Graph, matches: string -> bool, s: nat, prefix: Path, p: Path)
    requires WellFormed(g)
  {
    exists trail :: LeadsTo(g, matches, s, prefix, p, trail)
  }

  lemma {:induction false} TrailFrom(g: Graph, s: nat, i: nat, trail: Trail)
    requires WellFormed(g) && s < |g| && i < |g[s]| && g[s][i].nested.Some? && IsTrail(g, g[s][i].nested.value, trail)
    ensures var t, longer := g[s][i].nested.value, [i] + trail;
            && IsTrail(g, s, longer) && Names(g, s, longer) == [g[s][i].name] + Names(g, t, trail)
            && LastName(g, s, longer) == LastName(g, t, trail)
  {
    var longer := [i] + trail;
    assert longer[1..] == trail && |longer| > 1;
  }

  lemma {:induction false} TrailDown(
    g: Graph, matches: string -> bool, s: nat, i: nat, prefix: Path, p: Path, trail: Trail)
    requires WellFormed(g) && s < |g| && i < |g[s]| && g[s][i].nested.Some?
    requires LeadsTo(g, matches, g[s][i].nested.value, prefix + [g[s][i].name], p, trail)
    ensures LeadsTo(g, matches, s, prefix, p, [i] + trail)
  {
    hide IsTrail, Names, LastName, WellFormed;
    TrailFrom(g, s, i, trail);
    var below := Names(g, g[s][i].nested.value, trail);
    assert prefix + [g[s][i].name] + below == prefix + ([g[s][i].name] + below);
  }

  lemma {:induction false} TrailHere(g: Graph, matches: string -> bool, s: nat, i: nat, prefix: Path)
    requires WellFormed(g) && s < |g| && i < |g[s]| && matches(g[s][i].name)
    ensures LeadsTo(g, matches, s, prefix, prefix + [g[s][i].name], [i])
  {
  }

  lemma {:induction false} FoundIsReal(
    g: Graph, matches: string -> bool, s: nat, prefix: Path, ancestors: seq<nat>, p: Path)
    requires WellFormed(g) && s < |g| && Chain(g, ancestors) && p in Found(g, matches, s, prefix, ancestors)
    ensures IsReal(g, matches, s, prefix, p)
    decreases |g| + 1 - |ancestors|, 1, 0
  {
    FoundInIsReal(g, matches, s, prefix, ancestors, |g[s]|, p);
  }

  lemma {:induction false} FoundInIsReal(
    g: Graph, matches: string -> bool, s: nat, prefix: Path, ancestors: seq<nat>, n: nat, p: Path)
    requires WellFormed(g) && s < |g| && Chain(g, ancestors) && s !in ancestors && n <= |g[s]|
    requires p in FoundIn(g, matches, s, prefix, ancestors, n)
    ensures IsReal(g, matches, s, prefix, p)
    decreases |g| + 1 - |ancestors|, 0, n
  {
    hide LeadsTo;
    ChainGrows(g, ancestors, s);
    var def := g[s][n - 1];
    var full := prefix + [def.name];
    if p in FoundIn(g, matches, s, prefix, ancestors, n - 1) {
      FoundInIsReal(g, matches, s, prefix, ancestors, n - 1, p);
    } else if matches(def.name) && p == full {
      TrailHere(g, matches, s, n - 1, prefix);
    } else {
      FoundIsReal(g, matches, def.nested.value, full, ancestors + [s], p);
      var trail :| LeadsTo(g, matches, def.nested.value, full, p, trail);
      TrailDown(g, matches, s, n - 1, prefix, p, trail);
    }
  }

  // ---------------------------------------------------------------- a match is found wherever one can be reached

  lemma {:induction false} FoundInGrows(
    g: Graph, matches: string -> bool, s: nat, prefix: Path, ancestors: seq<nat>, n: nat, m: nat)
    requires WellFormed(g) && s < |g| && Chain(g, ancestors) && s !in ancestors && n <= m <= |g[s]|
    ensures |FoundIn(g, matches, s, prefix, ancestors, n)| <= |FoundIn(g, matches, s, prefix, ancestors, m)|
    decreases m
  {
    if n < m {
      FoundInGrows(g, matches, s, prefix, ancestors, n, m - 1);
    }
  }

  /** One path of the schema matches, or something below it is found. */
  lemma {:induction false} FoundHere(
    g: Graph, matches: string -> bool, s: nat, prefix: Path, ancestors: seq<nat>, i: nat)
    requires WellFormed(g) && s < |g| && Chain(g, ancestors) && s !in ancestors && i < |g[s]|
    requires Chain(g, ancestors + [s])
    requires matches(g[s][i].name)
          || (g[s][i].nested.Some? &&
            Found(g, matches, g[s][i].nested.value, prefix + [g[s][i].name], ancestors + [s]) != [])
    ensures Found(g, matches, s, prefix, ancestors) != []
  {
    ChainGrows(g, ancestors, s);
    assert FoundIn(g, matches, s, prefix, ancestors, i + 1) != [];
    FoundInGrows(g, matches, s, prefix, ancestors, i + 1, |g[s]|);
  }

  /** A trail that comes back to a schema can be entered there instead. */
  lemma {:induction false} CutTo(g: Graph, s: nat, trail: Trail, t: nat) returns (rest: Trail)
    requires WellFormed(g) && IsTrail(g, s, trail) && t in Visits(g, s, trail)
    ensures IsTrail(g, t, rest) && LastName(g, t, rest) == LastName(g, s, trail) && |rest| <= |trail|
    ensures forall x :: x in Visits(g, t, rest) ==> x in Visits(g, s, trail)
    decreases |trail|
  {
    if t == s {
      rest := trail;
    } else {
      rest := CutTo(g, g[s][trail[0]].nested.value, trail[1..], t);
    }
  }

  /** However the schemas refer to each other, a match that can be reached is found. */
  lemma {:induction false} ReachableIsFound(
    g: Graph, matches: string -> bool, s: nat, prefix: Path, ancestors: seq<nat>, trail: Trail)
    requires WellFormed(g) && Chain(g, ancestors) && IsTrail(g, s, trail) && matches(LastName(g, s, trail))
    requires forall x :: x in Visits(g, s, trail) ==> x !in ancestors
    ensures Found(g, matches, s, prefix, ancestors) != []
    decreases |trail|
  {
    assert s in Visits(g, s, trail);
    ChainGrows(g, ancestors, s);
    var i := trail[0];
    if |trail| > 1 {
      var t, rest := g[s][i].nested.value, trail[1..];
      assert forall x :: x in Visits(g, t, rest) ==> x in Visits(g, s, trail);
      if s in Visits(g, t, rest) {
        var again := CutTo(g, t, rest, s);
        ReachableIsFound(g, matches, s, prefix, ancestors, again);
        return;
      }
      ReachableIsFound(g, matches, t, prefix + [g[s][i].name], ancestors + [s], rest);
    }
    FoundHere(g, matches, s, prefix, ancestors, i);
  }

  /** Some way down the schema leads to a matching name. */
  ghost predicate Reaches(g: Graph, matches: string -> bool, s: nat)
    requires WellFormed(g)
  {
    exists trail :: IsTrail(g, s, trail) && matches(LastName(g, s, trail))
  }

  /** The walk finds something exactly when there is something to find. */
  lemma {:induction false} FoundIff(g: Graph, matches: string -> bool, s: nat)
    requires WellFormed(g) && s < |g|
    ensures Found(g, matches, s, [], []) != [] <==> Reaches(g, matches, s)
  {
    if Found(g, matches, s, [], []) != [] {
      var p := Found(g, matches, s, [], [])[0];
      FoundIsReal(g, matches, s, [], [], p);
      var trail :| LeadsTo(g, matches, s, [], p, trail);
    }
    if Reaches(g, matches, s) {
      var trail :| IsTrail(g, s, trail) && matches(LastName(g, s, trail));
      ReachableIsFound(g, matches, s, [], [], trail);
    }
  }

  // ---------------------------------------------------------------- classification

  datatype Model = Model(collection: string, schema: nat)

  datatype Target = Target(collection: string, action: string, paths: set<Path>)

  datatype Verdict = Refused(unclassified: seq<string>) | Accepted(targets: seq<Target>)

  function PathsOf(g: Graph, matches: string -> bool, model: Model): seq<Path>
    requires WellFormed(g)
  {
    if model.schema < |g| then Found(g, matches, model.schema, [], []) else []
  }

  /** The paths of a collection, over all the models that share it. */
  function PathsIn(g: Graph, matches: string -> bool, models: seq<Model>, collection: string): set<Path>
    requires WellFormed(g)
  {
    if models == [] then {}
    else
      var n := |models| - 1;
      PathsIn(g, matches, models[..n], collection)
      + (if models[n].collection == collection then set p | p in PathsOf(g, matches, models[n]) else {})
  }

  /** The collections with a matching path, in the order their models are met. */
  function CollectionsIn(g: Graph, matches: string -> bool, models: seq<Model>): seq<string>
    requires WellFormed(g)
  {
    if models == [] then []
    else
      var n := |models| - 1;
      var rest := CollectionsIn(g, matches, models[..n]);
      if PathsOf(g, matches, models[n]) != [] &&
        models[n].collection !in rest then rest + [models[n].collection] else rest
  }

  lemma {:induction false} CollectionKnown(g: Graph, matches: string -> bool, models: seq<Model>, c: string)
    requires WellFormed(g)
    ensures c in CollectionsIn(g, matches, models) <==>
      exists i :: 0 <= i < |models| && models[i].collection == c && PathsOf(g, matches, models[i]) != []
    ensures c !in CollectionsIn(g, matches, models) ==> PathsIn(g, matches, models, c) == {}
  {
    hide PathsOf;
    if models != [] {
      var n := |models| - 1;
      CollectionKnown(g, matches, models[..n], c);
      assert forall i :: 0 <= i < n ==> models[i] == models[..n][i];
    }
  }

  /** `collectionsMatching` */
  method CollectionsMatching(g: Graph, matches: string -> bool, models: seq<Model>)
    returns (order: seq<string>, byCollection: map<string, set<Path>>)
    requires WellFormed(g) && forall i :: 0 <= i < |models| ==> models[i].schema < |g|
    ensures order == CollectionsIn(g, matches, models)
    ensures forall c :: c in order ==> c in byCollection && byCollection[c] == PathsIn(g, matches, models, c)
  {
    hide Found;
    order, byCollection := [], map[];
    for i := 0 to |models|
      invariant order == CollectionsIn(g, matches, models[..i])
      invariant byCollection.Keys == set c | c in order
      invariant forall c :: c in order ==> byCollection[c] == PathsIn(g, matches, models[..i], c)
    {
      var model := models[i];
      assert models[..i + 1][..i] == models[..i];
      CollectionKnown(g, matches, models[..i], model.collection);
      var paths := PathsMatching(g, matches, model.schema, [], []);
      assert paths == PathsOf(g, matches, model);
      if paths != [] {
        var known := if model.collection in byCollection then byCollection[model.collection] else {};
        if model.collection !in byCollection {
          order := order + [model.collection];
        }
        byCollection := byCollection[model.collection := known + set p | p in paths];
      }
    }
    assert models[..|models|] == models;
  }

  predicate Covered(table: map<string, string>, collections: seq<string>) {
    forall i :: 0 <= i < |collections| ==> collections[i] in table
  }

  /** `classify`: refuses, naming them, the collections the table does not cover. */
  method Classify(
    order: seq<string>, byCollection: map<string, set<Path>>, table: map<string, string>)
    returns (verdict: Verdict)
    requires forall c :: c in order ==> c in byCollection
    ensures verdict.Accepted? <==> Covered(table, order)
    ensures verdict.Refused? ==> forall c :: c in verdict.unclassified <==> c in order && c !in table
    ensures verdict.Accepted? ==> |verdict.targets| == |order| && forall i :: 0 <= i < |order| ==>
      verdict.targets[i] == Target(order[i], table[order[i]], byCollection[order[i]])
  {
    var targets: seq<Target>, unclassified: seq<string> := [], [];
    for i := 0 to |order|
      invariant unclassified == [] <==> Covered(table, order[..i])
      invariant forall c :: c in unclassified <==> c in order[..i] && c !in table
      invariant unclassified == [] ==> |targets| == i && forall j :: 0 <= j < i ==>
        targets[j] == Target(order[j], table[order[j]], byCollection[order[j]])
    {
      assert order[..i + 1] == order[..i] + [order[i]];
      assert order[i] in order;
      if order[i] !in table {
        unclassified := unclassified + [order[i]];
      } else {
        targets := targets + [Target(order[i], table[order[i]], byCollection[order[i]])];
      }
    }
    assert order[..|order|] == order;
    verdict := if unclassified != [] then Refused(unclassified) else Accepted(targets);
  }

  /** The reset starts exactly when every collection that can name somebody is in the table. */
  method ClassifyCollections(g: Graph, matches: string -> bool, models: seq<Model>, table: map<string, string>)
    returns (verdict: Verdict)
    requires WellFormed(g) && forall i :: 0 <= i < |models| ==> models[i].schema < |g|
    ensures verdict.Refused? <==>
      exists i :: 0 <= i < |models| && Reaches(g, matches, models[i].schema) && models[i].collection !in table
    ensures verdict.Refused? ==> forall c :: c in verdict.unclassified <==>
      c !in table && exists i :: 0 <= i < |models| && models[i].collection == c && Reaches(g, matches, models[i].schema)
  {
    hide Found, Reaches;
    var order, byCollection := CollectionsMatching(g, matches, models);
    verdict := Classify(order, byCollection, table);
    forall i | 0 <= i < |models|
      ensures PathsOf(g, matches, models[i]) != [] <==> Reaches(g, matches, models[i].schema)
    {
      FoundIff(g, matches, models[i].schema);
    }
    forall c
      ensures c in order <==>
                exists i :: 0 <= i < |models| && models[i].collection == c && Reaches(g, matches, models[i].schema)
    {
      CollectionKnown(g, matches, models, c);
    }
    if i :| 0 <= i < |models| && Reaches(g, matches, models[i].schema) && models[i].collection !in table {
      assert models[i].collection in order;
    }
  }
}
