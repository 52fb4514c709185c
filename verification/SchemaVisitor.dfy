/**
 The visitor that turns an OpenAPI schema graph into definitions
 (pkg/schema/definitions/visitor.go). Schemas are nodes of a graph, which may be cyclic.
 */
module SchemaVisitor {
  import opened Prelude

  type Id = nat

  datatype Node =
    | Array(desc: string, sub: Id)
    | MapOf(desc: string, sub: Id)
    | Primitive(desc: string, typ: string)
    | Kind(desc: string, path: string, fields: map<string, Id>, required: seq<string>)
    | Reference(desc: string, name: string, target: Option<Id>)
    | Arbitrary(desc: string)

  type Graph = map<Id, Node>

  datatype Field = Field(typ: string, subType: string, desc: string, required: bool)

  datatype Definition = Definition(typ: string, desc: string, fields: map<string, Field>)

  const PLACEHOLDER := Definition("", "", map[])

  // ----- Graphs -----

  /** The node that a node other than a kind visits. */
  function Next(g: Graph, n: Id): Option<Id> {
    if n !in g then None
    else
      match g[n]
      case Array(_, sub) => Some(sub)
      case MapOf(_, sub) => Some(sub)
      case Reference(_, _, target) => target
      case _ => None
  }

  ghost predicate Edge(g: Graph, n: Id, m: Id) {
    n in g && (Next(g, n) == Some(m) || (g[n].Kind? && m in g[n].fields.Values))
  }

  ghost predicate Closed(g: Graph) { forall n, m :: Edge(g, n, m) ==> m in g }

  /** The node k steps further, passing through no kind. */
  ghost function Follow(g: Graph, n: Id, k: nat): Option<Id> {
    if k == 0 then Some(n)
    else
      var m := Follow(g, n, k - 1);
      if m.None? then None else Next(g, m.value)
  }

  /** Every cycle passes through a kind. */
  ghost predicate CyclesHaveKinds(g: Graph) { forall n: Id, k: nat :: k > 0 ==> Follow(g, n, k) != Some(n) }

  /** No two kinds have the same path. */
  ghost predicate PathsIdentify(g: Graph) {
    forall j, k :: j in g && k in g && g[j].Kind? && g[k].Kind? && g[j].path == g[k].path ==> j == k
  }

  ghost predicate Wf(g: Graph) { Closed(g) && CyclesHaveKinds(g) && PathsIdentify(g) }

  lemma NextIsEdge(g: Graph, n: Id)
    requires Wf(g) && Next(g, n).Some?
    ensures n in g && Next(g, n).value in g
  {
    assert Edge(g, n, Next(g, n).value);
  }

  lemma FieldIsEdge(g: Graph, n: Id, f: string)
    requires Wf(g) && n in g && g[n].Kind? && f in g[n].fields
    ensures Edge(g, n, g[n].fields[f]) && g[n].fields[f] in g
  {
    assert g[n].fields[f] in g[n].fields.Values;
    assert Edge(g, n, g[n].fields[f]);
  }

  // ----- How far a node is from the next kind or leaf -----

  ghost predicate Leads(g: Graph, m: Id, n: Id) { exists k: nat :: k > 0 && Follow(g, m, k) == Some(n) }

  ghost predicate Behind(g: Graph, seen: set<Id>, n: Id) {
    seen <= g.Keys && forall m :: m in seen ==> Leads(g, m, n)
  }

  lemma StepBehind(g: Graph, seen: set<Id>, n: Id)
    requires Wf(g) && Behind(g, seen, n) && Next(g, n).Some?
    ensures n !in seen && n in g && Behind(g, seen + {n}, Next(g, n).value)
  {
    var n' := Next(g, n).value;
    forall m | m in seen + {n} ensures Leads(g, m, n') {
      if m in seen {
        var k: nat :| k > 0 && Follow(g, m, k) == Some(n);
        assert Follow(g, m, k + 1) == Some(n');
      } else {
        assert Follow(g, n, 0) == Some(n);
        assert Follow(g, n, 1) == Some(n');
      }
    }
    NextIsEdge(g, n);
  }

  /** Steps to the end of the chain that starts at n, having passed the nodes `seen`. */
  ghost function Walk(g: Graph, n: Id, seen: set<Id>): nat
    requires Wf(g) && Behind(g, seen, n)
    decreases |g.Keys - seen|
  {
    if Next(g, n).None? then 0
    else
      StepBehind(g, seen, n);
      assert g.Keys - (seen + {n}) < g.Keys - seen by { Shrinks(g.Keys, seen, n); }
      SmallerCount(g.Keys - (seen + {n}), g.Keys - seen);
      1 + Walk(g, Next(g, n).value, seen + {n})
  }

  lemma Shrinks(all: set<Id>, seen: set<Id>, n: Id)
    requires n in all && n !in seen
    ensures all - (seen + {n}) < all - seen
  {
    assert n in all - seen;
  }

  lemma {:induction false} SmallerCount<T>(a: set<T>, b: set<T>)
    requires a < b
    ensures |a| < |b|
  {
    var x :| x in b && x !in a;
    CountAtMost(a, b - {x});
    assert b == b - {x} + {x};
  }

  lemma {:induction false} CountAtMost<T>(a: set<T>, b: set<T>)
    requires a <= b
    ensures |a| <= |b|
  {
    if a != {} {
      var x :| x in a;
      CountAtMost(a - {x}, b - {x});
    }
  }

  lemma {:induction false} WalkSame(g: Graph, n: Id, seen: set<Id>, seen': set<Id>)
    requires Wf(g) && Behind(g, seen, n) && Behind(g, seen', n)
    ensures Walk(g, n, seen) == Walk(g, n, seen')
    decreases |g.Keys - seen|
  {
    hide Wf, Behind;
    if Next(g, n).Some? {
      StepBehind(g, seen, n);
      StepBehind(g, seen', n);
      Shrinks(g.Keys, seen, n);
      SmallerCount(g.Keys - (seen + {n}), g.Keys - seen);
      WalkSame(g, Next(g, n).value, seen + {n}, seen' + {n});
    }
  }

  ghost function Rank(g: Graph, n: Id): nat
    requires Wf(g)
  {
    Walk(g, n, {})
  }

  lemma RankDrops(g: Graph, n: Id)
    requires Wf(g) && Next(g, n).Some?
    ensures Rank(g, Next(g, n).value) < Rank(g, n)
  {
    StepBehind(g, {}, n);
    WalkSame(g, Next(g, n).value, {} + {n}, {});
  }

  // ----- What a node means -----

  function PrimitiveType(typ: string): string { if typ in {"integer", "number"} then "int" else typ }

  /** The field that a node stands for. */
  ghost function FieldOf(g: Graph, n: Id): Field
    requires Wf(g) && n in g
    decreases Rank(g, n)
  {
    match g[n]
    case Primitive(desc, typ) => Field(PrimitiveType(typ), "", desc, false)
    case Arbitrary(desc) => Field("string", "", desc, false)
    case Kind(desc, path, _, _) => Field(path, "", desc, false)
    case Array(desc, sub) =>
      NextIsEdge(g, n);
      RankDrops(g, n);
      Field("array", FieldOf(g, sub).typ, desc, false)
    case MapOf(desc, sub) =>
      NextIsEdge(g, n);
      RankDrops(g, n);
      Field("map", FieldOf(g, sub).typ, desc, false)
    case Reference(desc, name, None) => Field(name, "", desc, false)
    case Reference(desc, _, Some(sub)) =>
      NextIsEdge(g, n);
      RankDrops(g, n);
      FieldOf(g, sub).(desc := desc)
  }

  /** The kind at the end of the chain that starts at n. */
  ghost function Target(g: Graph, n: Id): (t: Option<Id>)
    requires Wf(g) && n in g
    ensures t.Some? ==> t.value in g && g[t.value].Kind?
    decreases Rank(g, n)
  {
    if g[n].Kind? then Some(n)
    else if Next(g, n).None? then None
    else
      NextIsEdge(g, n);
      RankDrops(g, n);
      Target(g, Next(g, n).value)
  }

  /** The completed definition of a kind. */
  ghost function DefinitionOf(g: Graph, k: Id): Definition
    requires Wf(g) && k in g && g[k].Kind?
  {
    var kind := g[k];
    Definition(kind.path, kind.desc, map f | f in kind.fields ::
      FieldIsEdge(g, k, f);
      FieldOf(g, kind.fields[f]).(required := f in kind.required))
  }

  // ----- Reachability -----

  ghost predicate IsPath(g: Graph, p: seq<Id>) {
    p != [] && forall i :: 0 <= i < |p| - 1 ==> Edge(g, p[i], p[i + 1])
  }

  ghost predicate Connects(g: Graph, p: seq<Id>, a: Id, b: Id) { IsPath(g, p) && p[0] == a && p[|p| - 1] == b }

  ghost predicate Reaches(g: Graph, a: Id, b: Id) { exists p :: Connects(g, p, a, b) }

  lemma ReachesSelf(g: Graph, a: Id)
    ensures Reaches(g, a, a)
  {
    assert Connects(g, [a], a, a);
  }

  lemma ReachesBack(g: Graph, a: Id, b: Id, c: Id)
    requires Edge(g, a, b) && Reaches(g, b, c)
    ensures Reaches(g, a, c)
  {
    hide Edge;
    var p :| Connects(g, p, b, c);
    var q := [a] + p;
    forall i | 0 <= i < |q| - 1 ensures Edge(g, q[i], q[i + 1]) {
      if i > 0 {
        assert q[i] == p[i - 1] && q[i + 1] == p[i];
      }
    }
    assert Connects(g, q, a, c);
  }

  // ----- Sets of definitions -----

  ghost function Paths(g: Graph): set<string> { set k | k in g && g[k].Kind? :: g[k].path }

  ghost predicate IsDefinitionOf(g: Graph, defs: map<string, Definition>, p: string, k: Id)
    requires Wf(g)
  {
    k in g && g[k].Kind? && g[k].path == p && p in defs && defs[p] == DefinitionOf(g, k)
  }

  /** The kind at the end of n's chain, if there is one, has an entry. */
  ghost predicate Covers(g: Graph, defs: map<string, Definition>, n: Id)
    requires Wf(g)
  {
    n in g && (Target(g, n).Some? ==> g[Target(g, n).value].path in defs)
  }

  /** All fields of the kind are covered. */
  ghost predicate CoversFields(g: Graph, defs: map<string, Definition>, k: Id)
    requires Wf(g) && k in g && g[k].Kind?
  {
    forall f :: f in g[k].fields ==> Covers(g, defs, g[k].fields[f])
  }

  /** What visiting n adds: completed definitions of kinds that n reaches, all of whose fields are covered. */
  ghost predicate Added(g: Graph, n: Id, before: map<string, Definition>, defs: map<string, Definition>)
    requires Wf(g)
  {
    && (forall p :: p in before ==> p in defs && defs[p] == before[p])
    && (forall p :: p in defs && p !in before ==>
          exists k :: IsDefinitionOf(g, defs, p, k) && Reaches(g, n, k) && CoversFields(g, defs, k))
  }

  lemma CoversMore(g: Graph, before: map<string, Definition>, defs: map<string, Definition>, n: Id)
    requires Wf(g) && Covers(g, before, n) && forall p :: p in before ==> p in defs
    ensures Covers(g, defs, n)
  {
  }

  /** A step to m, then a visit of m, counts as a visit of n. */
  lemma AddedStep(g: Graph, n: Id, m: Id, before: map<string, Definition>, defs: map<string, Definition>)
    requires Wf(g) && Edge(g, n, m) && Added(g, m, before, defs)
    ensures Added(g, n, before, defs)
  {
    hide Edge, Wf, DefinitionOf, CoversFields, Reaches;
    forall p | p in defs && p !in before
      ensures exists k :: IsDefinitionOf(g, defs, p, k) && Reaches(g, n, k) && CoversFields(g, defs, k)
    {
      var k :| IsDefinitionOf(g, defs, p, k) && Reaches(g, m, k) && CoversFields(g, defs, k);
      ReachesBack(g, n, m, k);
    }
  }

  /** Two visits one after the other. */
  lemma AddedTwice(g: Graph, n: Id, a: map<string, Definition>, b: map<string, Definition>, c: map<string, Definition>)
    requires Wf(g) && Added(g, n, a, b) && Added(g, n, b, c)
    ensures Added(g, n, a, c)
  {
    hide Edge, Wf, Reaches, Covers, DefinitionOf;
    forall p | p in c && p !in a
      ensures exists k :: IsDefinitionOf(g, c, p, k) && Reaches(g, n, k) && CoversFields(g, c, k)
    {
      if p in b {
        var k :| IsDefinitionOf(g, b, p, k) && Reaches(g, n, k) && CoversFields(g, b, k);
        forall f | f in g[k].fields ensures Covers(g, c, g[k].fields[f]) {
          CoversMore(g, b, c, g[k].fields[f]);
        }
        assert IsDefinitionOf(g, c, p, k);
      }
    }
  }

  lemma AddedNothing(g: Graph, n: Id, a: map<string, Definition>)
    requires Wf(g)
    ensures Added(g, n, a, a)
  {
  }

  /** The placeholder of a kind replaced by its definition. */
  lemma AddedKind(g: Graph, k: Id, before: map<string, Definition>, marked: map<string, Definition>,
                  visited: map<string, Definition>, defs: map<string, Definition>)
    requires Wf(g) && k in g && g[k].Kind?
    requires g[k].path !in before && marked == before[g[k].path := PLACEHOLDER]
    requires Added(g, k, marked, visited) && defs == visited[g[k].path := DefinitionOf(g, k)]
    requires CoversFields(g, visited, k)
    ensures Added(g, k, before, defs)
  {
    hide Edge, Wf, Reaches, Covers, DefinitionOf, Target, Next;
    var path := g[k].path;
    forall p | p in defs && p !in before
      ensures exists j :: IsDefinitionOf(g, defs, p, j) && Reaches(g, k, j) && CoversFields(g, defs, j)
    {
      var j := k;
      if p != path {
        j :| IsDefinitionOf(g, visited, p, j) && Reaches(g, k, j) && CoversFields(g, visited, j);
      } else {
        ReachesSelf(g, k);
      }
      forall f | f in g[j].fields ensures Covers(g, defs, g[j].fields[f]) {
        CoversMore(g, visited, defs, g[j].fields[f]);
      }
      assert IsDefinitionOf(g, defs, p, j);
    }
  }

  lemma KindField(g: Graph, n: Id)
    requires Wf(g) && n in g && g[n].Kind?
    ensures FieldOf(g, n) == Field(g[n].path, "", g[n].desc, false)
  {
  }

  lemma KindCovered(g: Graph, defs: map<string, Definition>, n: Id)
    requires Wf(g) && n in g && g[n].Kind? && g[n].path in defs
    ensures Covers(g, defs, n)
  {
  }

  lemma BuiltDefinition(g: Graph, n: Id, fields: map<string, Field>)
    requires Wf(g) && n in g && g[n].Kind? && fields.Keys == g[n].fields.Keys
    requires forall f :: f in fields ==> g[n].fields[f] in g && fields[f] == FieldOf(g, g[n].fields[f])
    ensures forall f :: f in fields ==> !fields[f].required
    ensures Definition(g[n].path, g[n].desc, map f | f in fields :: fields[f].(required := f in g[n].required))
            == DefinitionOf(g, n)
  {
    hide FieldOf, Wf;
    forall f | f in fields ensures !fields[f].required {
      NeverRequired(g, g[n].fields[f]);
    }
  }

  // ----- The visitor -----

  class Visitor {
    const g: Graph
    var field: Field
    var definitions: map<string, Definition>

    constructor (g: Graph)
      ensures this.g == g && definitions == map[]
    {
      this.g := g;
      field := Field("", "", "", false);
      definitions := map[];
    }

    /** Definitions still to be marked. */
    ghost function Unmarked(): set<string>
      reads this
    {
      Paths(g) - definitions.Keys
    }

    /** Dispatches on the schema's type. */
    method Accept(n: Id)
      requires Wf(g) && n in g
      modifies this
      ensures field == FieldOf(g, n)
      ensures Added(g, n, old(definitions), definitions) && Covers(g, definitions, n)
      decreases |Unmarked()|, 1, Rank(g, n), 1
    {
      hide Wf, Added, Covers;
      match g[n]
      case Array(_, _) => VisitArray(n);
      case MapOf(_, _) => VisitMap(n);
      case Primitive(_, _) => VisitPrimitive(n);
      case Kind(_, _, _, _) => VisitKind(n);
      case Reference(_, _, _) => VisitReference(n);
      case Arbitrary(_) => VisitArbitrary(n);
    }

    lemma StepCovers(n: Id)
      requires Wf(g) && n in g && Next(g, n).Some?
      ensures Edge(g, n, Next(g, n).value) && Next(g, n).value in g
      ensures Covers(g, definitions, Next(g, n).value) ==> Covers(g, definitions, n)
    {
      NextIsEdge(g, n);
      assert !g[n].Kind?;
    }

    method VisitArray(n: Id)
      requires Wf(g) && n in g && g[n].Array?
      modifies this
      ensures field == FieldOf(g, n)
      ensures Added(g, n, old(definitions), definitions) && Covers(g, definitions, n)
      decreases |Unmarked()|, 1, Rank(g, n), 0
    {
      hide Wf, Added, Covers, Edge;
      RankDrops(g, n);
      StepCovers(n);
      Accept(g[n].sub);
      var subField := field;
      field := Field("array", subField.typ, g[n].desc, false);
      StepCovers(n);
      AddedStep(g, n, g[n].sub, old(definitions), definitions);
    }

    method VisitMap(n: Id)
      requires Wf(g) && n in g && g[n].MapOf?
      modifies this
      ensures field == FieldOf(g, n)
      ensures Added(g, n, old(definitions), definitions) && Covers(g, definitions, n)
      decreases |Unmarked()|, 1, Rank(g, n), 0
    {
      hide Wf, Added, Covers, Edge;
      RankDrops(g, n);
      StepCovers(n);
      Accept(g[n].sub);
      var subField := field;
      field := Field("map", subField.typ, g[n].desc, false);
      StepCovers(n);
      AddedStep(g, n, g[n].sub, old(definitions), definitions);
    }

    method VisitPrimitive(n: Id)
      requires Wf(g) && n in g && g[n].Primitive?
      modifies this
      ensures field == FieldOf(g, n)
      ensures Added(g, n, old(definitions), definitions) && Covers(g, definitions, n)
    {
      field := Field(PrimitiveType(g[n].typ), "", g[n].desc, false);
    }

    method VisitArbitrary(n: Id)
      requires Wf(g) && n in g && g[n].Arbitrary?
      modifies this
      ensures field == FieldOf(g, n)
      ensures Added(g, n, old(definitions), definitions) && Covers(g, definitions, n)
    {
      field := Field("string", "", g[n].desc, false);
    }

    method VisitReference(n: Id)
      requires Wf(g) && n in g && g[n].Reference?
      modifies this
      ensures field == FieldOf(g, n)
      ensures Added(g, n, old(definitions), definitions) && Covers(g, definitions, n)
      decreases |Unmarked()|, 1, Rank(g, n), 0
    {
      hide Wf, Edge;
      if g[n].target.None? {
        field := Field(g[n].name, "", g[n].desc, false);
        return;
      }
      hide Added, Covers;
      RankDrops(g, n);
      StepCovers(n);
      Accept(g[n].target.value);
      field := field.(desc := g[n].desc);
      StepCovers(n);
      AddedStep(g, n, g[n].target.value, old(definitions), definitions);
    }

    method VisitKind(n: Id)
      requires Wf(g) && n in g && g[n].Kind?
      modifies this
      ensures field == FieldOf(g, n)
      ensures Added(g, n, old(definitions), definitions) && Covers(g, definitions, n)
      decreases |Unmarked()|, 1, Rank(g, n), 0
    {
      hide Wf, Edge, Added, Covers, CoversFields, FieldOf, DefinitionOf, Paths, Rank, Target, Next;
      var kind := g[n];
      var path := kind.path;
      KindField(g, n);
      if path in definitions {
        field := Field(path, "", kind.desc, false);
        AddedNothing(g, n, definitions);
        KindCovered(g, definitions, n);
        return;
      }
      MarkShrinks(n);
      definitions := definitions[path := PLACEHOLDER];
      assert definitions.Keys == old(definitions).Keys + {path};
      var fields := VisitFields(n, |old(Unmarked())|);
      ghost var visited := definitions;
      BuiltDefinition(g, n, fields);
      fields := MarkRequired(fields, kind.required);
      definitions := definitions[path := Definition(path, kind.desc, fields)];
      field := Field(path, "", kind.desc, false);
      KindCovered(g, definitions, n);
      AddedKind(g, n, old(definitions), old(definitions)[path := PLACEHOLDER], visited, definitions);
    }

    lemma MarkShrinks(n: Id)
      requires n in g && g[n].Kind? && g[n].path !in definitions
      ensures |Paths(g) - (definitions.Keys + {g[n].path})| < |Unmarked()|
    {
      assert g[n].path in Unmarked();
      SmallerCount(Paths(g) - (definitions.Keys + {g[n].path}), Unmarked());
    }

    /** Visits the fields in any order. */
    method VisitFields(n: Id, ghost bound: nat) returns (fields: map<string, Field>)
      requires Wf(g) && n in g && g[n].Kind? && |Unmarked()| < bound
      modifies this
      ensures Added(g, n, old(definitions), definitions) && CoversFields(g, definitions, n)
      ensures fields.Keys == g[n].fields.Keys
      ensures forall f :: f in fields ==> g[n].fields[f] in g && fields[f] == FieldOf(g, g[n].fields[f])
      decreases bound, 0
    {
      hide Wf, Edge, Added, Covers, FieldOf, Paths, Rank, Target, Next;
      fields := map[];
      var todo := g[n].fields.Keys;
      AddedNothing(g, n, definitions);
      while todo != {}
        invariant todo <= g[n].fields.Keys
        invariant |Unmarked()| < bound
        invariant Added(g, n, old(definitions), definitions)
        invariant forall f :: f in g[n].fields && f !in todo ==> Covers(g, definitions, g[n].fields[f])
        invariant fields.Keys == g[n].fields.Keys - todo
        invariant forall f :: f in fields ==> g[n].fields[f] in g && fields[f] == FieldOf(g, g[n].fields[f])
        decreases |todo|
      {
        var f :| f in todo;
        var child := g[n].fields[f];
        ghost var before := definitions;
        FieldIsEdge(g, n, f);
        Accept(child);
        AddedStep(g, n, child, before, definitions);
        AddedTwice(g, n, old(definitions), before, definitions);
        AddedKeeps(g, n, before, definitions);
        CountAtMost(Unmarked(), Paths(g) - before.Keys);
        fields := fields[f := field];
        todo := todo - {f};
      }
    }

    /** Sets the flag of the required fields; names that are no fields are ignored. */
    method MarkRequired(fields: map<string, Field>, required: seq<string>) returns (marked: map<string, Field>)
      requires forall f :: f in fields ==> !fields[f].required
      ensures marked == map f | f in fields :: fields[f].(required := f in required)
    {
      marked := fields;
      for i := 0 to |required|
        invariant marked == map f | f in fields :: fields[f].(required := f in required[..i])
      {
        if required[i] in marked {
          var current := marked[required[i]];
          marked := marked[required[i] := current.(required := true)];
        }
      }
      assert required[..|required|] == required;
    }
  }

  lemma AddedKeeps(g: Graph, n: Id, before: map<string, Definition>, defs: map<string, Definition>)
    requires Wf(g) && Added(g, n, before, defs)
    ensures forall p :: p in before ==> p in defs
    ensures before.Keys <= defs.Keys
    ensures forall m :: Covers(g, before, m) ==> Covers(g, defs, m)
  {
    hide Wf;
  }

  lemma {:induction false} NeverRequired(g: Graph, n: Id)
    requires Wf(g) && n in g
    ensures !FieldOf(g, n).required
    decreases Rank(g, n)
  {
    hide Wf;
    if Next(g, n).Some? {
      NextIsEdge(g, n);
      RankDrops(g, n);
      NeverRequired(g, Next(g, n).value);
    }
  }

  // ----- The result -----

  /** Exactly the kinds reachable from the root have a definition, and each is the completed one. */
  ghost predicate ResultOf(g: Graph, root: Id, defs: map<string, Definition>)
    requires Wf(g)
  {
    && (forall p :: p in defs ==> exists k :: IsDefinitionOf(g, defs, p, k) && Reaches(g, root, k))
    && (forall k :: k in g && g[k].Kind? && Reaches(g, root, k) ==> IsDefinitionOf(g, defs, g[k].path, k))
  }

  ghost predicate AllCovered(g: Graph, defs: map<string, Definition>)
    requires Wf(g)
  {
    forall k :: k in g && g[k].Kind? && g[k].path in defs ==> CoversFields(g, defs, k)
  }

  lemma EdgeCovered(g: Graph, defs: map<string, Definition>, n: Id, m: Id)
    requires Wf(g) && Edge(g, n, m) && Covers(g, defs, n) && AllCovered(g, defs)
    ensures Covers(g, defs, m)
  {
    if g[n].Kind? {
      var f :| f in g[n].fields && g[n].fields[f] == m;
      assert CoversFields(g, defs, n);
    } else {
      NextIsEdge(g, n);
    }
  }

  lemma {:induction false} PathCovered(g: Graph, defs: map<string, Definition>, p: seq<Id>)
    requires Wf(g) && IsPath(g, p) && Covers(g, defs, p[0]) && AllCovered(g, defs)
    ensures Covers(g, defs, p[|p| - 1])
    decreases |p|
  {
    hide Wf, Edge, Covers, AllCovered;
    if |p| > 1 {
      EdgeCovered(g, defs, p[0], p[1]);
      assert forall i :: 0 <= i < |p| - 1 ==> p[1..][i] == p[i + 1];
      PathCovered(g, defs, p[1..]);
    }
  }

  lemma AddedFromNothing(g: Graph, root: Id, defs: map<string, Definition>)
    requires Wf(g) && Added(g, root, map[], defs)
    ensures AllCovered(g, defs)
    ensures forall p :: p in defs ==> exists k :: IsDefinitionOf(g, defs, p, k) && Reaches(g, root, k)
    ensures forall k :: k in g && g[k].Kind? && g[k].path in defs ==> IsDefinitionOf(g, defs, g[k].path, k)
  {
    hide Closed, CyclesHaveKinds, CoversFields, DefinitionOf, Reaches;
    forall k | k in g && g[k].Kind? && g[k].path in defs
      ensures CoversFields(g, defs, k) && IsDefinitionOf(g, defs, g[k].path, k)
    {
      var j :| IsDefinitionOf(g, defs, g[k].path, j) && Reaches(g, root, j) && CoversFields(g, defs, j);
      assert j == k;
    }
  }

  lemma VisitComplete(g: Graph, root: Id, defs: map<string, Definition>)
    requires Wf(g) && Added(g, root, map[], defs) && Covers(g, defs, root)
    ensures ResultOf(g, root, defs)
  {
    hide Wf, Added, IsDefinitionOf, Edge;
    AddedFromNothing(g, root, defs);
    forall k | k in g && g[k].Kind? && Reaches(g, root, k) ensures IsDefinitionOf(g, defs, g[k].path, k) {
      var p :| Connects(g, p, root, k);
      PathCovered(g, defs, p);
      assert Target(g, k) == Some(k);
    }
  }

  /** The result does not depend on the order in which fields are visited. */
  lemma ResultUnique(g: Graph, root: Id, defs: map<string, Definition>, defs': map<string, Definition>)
    requires Wf(g) && ResultOf(g, root, defs) && ResultOf(g, root, defs')
    ensures defs == defs'
  {
    hide Wf, DefinitionOf, Reaches;
    forall p | p in defs || p in defs' ensures p in defs && p in defs' && defs[p] == defs'[p] {
      var k :| IsDefinitionOf(g, if p in defs then defs else defs', p, k) && Reaches(g, root, k);
    }
  }

  /** No placeholder remains, unless a kind without path, description and fields looks like one. */
  lemma NoPlaceholder(g: Graph, root: Id, defs: map<string, Definition>, p: string)
    requires Wf(g) && ResultOf(g, root, defs) && p in defs
    ensures defs[p].typ == p && (p != "" ==> defs[p] != PLACEHOLDER)
  {
    hide Wf, Reaches;
  }

  /** Turns the schema into definitions. */
  method Definitions(g: Graph, root: Id) returns (defs: map<string, Definition>)
    requires Wf(g) && root in g
    ensures ResultOf(g, root, defs)
  {
    hide Wf, Added, Covers, ResultOf;
    var visitor := new Visitor(g);
    visitor.Accept(root);
    defs := visitor.definitions;
    VisitComplete(g, root, defs);
  }
}
