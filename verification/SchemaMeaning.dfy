/**
 What the definitions of a schema graph say (pkg/schema/definitions/visitor.go and `getPrimitiveType` of
 converter.go), in terms of the nodes: which kinds are defined, and which type each field has.
 */
module SchemaMeaning {
  import opened Prelude
  import opened SchemaVisitor

  // ----- Which kinds are defined -----

  /** The node is made up of the other one: an element, a value, a target or a field. */
  ghost predicate MadeOf(g: Graph, n: Id, m: Id) {
    n in g &&
    match g[n]
    case Array(_, sub) => m == sub
    case MapOf(_, sub) => m == sub
    case Reference(_, _, target) => target == Some(m)
    case Kind(_, _, fields, _) => exists f :: f in fields && fields[f] == m
    case Primitive(_, _) => false
    case Arbitrary(_) => false
  }

  /** Each node of the path is made up of the next. */
  ghost predicate Leading(g: Graph, p: seq<Id>, a: Id, b: Id) {
    p != [] && p[0] == a && p[|p| - 1] == b && forall i :: 0 <= i < |p| - 1 ==> MadeOf(g, p[i], p[i + 1])
  }

  lemma MadeOfIsEdge(g: Graph, n: Id, m: Id)
    ensures MadeOf(g, n, m) <==> Edge(g, n, m)
  {
  }

  lemma LeadingIffReaches(g: Graph, a: Id, b: Id)
    ensures (exists p :: Leading(g, p, a, b)) <==> Reaches(g, a, b)
  {
    hide MadeOf, Edge;
    forall n, m ensures MadeOf(g, n, m) <==> Edge(g, n, m) {
      MadeOfIsEdge(g, n, m);
    }
    if p :| Leading(g, p, a, b) {
      assert Connects(g, p, a, b);
    }
    if p :| Connects(g, p, a, b) {
      assert Leading(g, p, a, b);
    }
  }

  // ----- Which type a field has -----

  /** From node to node along references that have a target, up to one that has none or is no reference. */
  ghost predicate Resolves(g: Graph, p: seq<Id>, n: Id, m: Id) {
    && p != [] && p[0] == n && p[|p| - 1] == m && m in g
    && (forall i :: 0 <= i < |p| - 1 ==> p[i] in g && g[p[i]].Reference? && g[p[i]].target == Some(p[i + 1]))
    && (g[m].Reference? ==> g[m].target == None)
  }

  /** The name of a node's type. */
  predicate Typed(node: Node, typ: string) {
    match node
    case Array(_, _) => typ == "array"
    case MapOf(_, _) => typ == "map"
    case Primitive(_, t) => if t == "integer" || t == "number" then typ == "int" else typ == t
    case Kind(_, path, _, _) => typ == path
    case Reference(_, name, _) => typ == name
    case Arbitrary(_) => typ == "string"
  }

  /** A field stands for what its node resolves to, with the type of the elements as subtype of arrays and maps. */
  ghost predicate StandsFor(g: Graph, n: Id, field: Field) {
    exists p, m :: m in g && Resolves(g, p, n, m) && FieldAt(g, m, field)
  }

  ghost predicate FieldAt(g: Graph, m: Id, field: Field)
    requires m in g
  {
    Typed(g[m], field.typ) &&
    match g[m]
    case Array(_, sub) => SubTyped(g, sub, field.subType)
    case MapOf(_, sub) => SubTyped(g, sub, field.subType)
    case _ => field.subType == ""
  }

  ghost predicate SubTyped(g: Graph, n: Id, typ: string) {
    exists p, m :: m in g && Resolves(g, p, n, m) && Typed(g[m], typ)
  }

  lemma ResolvesMore(g: Graph, p: seq<Id>, n: Id, n': Id, m: Id)
    requires n in g && g[n].Reference? && g[n].target == Some(n') && Resolves(g, p, n', m)
    ensures Resolves(g, [n] + p, n, m)
  {
    var q := [n] + p;
    forall i | 0 <= i < |q| - 1 ensures q[i] in g && g[q[i]].Reference? && g[q[i]].target == Some(q[i + 1]) {
      if i > 0 {
        assert q[i] == p[i - 1] && q[i + 1] == p[i];
      }
    }
  }

  lemma SubOfField(g: Graph, n: Id, field: Field)
    requires StandsFor(g, n, field)
    ensures SubTyped(g, n, field.typ)
  {
  }

  lemma StandsThrough(g: Graph, n: Id, n': Id, field: Field, desc: string)
    requires n in g && g[n].Reference? && g[n].target == Some(n') && StandsFor(g, n', field)
    ensures StandsFor(g, n, field.(desc := desc))
  {
    hide Resolves;
    var p, m :| m in g && Resolves(g, p, n', m) && FieldAt(g, m, field);
    ResolvesMore(g, p, n, n', m);
  }

  lemma {:induction false} FieldStands(g: Graph, n: Id)
    requires Wf(g) && n in g
    ensures StandsFor(g, n, FieldOf(g, n)) && FieldOf(g, n).desc == g[n].desc
    decreases Rank(g, n)
  {
    hide Wf, StandsFor, SubTyped, Resolves;
    if Next(g, n).Some? {
      var n' := Next(g, n).value;
      NextIsEdge(g, n);
      RankDrops(g, n);
      FieldStands(g, n');
      if g[n].Reference? {
        StandsThrough(g, n, n', FieldOf(g, n'), g[n].desc);
      } else {
        SubOfField(g, n', FieldOf(g, n'));
        StandsItself(g, n, FieldOf(g, n));
      }
    } else {
      StandsItself(g, n, FieldOf(g, n));
    }
  }

  lemma StandsItself(g: Graph, n: Id, field: Field)
    requires n in g && (g[n].Reference? ==> g[n].target == None) && FieldAt(g, n, field)
    ensures StandsFor(g, n, field)
  {
    assert Resolves(g, [n], n, n);
  }

  /** Following references from a node ends at one node only. */
  lemma {:induction false} ResolvesOnce(g: Graph, p: seq<Id>, q: seq<Id>, n: Id, m: Id, m': Id)
    requires Resolves(g, p, n, m) && Resolves(g, q, n, m')
    ensures m == m'
    decreases |p|
  {
    hide Resolves;
    FirstStep(g, p, n, m);
    FirstStep(g, q, n, m');
    if |p| > 1 && |q| > 1 {
      ResolvesOnce(g, p[1..], q[1..], p[1], m, m');
    }
  }

  lemma FirstStep(g: Graph, p: seq<Id>, n: Id, m: Id)
    requires Resolves(g, p, n, m)
    ensures p != [] && n in g
    ensures if |p| == 1 then n == m && (g[n].Reference? ==> g[n].target == None)
            else g[n].Reference? && g[n].target == Some(p[1]) && Resolves(g, p[1..], p[1], m)
  {
    if |p| > 1 {
      assert g[p[0]].target == Some(p[1]);
      forall i | 0 <= i < |p[1..]| - 1
        ensures p[1..][i] in g && g[p[1..][i]].Reference? && g[p[1..][i]].target == Some(p[1..][i + 1])
      {
        assert p[1..][i] == p[i + 1] && p[1..][i + 1] == p[i + 2];
      }
    }
  }

  lemma TypedOnce(node: Node, typ: string, typ': string)
    requires Typed(node, typ) && Typed(node, typ')
    ensures typ == typ'
  {
  }

  /** So the type and the subtype are determined. */
  lemma StandsOnce(g: Graph, n: Id, field: Field, field': Field)
    requires StandsFor(g, n, field) && StandsFor(g, n, field')
    ensures field.typ == field'.typ && field.subType == field'.subType
  {
    hide Resolves, Typed, SubTyped;
    var p, m :| m in g && Resolves(g, p, n, m) && FieldAt(g, m, field);
    var q, m' :| m' in g && Resolves(g, q, n, m') && FieldAt(g, m', field');
    ResolvesOnce(g, p, q, n, m, m');
    TypedOnce(g[m], field.typ, field'.typ);
    if g[m].Array? || g[m].MapOf? {
      SubOnce(g, g[m].sub, field.subType, field'.subType);
    }
  }

  lemma SubOnce(g: Graph, n: Id, typ: string, typ': string)
    requires SubTyped(g, n, typ) && SubTyped(g, n, typ')
    ensures typ == typ'
  {
    hide Resolves, Typed;
    var p, m :| m in g && Resolves(g, p, n, m) && Typed(g[m], typ);
    var q, m' :| m' in g && Resolves(g, q, n, m') && Typed(g[m'], typ');
    ResolvesOnce(g, p, q, n, m, m');
    TypedOnce(g[m], typ, typ');
  }

  // ----- Main result -----

  /** The definition says of the kind what its nodes say. */
  ghost predicate Describes(g: Graph, k: Id, def: Definition)
    requires k in g && g[k].Kind?
  {
    && def.typ == g[k].path && def.desc == g[k].desc && def.fields.Keys == g[k].fields.Keys
    && forall f :: f in g[k].fields ==>
         var n, field := g[k].fields[f], def.fields[f];
         n in g && StandsFor(g, n, field) && field.desc == g[n].desc && (field.required <==> f in g[k].required)
  }

  /** Exactly the kinds that the root is made up of, through any number of nodes, are defined, and each definition
      says what its nodes say. */
  lemma DefinitionsMean(g: Graph, root: Id, defs: map<string, Definition>, k: Id)
    requires Wf(g) && ResultOf(g, root, defs) && k in g && g[k].Kind?
    ensures g[k].path in defs <==> exists p :: Leading(g, p, root, k)
    ensures g[k].path in defs ==> Describes(g, k, defs[g[k].path])
  {
    hide Reaches, Leading, StandsFor, FieldOf, Closed, CyclesHaveKinds;
    LeadingIffReaches(g, root, k);
    if g[k].path in defs {
      var j :| IsDefinitionOf(g, defs, g[k].path, j) && Reaches(g, root, j);
      assert j == k;
      forall f | f in g[k].fields
        ensures g[k].fields[f] in g && StandsFor(g, g[k].fields[f], defs[g[k].path].fields[f])
                && defs[g[k].path].fields[f].desc == g[g[k].fields[f]].desc
      {
        FieldIsEdge(g, k, f);
        FieldStands(g, g[k].fields[f]);
        RequiredAside(g, g[k].fields[f], FieldOf(g, g[k].fields[f]), f in g[k].required);
      }
    }
  }

  lemma RequiredAside(g: Graph, n: Id, field: Field, required: bool)
    requires StandsFor(g, n, field)
    ensures StandsFor(g, n, field.(required := required))
  {
  }
}
