/**
 When a constructed query names only columns that exist. A label that is a sort key and is filtered
 by negative operators only stays bound to a WITH table, which has no label column; and the fields
 table of a cluster-scoped kind has no column for the namespace.
 */
module QueryColumns {
  import opened Prelude
  import opened Sql
  import opened ListOptions
  import opened QueryBuilder
  import opened ColumnNames
  import opened QueryMeaning
  import opened QueryResult

  ghost predicate AllBound(t: Tables, ps: seq<Piece>) {
    forall i :: 0 <= i < |ps| ==> Bound(t, ps[i].clause)
  }

  /** The columns a filter's clause names exist. */
  ghost predicate FilterBound(t: Tables, env: Env, f: Filter) {
    IsLabelFilter(f) && f.op != NotExists ==>
      |f.field| > 2 && f.field[2] in env.joinIndex && HasLabelColumn(t.joins, env.joinIndex[f.field[2]])
  }

  lemma OneFilterBound(t: Tables, env: Env, f: Filter)
    requires OneFilter(env, f).Ok? && t.indexed == env.indexed
    ensures Bound(t, OneFilter(env, f).value.clause) <==> FilterBound(t, env, f)
  {
    hide HasLabelColumn, ValidFieldEntry;
    if IsLabelFilter(f) {
      var lt := env.joinIndex[f.field[2]];
      LabelFilterBound(t, env.d, lt, f);
    } else {
      EntryIndexed(env.indexed, f.field);
    }
  }

  /** lt.label = ? AND c, where c compares the value, needs the label column only. */
  lemma ValueTestBound(t: Tables, lt: nat, c: Clause)
    requires c.Compare? || c.InList?
    requires c.e == LabelValue(lt)
    ensures Bound(t, WithLabelName(lt, c)) <==> HasLabelColumn(t.joins, lt)
    ensures Bound(t, Disj(LacksLabel, WithLabelName(lt, c))) <==> HasLabelColumn(t.joins, lt)
  {
    assert Bound(t, Disj(LacksLabel, WithLabelName(lt, c))) <==> Bound(t, WithLabelName(lt, c));
    assert Bound(t, WithLabelName(lt, c)) <==> HasLabelColumn(t.joins, lt) && Bound(t, c);
  }

  lemma LabelFilterBound(t: Tables, d: Dialect, lt: nat, f: Filter)
    requires |f.field| > 2 && LabelFilter(d, lt, f).Ok?
    ensures Bound(t, LabelFilter(d, lt, f).value.clause) <==> f.op == NotExists || HasLabelColumn(t.joins, lt)
  {
    hide HasLabelColumn, WithLabelName;
    var v := LabelValue(lt);
    match f.op
    case Eq => ValueTestBound(t, lt, Compare(v, EqualOp(f)));
    case NotEq => ValueTestBound(t, lt, Compare(v, NotEqualOp(f)));
    case Lt | Gt => ValueTestBound(t, lt, Compare(v, OrderOp(f.op)));
    case In => ValueTestBound(t, lt, InList(v, false, ListHoles(f)));
    case NotIn => ValueTestBound(t, lt, InList(v, true, ListHoles(f)));
    case Exists | NotExists => {}
  }

  lemma {:induction false} JoinedBound(t: Tables, cs: seq<Clause>)
    requires cs != []
    ensures Bound(t, DisjAll(cs)) <==> forall i :: 0 <= i < |cs| ==> Bound(t, cs[i])
    ensures Bound(t, ConjAll(cs)) <==> forall i :: 0 <= i < |cs| ==> Bound(t, cs[i])
  {
    if |cs| > 1 {
      var n := |cs| - 1;
      JoinedBound(t, cs[..n]);
      assert forall i :: 0 <= i < n ==> cs[..n][i] == cs[i];
      assert Bound(t, DisjAll(cs)) <==> Bound(t, DisjAll(cs[..n])) && Bound(t, cs[n]);
      assert Bound(t, ConjAll(cs)) <==> Bound(t, ConjAll(cs[..n])) && Bound(t, cs[n]);
    }
  }

  ghost predicate GroupBound(t: Tables, env: Env, fs: OrFilter) {
    forall j :: 0 <= j < |fs| ==> FilterBound(t, env, fs[j])
  }

  lemma GroupPieceBound(t: Tables, env: Env, fs: OrFilter)
    requires GroupPiece(env, fs).Ok? && t.indexed == env.indexed
    ensures var p := GroupPiece(env, fs).value;
            if p.None? then fs == [] else Bound(t, p.value.clause) <==> GroupBound(t, env, fs)
  {
    hide OneFilter, Bound, FilterBound;
    var one := f => OneFilter(env, f);
    PiecesShape(one, fs);
    var ps := Pieces(one, fs).value;
    if ps != [] {
      JoinedBound(t, ClausesOf(ps));
      forall j | 0 <= j < |fs| ensures Bound(t, ClausesOf(ps)[j]) <==> FilterBound(t, env, fs[j]) {
        OneFilterBound(t, env, fs[j]);
      }
    }
  }

  ghost predicate GroupsBound(t: Tables, env: Env, groups: seq<OrFilter>) {
    forall i :: 0 <= i < |groups| ==> GroupBound(t, env, groups[i])
  }

  lemma LastBound(t: Tables, ps: seq<Piece>, p: Piece)
    ensures AllBound(t, ps + [p]) <==> AllBound(t, ps) && Bound(t, p.clause)
  {
    if AllBound(t, ps + [p]) {
      forall i | 0 <= i < |ps| ensures Bound(t, ps[i].clause) {
        assert (ps + [p])[i] == ps[i];
      }
      assert (ps + [p])[|ps|] == p;
    }
  }

  lemma {:induction false} FilterPiecesBound(t: Tables, env: Env, groups: seq<OrFilter>)
    requires FilterPieces(env, groups).Ok? && t.indexed == env.indexed
    ensures AllBound(t, FilterPieces(env, groups).value) <==> GroupsBound(t, env, groups)
  {
    hide AllBound, GroupPiece, GroupBound, Bound;
    if groups == [] {
      NoneBound(t);
    } else {
      var n := |groups| - 1;
      FilterPiecesBound(t, env, groups[..n]);
      GroupPieceBound(t, env, groups[n]);
      EmptyGroupBound(t, env);
      assert forall i :: 0 <= i < n ==> groups[..n][i] == groups[i];
      assert GroupsBound(t, env, groups) <==> GroupsBound(t, env, groups[..n]) && GroupBound(t, env, groups[n]);
      if GroupPiece(env, groups[n]).value.Some? {
        LastBound(t, FilterPieces(env, groups[..n]).value, GroupPiece(env, groups[n]).value.value);
      }
    }
  }

  lemma NoneBound(t: Tables)
    ensures AllBound(t, [])
  {
  }

  lemma EmptyGroupBound(t: Tables, env: Env)
    ensures GroupBound(t, env, [])
  {
  }

  // ----- The other clauses -----

  /** The projects clauses need the label column of the project label's table, and for NOT IN the
      namespace of the object. */
  lemma ProjectsBoundIff(t: Tables, env: Env, pr: Projects, lt: nat)
    requires NAME in env.indexed && ProjectsOk(pr)
    requires pr.Projects? ==> PROJECT_LABEL in env.joinIndex && env.joinIndex[PROJECT_LABEL] == lt
    requires pr.Projects? ==> exists j :: j in t.joins && j.NamespaceLabels?
    ensures ProjectPieces(env, ProjectsOf(pr)).Ok?
    ensures AllBound(t, ProjectPieces(env, ProjectsOf(pr)).value) <==>
            (pr.Projects? ==> HasLabelColumn(t.joins, lt) && (pr.op == NotIn ==> NAMESPACE in t.indexed))
  {
    hide ProjectPieces, HasLabelColumn;
    if pr.Projects? {
      ProjectPiecesShape(env, pr.list, pr.op, lt);
      var list := WithLabelName(lt, InList(LabelValue(lt), pr.op == NotIn, |pr.list|));
      ValueTestBound(t, lt, InList(LabelValue(lt), pr.op == NotIn, |pr.list|));
      var name := InList(FieldOf(Nsf, Column(NAME)), pr.op == NotIn, |pr.list|);
      assert Bound(t, name);
      assert Bound(t, Disj(list, NamespaceLacksLabel)) <==> Bound(t, list) && NAMESPACE in t.indexed;
      assert Bound(t, Disj(name, list)) <==> Bound(t, list);
      assert Bound(t, Conj(name, Disj(list, NamespaceLacksLabel))) <==> Bound(t, Disj(list, NamespaceLacksLabel));
      OneBound(t, ProjectPieces(env, ProjectsOf(pr)).value[0]);
    } else {
      NoProjectPieces(env);
      NoneBound(t);
    }
  }

  lemma OneBound(t: Tables, p: Piece)
    ensures AllBound(t, [p]) <==> Bound(t, p.clause)
  {
    assert [p][0] == p;
  }

  lemma NoProjectPieces(env: Env)
    ensures ProjectPieces(env, []) == Ok([])
  {
  }

  lemma NamespaceBoundIff(t: Tables, namespace: string)
    ensures AllBound(t, NamespacePieces(namespace)) <==> (NamesOne(namespace) ==> NAMESPACE in t.indexed)
  {
    if NamesOne(namespace) {
      OneBound(t, InNamespace(namespace));
    }
  }

  /** A partition that names one namespace. */
  predicate PartitionBound(t: Tables, p: Partition) { PartitionNamesOne(p) ==> NAMESPACE in t.indexed }

  lemma PartitionPartsBoundIff(t: Tables, d: Dialect, p: Partition)
    requires NAME in t.indexed
    ensures AllBound(t, PartitionParts(d, p)) <==> PartitionBound(t, p)
    ensures PartitionParts(d, p) == [] ==> PartitionBound(t, p)
  {
    if !p.passthrough {
      NamespaceBoundIff(t, p.namespace);
      BoundAppend(t, NamespacePieces(p.namespace), NamesPieces(d, p));
      assert PartitionParts(d, p) == NamespacePieces(p.namespace) + NamesPieces(d, p);
    }
  }

  lemma ClausesBoundIff(t: Tables, ps: seq<Piece>)
    requires ps != []
    ensures Bound(t, DisjAll(ClausesOf(ps))) <==> AllBound(t, ps)
    ensures Bound(t, ConjAll(ClausesOf(ps))) <==> AllBound(t, ps)
  {
    JoinedBound(t, ClausesOf(ps));
    WheresBound(t, ps);
  }

  lemma {:induction false} PartitionClausesBoundIff(t: Tables, d: Dialect, parts: seq<Partition>)
    requires NAME in t.indexed
    ensures AllBound(t, PartitionClauses(d, parts)) <==> forall i :: 0 <= i < |parts| ==> PartitionBound(t, parts[i])
  {
    hide Bound, PartitionParts, AllBound, PartitionBound;
    if parts == [] {
      NoneBound(t);
    } else {
      var n := |parts| - 1;
      var ps := PartitionParts(d, parts[n]);
      PartitionClausesBoundIff(t, d, parts[..n]);
      PartitionPartsBoundIff(t, d, parts[n]);
      LastPartitionBound(t, parts);
      if ps != [] {
        ClausesBoundIff(t, ps);
        LastBound(t, PartitionClauses(d, parts[..n]), Piece(ConjAll(ClausesOf(ps)), ParamsOf(ps)));
      } else {
        assert PartitionClauses(d, parts) == PartitionClauses(d, parts[..n]);
      }
    }
  }

  lemma LastPartitionBound(t: Tables, parts: seq<Partition>)
    requires parts != []
    ensures var n := |parts| - 1;
            (forall i :: 0 <= i < |parts| ==> PartitionBound(t, parts[i])) <==>
            (forall i :: 0 <= i < n ==> PartitionBound(t, parts[..n][i])) && PartitionBound(t, parts[n])
  {
    hide PartitionBound;
    var n := |parts| - 1;
    if (forall i :: 0 <= i < n ==> PartitionBound(t, parts[..n][i])) && PartitionBound(t, parts[n]) {
      forall i | 0 <= i < |parts| ensures PartitionBound(t, parts[i]) {
        if i < n {
          assert parts[..n][i] == parts[i];
        }
      }
    }
  }

  lemma PartitionsBoundIff(t: Tables, d: Dialect, parts: seq<Partition>)
    requires NAME in t.indexed
    ensures AllBound(t, PartitionPieces(d, parts)) <==> forall i :: 0 <= i < |parts| ==> PartitionBound(t, parts[i])
  {
    hide AllBound, PartitionBound, PartitionClauses;
    PartitionClausesBoundIff(t, d, parts);
    var ps := PartitionClauses(d, parts);
    if parts == [] {
      OneBound(t, Piece(Never, []));
    } else if ps == [] {
      NoneBound(t);
    } else {
      ClausesBoundIff(t, ps);
      OneBound(t, Piece(DisjAll(ClausesOf(ps)), ParamsOf(ps)));
    }
  }

  // ----- The exact condition -----

  lemma LabelColumnIff(lo: Options, b: Binding, name: string)
    requires BindingOk(lo, b) && name in b.names
    ensures name in b.joinIndex
    ensures HasLabelColumn(b.joins, b.joinIndex[name]) <==> !UnboundSortLabel(lo, name)
  {
    hide UnboundSortLabel, FiltersLabel;
    JoinIndices(lo, b);
    var i :| 0 <= i < |b.names| && b.names[i] == name;
    assert b.joins[i].lt == i + 1 && b.joins[i] in b.joins;
    if name in b.with {
      var k :| 0 <= k < |b.with| && b.with[k] == name;
      assert b.names[k] == name;
    }
  }

  lemma FilteredIsNamed(lo: Options, b: Binding, name: string)
    requires BindingOk(lo, b) && FiltersLabel(lo.filters, name)
    ensures name in b.names
  {
    hide UnboundSortLabel, FiltersLabel;
  }

  /** The project label's table has a label column unless the label is an unbound sort key. */
  lemma ProjectColumnIff(lo: Options, pr: Projects, b: Binding)
    requires BindingOk(lo, b) && lo.projects == ProjectsOf(pr) && pr.Projects?
    ensures PROJECT_LABEL in b.joinIndex && exists j :: j in b.joins && j.NamespaceLabels?
    ensures HasLabelColumn(b.joins, b.joinIndex[PROJECT_LABEL]) <==> !UnboundSortLabel(lo, PROJECT_LABEL)
  {
    hide FiltersLabel, UnboundSortLabel;
    JoinIndices(lo, b);
    assert b.joins[|b.names|] in b.joins;
    if PROJECT_LABEL in b.names {
      LabelColumnIff(lo, b, PROJECT_LABEL);
    } else {
      assert PROJECT_LABEL !in b.with by { BindingPrefix(lo, b); }
      assert b.joins[|b.names|].lt == b.joinIndex[PROJECT_LABEL];
    }
  }

  ghost predicate Clashless(lo: Options) { forall name :: !Clashes(lo, name) }

  /** The filters' columns exist exactly when no sort label clashes. */
  lemma GroupsBoundIff(d: Dialect, indexed: seq<string>, lo: Options, b: Binding)
    requires BindingOk(lo, b) && LabelsNamed(lo.filters) && OpsKnown(lo.filters)
    ensures GroupsBound(Tables(indexed, b.joins), Env(d, indexed, b.joinIndex), lo.filters) <==> Clashless(lo)
  {
    hide BindingOk, HasLabelColumn, Clashes;
    var env := Env(d, indexed, b.joinIndex);
    if Clashless(lo) {
      forall i, j | 0 <= i < |lo.filters| && 0 <= j < |lo.filters[i]|
        ensures FilterBound(Tables(indexed, b.joins), env, lo.filters[i][j])
      {
        var f := lo.filters[i][j];
        if IsLabelFilter(f) && f.op != NotExists {
          ClashOf(lo, i, j);
          FilteredIsNamed(lo, b, f.field[2]);
          LabelColumnIff(lo, b, f.field[2]);
        }
      }
    }
    if name :| Clashes(lo, name) {
      var i, j := ClashAt(lo, name);
      FilteredIsNamed(lo, b, name);
      LabelColumnIff(lo, b, name);
      assert !FilterBound(Tables(indexed, b.joins), env, lo.filters[i][j]);
    }
  }

  /** Filters with an operator outside the enumeration are refused. */
  ghost predicate OpsKnown(groups: seq<OrFilter>) {
    forall i, j :: 0 <= i < |groups| && 0 <= j < |groups[i]| ==> groups[i][j].op != OtherOp
  }

  lemma ClashOf(lo: Options, i: nat, j: nat)
    requires i < |lo.filters| && j < |lo.filters[i]|
    requires var f := lo.filters[i][j]; IsLabelFilter(f) && |f.field| > 2 && f.op != NotExists && f.op != OtherOp
    ensures FiltersLabel(lo.filters, lo.filters[i][j].field[2])
    ensures UnboundSortLabel(lo, lo.filters[i][j].field[2]) ==> Clashes(lo, lo.filters[i][j].field[2])
  {
    var f := lo.filters[i][j];
    assert NamesLabel(f, f.field[2]);
    assert f.op.Eq? || f.op.NotEq? || f.op.Exists? || f.op.In? || f.op.NotIn? || f.op.Lt? || f.op.Gt?;
    if Selective(f.op) {
      assert SelectsLabel(lo.filters, f.field[2]);
    }
  }

  lemma ClashAt(lo: Options, name: string) returns (i: nat, j: nat)
    requires Clashes(lo, name)
    ensures i < |lo.filters| && j < |lo.filters[i]|
    ensures NamesLabel(lo.filters[i][j], name) && lo.filters[i][j].op in {NotEq, NotIn}
    ensures UnboundSortLabel(lo, name) && FiltersLabel(lo.filters, name)
  {
    hide UnboundSortLabel;
    i, j :| 0 <= i < |lo.filters| && 0 <= j < |lo.filters[i]|
      && NamesLabel(lo.filters[i][j], name) && lo.filters[i][j].op in {NotEq, NotIn};
  }

  lemma {:induction false} OkFilters(env: Env, groups: seq<OrFilter>)
    requires FilterPieces(env, groups).Ok?
    ensures LabelsNamed(groups) && OpsKnown(groups)
  {
    if groups != [] {
      var n := |groups| - 1;
      OkFilters(env, groups[..n]);
      var one := f => OneFilter(env, f);
      PiecesShape(one, groups[n]);
      forall j | 0 <= j < |groups[n]|
        ensures groups[n][j].op != OtherOp && (IsLabelFilter(groups[n][j]) ==> |groups[n][j].field| > 2)
      {
        OkFilter(env, groups[n][j]);
      }
      forall i, j | 0 <= i < |groups| && 0 <= j < |groups[i]|
        ensures groups[i][j].op != OtherOp && (IsLabelFilter(groups[i][j]) ==> |groups[i][j].field| > 2)
      {
        if i < n {
          assert groups[..n][i] == groups[i];
        }
      }
    }
  }

  lemma OkFilter(env: Env, f: Filter)
    requires OneFilter(env, f).Ok?
    ensures f.op != OtherOp && (IsLabelFilter(f) ==> |f.field| > 2)
  {
  }

  lemma {:induction false} BoundAppend(t: Tables, a: seq<Piece>, c: seq<Piece>)
    ensures AllBound(t, a + c) <==> AllBound(t, a) && AllBound(t, c)
  {
    hide Bound;
    if AllBound(t, a + c) {
      forall i | 0 <= i < |a| ensures Bound(t, a[i].clause) {
        assert (a + c)[i] == a[i];
      }
      forall i | 0 <= i < |c| ensures Bound(t, c[i].clause) {
        assert (a + c)[|a| + i] == c[i];
      }
    }
  }

  /** A projects filter while the project label is a sort key that no filter requires. */
  ghost predicate ProjectClash(lo: Options, pr: Projects) { pr.Projects? && UnboundSortLabel(lo, PROJECT_LABEL) }

  /** Every column that the joins and clauses of a query name exists if and only if no sort label is
      filtered by negative comparisons only, the project label is not such a sort key while projects
      are filtered, and nothing asks for the namespace of a kind without one. */
  lemma ColumnsExistIff(d: Dialect, indexed: seq<string>, lo: Options, pr: Projects, namespace: string,
                        parts: seq<Partition>, b: Binding, q: Query)
    requires BindingOk(lo, b) && NAME in indexed && ProjectsOk(pr) && lo.projects == ProjectsOf(pr)
    requires Assemble(d, indexed, lo, namespace, parts, b) == Ok(q)
    ensures ColumnsExist(indexed, q) <==>
            Clashless(lo) && !ProjectClash(lo, pr) && NamespaceKnown(indexed, pr, namespace, parts)
  {
    hide Bound, FilterPieces, ProjectPieces, PartitionPieces, NamespacePieces, Clashless, GroupsBound, ParamsOf,
      FiltersLabel, UnboundSortLabel, AllBound, ProjectsOf, UsesLabels, HasLabelColumn, BindingOk, JoinBound;
    var env := Env(d, indexed, b.joinIndex);
    var t := Tables(indexed, b.joins);
    var fs := FilterPieces(env, lo.filters).value;
    var ps := ProjectPieces(env, lo.projects).value;
    var ns := NamespacePieces(namespace);
    var qs := PartitionPieces(d, parts);
    OkFilters(env, lo.filters);
    FilterPiecesBound(t, env, lo.filters);
    GroupsBoundIff(d, indexed, lo, b);
    if pr.Projects? {
      ProjectColumnIff(lo, pr, b);
    }
    ProjectsBoundIff(t, env, pr, if pr.Projects? then b.joinIndex[PROJECT_LABEL] else 0);
    JoinsBoundIff(indexed, lo, pr, b);
    NamespaceBoundIff(t, namespace);
    PartitionsBoundIff(t, d, parts);
    KnownIff(t, pr, namespace, parts);
    BoundAppend(t, fs, ps);
    BoundAppend(t, fs + ps, ns);
    BoundAppend(t, fs + ps + ns, qs);
    WheresBound(t, fs + ps + ns + qs);
  }

  lemma JoinsBoundIff(indexed: seq<string>, lo: Options, pr: Projects, b: Binding)
    requires BindingOk(lo, b) && lo.projects == ProjectsOf(pr)
    ensures (forall j :: j in b.joins ==> JoinBound(indexed, j)) <==> (pr.Projects? ==> NAMESPACE in indexed)
  {
    hide FiltersLabel, UnboundSortLabel;
    JoinIndices(lo, b);
    if pr.Projects? {
      assert b.joins[|b.names|] in b.joins;
    } else {
      forall j | j in b.joins ensures !j.NamespaceLabels? {
        var i :| 0 <= i < |b.joins| && b.joins[i] == j;
        assert |b.joins| == |b.names| + |b.joins[|b.names|..]|;
      }
    }
  }

  lemma KnownIff(t: Tables, pr: Projects, namespace: string, parts: seq<Partition>)
    ensures NamespaceKnown(t.indexed, pr, namespace, parts) <==>
            && (pr.Projects? ==> NAMESPACE in t.indexed)
            && (NamesOne(namespace) ==> NAMESPACE in t.indexed)
            && (forall i :: 0 <= i < |parts| ==> PartitionBound(t, parts[i]))
  {
    hide PartitionNamesOne;
    if NAMESPACE !in t.indexed && forall i :: 0 <= i < |parts| ==> PartitionBound(t, parts[i]) {
      forall p | p in parts ensures !PartitionNamesOne(p) {
        var i :| 0 <= i < |parts| && parts[i] == p;
        assert PartitionBound(t, parts[i]);
      }
    }
  }

  lemma WheresBound(t: Tables, ps: seq<Piece>)
    ensures AllBound(t, ps) <==> forall i :: 0 <= i < |ClausesOf(ps)| ==> Bound(t, ClausesOf(ps)[i])
  {
    hide Bound;
    forall i | 0 <= i < |ps| ensures ClausesOf(ps)[i] == ps[i].clause {
    }
  }

  // ----- Order -----

  /** The label of a sort directive always has a join. */
  lemma SortLabelJoined(lo: Options, b: Binding, i: nat)
    requires BindingOk(lo, b) && i < |lo.sort| && IsLabelsFieldList(lo.sort[i])
    ensures lo.sort[i][2] in b.joinIndex
    ensures exists j :: j in b.joins && j.lt == b.joinIndex[lo.sort[i][2]]
  {
    hide FiltersLabel, UnboundSortLabel;
    var name := lo.sort[i][2];
    SortLabelNamed(lo, i);
    var k :| 0 <= k < |b.names| && b.names[k] == name;
    assert b.joins[k] in b.joins && b.joins[k].lt == k + 1;
  }

  lemma SortLabelNamed(lo: Options, i: nat)
    requires i < |lo.sort| && IsLabelsFieldList(lo.sort[i])
    ensures UnboundSortLabel(lo, lo.sort[i][2]) || FiltersLabel(lo.filters, lo.sort[i][2])
  {
    assert SortsBy(lo.sort, lo.sort[i][2]);
  }

  /** What a sort directive compares: the value of its label, or the field that its path stands for. */
  ghost predicate SortsOn(indexed: seq<string>, joinIndex: map<string, nat>, fields: seq<string>, e: Expr) {
    if |fields| == 3 && fields[0] == "metadata" && fields[1] == "labels"
    then fields[2] in joinIndex && e == LabelValue(joinIndex[fields[2]])
    else e.FieldOf? && e.table == F && EntryFor(indexed, fields, e.entry)
  }

  ghost predicate Sortable(indexed: seq<string>, joinIndex: map<string, nat>, fields: seq<string>) {
    exists e :: SortsOn(indexed, joinIndex, fields, e)
  }

  /** It is refused exactly when there is nothing to compare. */
  lemma SortExprMeans(indexed: seq<string>, lo: Options, b: Binding, i: nat)
    requires BindingOk(lo, b) && i < |lo.sort|
    ensures var r := SortExpr(indexed, b.joinIndex, lo.sort[i]);
            && (r.Ok? <==> Sortable(indexed, b.joinIndex, lo.sort[i]))
            && (r.Ok? ==> SortsOn(indexed, b.joinIndex, lo.sort[i], r.value))
            && (r.Ok? ==> ExprBound(Tables(indexed, b.joins), r.value))
  {
    hide BindingOk, ValidFieldEntry, EntryFor;
    var fields := lo.sort[i];
    if IsLabelsFieldList(fields) {
      SortLabelJoined(lo, b, i);
      assert SortsOn(indexed, b.joinIndex, fields, LabelValue(b.joinIndex[fields[2]]));
    } else if ValidFieldEntry(indexed, fields).Ok? {
      EntryIndexed(indexed, fields);
      EntryForIff(indexed, fields, ValidFieldEntry(indexed, fields).value);
      assert SortsOn(indexed, b.joinIndex, fields, FieldOf(F, ValidFieldEntry(indexed, fields).value));
    } else if e :| SortsOn(indexed, b.joinIndex, fields, e) {
      EntryForIff(indexed, fields, e.entry);
    }
  }

  lemma {:induction false} SortExprsMean(indexed: seq<string>, lo: Options, b: Binding, n: nat)
    requires BindingOk(lo, b) && n <= |lo.sort|
    ensures var es := SortExprs(indexed, b.joinIndex, lo.sort[..n]);
            && (es.Ok? <==> forall i :: 0 <= i < n ==> Sortable(indexed, b.joinIndex, lo.sort[i]))
            && (es.Ok? ==>
                  && |es.value| == n
                  && (forall i :: 0 <= i < n ==> SortsOn(indexed, b.joinIndex, lo.sort[i], es.value[i]))
                  && (forall i :: 0 <= i < n ==> ExprBound(Tables(indexed, b.joins), es.value[i])))
  {
    hide BindingOk, SortExpr, ExprBound, SortsOn, Sortable;
    if n > 0 {
      assert lo.sort[..n][..n - 1] == lo.sort[..n - 1];
      SortExprsMean(indexed, lo, b, n - 1);
      SortExprMeans(indexed, lo, b, n - 1);
    }
  }

  /** The ORDER BY clause compares what the sort directives say, one after the other, and is refused exactly when there
      is nothing to compare for one of them. Its columns exist, except that the default order of a namespaced kind
      needs its id. */
  lemma OrderColumnsIff(indexed: seq<string>, namespaced: bool, lo: Options, b: Binding)
    requires BindingOk(lo, b) && NAME in indexed
    ensures var es := OrderBy(indexed, namespaced, b.joinIndex, lo.sort);
            && (es.Ok? <==> forall i :: 0 <= i < |lo.sort| ==> Sortable(indexed, b.joinIndex, lo.sort[i]))
            && (es.Ok? && lo.sort != [] ==>
                  && |es.value| == |lo.sort|
                  && forall i :: 0 <= i < |lo.sort| ==> SortsOn(indexed, b.joinIndex, lo.sort[i], es.value[i]))
            && (lo.sort == [] ==> es == Ok([FieldOf(F, Column(if namespaced then "id" else "metadata.name"))]))
            && (es.Ok? ==>
                  ((forall i :: 0 <= i < |es.value| ==> ExprBound(Tables(indexed, b.joins), es.value[i])) <==>
                   (lo.sort == [] && namespaced ==> "id" in indexed)))
  {
    hide BindingOk, SortsOn, Sortable;
    if lo.sort == [] {
      DefaultOrder(Tables(indexed, b.joins), namespaced);
    } else {
      SortExprsMean(indexed, lo, b, |lo.sort|);
      assert lo.sort[..|lo.sort|] == lo.sort;
    }
  }

  /** No filter holds only for objects with the label. */
  ghost predicate NotRequired(lo: Options, name: string) {
    forall i, j :: 0 <= i < |lo.filters| && 0 <= j < |lo.filters[i]| ==>
      var f := lo.filters[i][j];
      !(|f.field| > 2 && f.field[0] == "metadata" && f.field[1] == "labels" && f.field[2] == name
        && f.op in {Eq, In, Lt, Gt, Exists})
  }

  /** Such a label is sorted by its own value: in every joined row the directive compares the object's value of the
      label, or NULL without one, whatever else is filtered. */
  lemma SortShowsLabel(d: Dialect, db: Db, lo: Options, b: Binding, row: Row, i: nat, name: string)
    requires BindingOk(lo, b) && RowOf(db, b.joins, b.with, row)
    requires i < |lo.sort| && lo.sort[i] == ["metadata", "labels", name] && NotRequired(lo, name)
    ensures name in b.joinIndex
    ensures var labels := LabelsOf(db.labels, row.key);
            ExprValue(d, db, row, LabelValue(b.joinIndex[name])) == if name in labels then Some(labels[name]) else None
  {
    hide BindingOk, RowOf, LabelsOf, NotRequired;
    UnboundIs(lo, i, name);
    var k := WithPlace(lo, b, name);
    WithShows(db, b, row, k);
  }

  lemma WithPlace(lo: Options, b: Binding, name: string) returns (k: nat)
    requires BindingOk(lo, b) && UnboundSortLabel(lo, name)
    ensures k < |b.with| <= |b.joins| && b.with[k] == name && b.joins[k] == WithLabel(k + 1)
    ensures name in b.joinIndex && b.joinIndex[name] == k + 1
  {
    hide FiltersLabel, UnboundSortLabel;
    k :| 0 <= k < |b.with| && b.with[k] == name;
    assert b.names[k] == name;
  }

  lemma WithShows(db: Db, b: Binding, row: Row, k: nat)
    requires RowOf(db, b.joins, b.with, row) && k < |b.with| <= |b.joins| && b.joins[k] == WithLabel(k + 1)
    ensures var labels := LabelsOf(db.labels, row.key);
            k + 1 in row.lts
            && row.lts[k + 1] == if b.with[k] in labels then Some(LabelRow(b.with[k], labels[b.with[k]])) else None
  {
    hide LabelsOf;
    assert JoinOk(db, row, b.joins[k], b.with[k]);
  }

  lemma UnboundIs(lo: Options, i: nat, name: string)
    requires i < |lo.sort| && lo.sort[i] == ["metadata", "labels", name] && NotRequired(lo, name)
    ensures UnboundSortLabel(lo, name)
  {
    assert SortsBy(lo.sort, name);
  }

  lemma DefaultOrder(t: Tables, namespaced: bool)
    requires NAME in t.indexed
    ensures var es := [FieldOf(F, Column(if namespaced then ID else NAME))];
            (forall i :: 0 <= i < |es| ==> ExprBound(t, es[i])) <==> (namespaced ==> ID in t.indexed)
  {
    var es := [FieldOf(F, Column(if namespaced then ID else NAME))];
    assert ExprBound(t, es[0]) <==> (namespaced ==> ID in t.indexed);
  }

  // ----- Requests without their columns -----

  /** Sorting by a label and filtering it by != only: the query names a column its WITH table lacks. */
  lemma SortedAndExcluded(d: Dialect, indexed: seq<string>, name: string, parts: seq<Partition>)
    returns (lo: Options, b: Binding, q: Query)
    requires NAME in indexed
    ensures lo == Options([[Filter(["metadata", "labels", name], ["v"], NotEq, false)]], [], [["metadata", "labels", name]])
    ensures BindingOk(lo, b) && Assemble(d, indexed, lo, "", parts, b) == Ok(q) && !ColumnsExist(indexed, q)
  {
    var f := Filter(["metadata", "labels", name], ["v"], NotEq, false);
    lo := Options([[f]], [], [["metadata", "labels", name]]);
    b := Binding([name], [name], [WithLabel(1)], map[name := 1]);
    ExcludedBinding(lo, b, name);
    hide BindingOk, Clashes, FilterPieces, ProjectPieces, PartitionPieces, ColumnsExist;
    var env := Env(d, indexed, b.joinIndex);
    OneFilterOk(env, f);
    NoProjectPieces(env);
    q := Assemble(d, indexed, lo, "", parts, b).value;
    ColumnsExistIff(d, indexed, lo, NoProjects, "", parts, b, q);
  }

  lemma ExcludedBinding(lo: Options, b: Binding, name: string)
    requires lo == Options([[Filter(["metadata", "labels", name], ["v"], NotEq, false)]], [], [["metadata", "labels", name]])
    requires b == Binding([name], [name], [WithLabel(1)], map[name := 1])
    ensures BindingOk(lo, b) && Clashes(lo, name)
  {
    assert NamesLabel(lo.filters[0][0], name) && IsLabelsFieldList(lo.sort[0]) && SortsBy(lo.sort, name);
  }

  lemma OneFilterOk(env: Env, f: Filter)
    requires OneFilter(env, f).Ok?
    ensures FilterPieces(env, [[f]]).Ok?
  {
    var one := f => OneFilter(env, f);
    assert [f][..0] == [] && [[f]][..0] == [];
    assert Pieces(one, [f][..0]) == Ok([]);
    assert Pieces(one, [f]).Ok?;
    assert FilterPieces(env, [[f]][..0]) == Ok([]);
  }

  /** Sorting by the project label while projects are filtered: so does this one, though no label clashes. */
  lemma SortedByProject(d: Dialect, indexed: seq<string>, list: seq<string>, op: Op, parts: seq<Partition>)
    returns (lo: Options, b: Binding, q: Query)
    requires NAME in indexed && op in {In, NotIn} && list != []
    ensures lo == Options([], ProjectFilter(list, op), [["metadata", "labels", PROJECT_LABEL]]) && Clashless(lo)
    ensures BindingOk(lo, b) && Assemble(d, indexed, lo, "", parts, b) == Ok(q) && !ColumnsExist(indexed, q)
  {
    var pr := Projects(list, op);
    lo := Options([], ProjectFilter(list, op), [["metadata", "labels", PROJECT_LABEL]]);
    b := Binding([PROJECT_LABEL], [PROJECT_LABEL], [WithLabel(1), NamespaceLabels(2)], map[PROJECT_LABEL := 1]);
    ProjectBinding(lo, b, list, op);
    hide BindingOk, Clashes, ProjectPieces, PartitionPieces, ProjectFilter, UnboundSortLabel, ColumnsExist;
    ProjectPiecesShape(Env(d, indexed, b.joinIndex), list, op, 1);
    q := Assemble(d, indexed, lo, "", parts, b).value;
    ColumnsExistIff(d, indexed, lo, pr, "", parts, b, q);
  }

  lemma ProjectBinding(lo: Options, b: Binding, list: seq<string>, op: Op)
    requires lo == Options([], ProjectFilter(list, op), [["metadata", "labels", PROJECT_LABEL]])
    requires b == Binding([PROJECT_LABEL], [PROJECT_LABEL], [WithLabel(1), NamespaceLabels(2)], map[PROJECT_LABEL := 1])
    ensures BindingOk(lo, b) && Clashless(lo) && UnboundSortLabel(lo, PROJECT_LABEL)
  {
    assert IsLabelsFieldList(lo.sort[0]) && SortsBy(lo.sort, PROJECT_LABEL);
    assert b.joins[1..] == [NamespaceLabels(2)];
  }

  /** Filtering the objects of a cluster-scoped kind by projects: so does this one, whatever is sorted by. */
  lemma ClusterScopedProjects(d: Dialect, indexed: seq<string>, list: seq<string>, op: Op, parts: seq<Partition>)
    returns (lo: Options, b: Binding, q: Query)
    requires NAME in indexed && NAMESPACE !in indexed && op in {In, NotIn} && list != []
    ensures lo == Options([], ProjectFilter(list, op), []) && Clashless(lo) && !ProjectClash(lo, Projects(list, op))
    ensures BindingOk(lo, b) && Assemble(d, indexed, lo, "", parts, b) == Ok(q) && !ColumnsExist(indexed, q)
  {
    var pr := Projects(list, op);
    lo := Options([], ProjectFilter(list, op), []);
    b := Binding([], [], [NamespaceLabels(1)], map[PROJECT_LABEL := 1]);
    assert BindingOk(lo, b) && Clashless(lo) && !UnboundSortLabel(lo, PROJECT_LABEL);
    hide BindingOk, Clashes, ProjectPieces, PartitionPieces, ProjectFilter, UnboundSortLabel, ColumnsExist;
    ProjectPiecesShape(Env(d, indexed, b.joinIndex), list, op, 1);
    q := Assemble(d, indexed, lo, "", parts, b).value;
    ColumnsExistIff(d, indexed, lo, pr, "", parts, b, q);
  }
}
