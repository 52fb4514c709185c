/**
 When a constructed query has a parameter for every hole. A label filter prints an empty list as one
 hole and passes no parameter for it. With the columns, this decides which queries are accepted.
 */
module QueryParams {
  import opened Prelude
  import opened Sql
  import opened ListOptions
  import opened QueryBuilder
  import opened QueryMeaning
  import opened QueryResult
  import QueryColumns

  /** No more parameters than holes. */
  predicate Short(p: Piece) { |p.params| <= Holes(p.clause) }

  ghost predicate AllShort(ps: seq<Piece>) { forall i :: 0 <= i < |ps| ==> Short(ps[i]) }

  lemma LastOf(ps: seq<Piece>)
    requires ps != []
    ensures var n := |ps| - 1;
            && |ClausesOf(ps)| == |ps|
            && ClausesOf(ps)[..n] == ClausesOf(ps[..n]) && ClausesOf(ps)[n] == ps[n].clause
            && ParamsOf(ps) == ParamsOf(ps[..n]) + ps[n].params
            && (AllShort(ps) ==> AllShort(ps[..n]) && Short(ps[n]))
            && (AllFit(ps) <==> AllFit(ps[..n]) && Fits(ps[n]))
  {
    hide Fits, Short;
    var n := |ps| - 1;
    assert forall k :: 0 <= k < n ==> ps[..n][k] == ps[k];
    if AllFit(ps[..n]) && Fits(ps[n]) {
      forall k | 0 <= k < |ps| ensures Fits(ps[k]) {
        if k < n {
          assert ps[..n][k] == ps[k];
        }
      }
    }
  }

  /** No piece can make up for another. */
  lemma {:induction false} TotalFitsIff(ps: seq<Piece>)
    requires AllShort(ps)
    ensures |ParamsOf(ps)| <= HolesOfAll(ClausesOf(ps))
    ensures |ParamsOf(ps)| == HolesOfAll(ClausesOf(ps)) <==> AllFit(ps)
  {
    hide ClausesOf, ParamsOf, AllShort, AllFit;
    if ps == [] {
      Nothing();
    } else {
      LastOf(ps);
      TotalFitsIff(ps[..|ps| - 1]);
    }
  }

  lemma Nothing()
    ensures ClausesOf([]) == [] && ParamsOf([]) == [] && AllFit([]) && AllShort([])
  {
  }

  lemma {:induction false} DisjHoles(cs: seq<Clause>)
    requires cs != []
    ensures Holes(DisjAll(cs)) == HolesOfAll(cs)
  {
    if |cs| > 1 {
      DisjHoles(cs[..|cs| - 1]);
    } else {
      assert HolesOfAll(cs[..0]) == 0;
    }
  }

  /** One filter fits its parameters if and only if it is not a label filter with an empty list. */
  lemma OneFilterFitsIff(env: Env, f: Filter)
    requires OneFilter(env, f).Ok?
    ensures Short(OneFilter(env, f).value) && (Fits(OneFilter(env, f).value) <==> ListOk(f))
  {
    hide Target, ValidFieldEntry, LabelFilter;
    if IsLabelFilter(f) {
      LabelFitsIff(env.d, env.joinIndex[f.field[2]], f);
    }
  }

  lemma LabelHoles(lt: nat, c: Clause)
    ensures Holes(WithLabelName(lt, c)) == 1 + Holes(c) && Holes(Disj(LacksLabel, c)) == 1 + Holes(c)
  {
  }

  lemma LabelFitsIff(d: Dialect, lt: nat, f: Filter)
    requires |f.field| > 2 && LabelFilter(d, lt, f).Ok?
    ensures var p := LabelFilter(d, lt, f).value;
            Short(p) && (Fits(p) <==> (f.op in {In, NotIn} ==> f.matches != []))
  {
    hide Target, WithLabelName;
    var v := LabelValue(lt);
    var test :=
      match f.op
      case Eq => Compare(v, EqualOp(f))
      case NotEq => Compare(v, NotEqualOp(f))
      case Lt | Gt => Compare(v, OrderOp(f.op))
      case _ => InList(v, f.op == NotIn, ListHoles(f));
    LabelHoles(lt, test);
    LabelHoles(lt, WithLabelName(lt, test));
  }

  lemma GroupFitsIff(env: Env, fs: OrFilter)
    requires GroupPiece(env, fs).Ok?
    ensures GroupPiece(env, fs).value.None? <==> fs == []
    ensures GroupPiece(env, fs).value.Some? ==>
              && Short(GroupPiece(env, fs).value.value)
              && (Fits(GroupPiece(env, fs).value.value) <==> forall j :: 0 <= j < |fs| ==> ListOk(fs[j]))
  {
    hide OneFilter, ClausesOf, ParamsOf, DisjAll, ListOk;
    var one := f => OneFilter(env, f);
    PiecesShape(one, fs);
    var ps := Pieces(one, fs).value;
    forall j | 0 <= j < |fs| ensures Short(ps[j]) && (Fits(ps[j]) <==> ListOk(fs[j])) {
      assert one(fs[j]) == Ok(ps[j]);
      OneFilterFitsIff(env, fs[j]);
    }
    if ps != [] {
      TotalFitsIff(ps);
      ClauseCount(ps);
      DisjHoles(ClausesOf(ps));
      GroupAllFit(fs, ps);
    }
  }

  lemma GroupAllFit(fs: OrFilter, ps: seq<Piece>)
    requires |ps| == |fs| && forall j :: 0 <= j < |fs| ==> (Fits(ps[j]) <==> ListOk(fs[j]))
    ensures AllFit(ps) <==> forall j :: 0 <= j < |fs| ==> ListOk(fs[j])
  {
    hide Fits, ListOk;
    if AllFit(ps) {
      forall j | 0 <= j < |fs| ensures ListOk(fs[j]) {
        assert Fits(ps[j]);
      }
    }
  }

  lemma {:induction false} FiltersFitIff(env: Env, groups: seq<OrFilter>)
    requires FilterPieces(env, groups).Ok?
    ensures AllShort(FilterPieces(env, groups).value)
    ensures AllFit(FilterPieces(env, groups).value) <==> ListsOk(groups)
  {
    hide GroupPiece, Fits, Short, ListOk;
    if groups != [] {
      var n := |groups| - 1;
      FiltersFitIff(env, groups[..n]);
      GroupFitsIff(env, groups[n]);
      LastGroup(groups);
      var ps := FilterPieces(env, groups).value;
      if GroupPiece(env, groups[n]).value.Some? {
        assert ps[..|ps| - 1] == FilterPieces(env, groups[..n]).value;
        LastOf(ps);
      }
    }
  }

  lemma LastGroup(groups: seq<OrFilter>)
    requires groups != []
    ensures var n := |groups| - 1;
            ListsOk(groups) <==> ListsOk(groups[..n]) && forall j :: 0 <= j < |groups[n]| ==> ListOk(groups[n][j])
  {
    hide ListOk;
    var n := |groups| - 1;
    if ListsOk(groups[..n]) && forall j :: 0 <= j < |groups[n]| ==> ListOk(groups[n][j]) {
      forall i, j | 0 <= i < |groups| && 0 <= j < |groups[i]| ensures ListOk(groups[i][j]) {
        if i < n {
          assert groups[..n][i] == groups[i];
        }
      }
    }
    if ListsOk(groups) {
      forall i, j | 0 <= i < n && 0 <= j < |groups[..n][i]| ensures ListOk(groups[..n][i][j]) {
        assert ListOk(groups[i][j]);
      }
    }
  }

  lemma FitIsShort(ps: seq<Piece>)
    requires AllFit(ps)
    ensures AllShort(ps)
  {
    assert forall i :: 0 <= i < |ps| && Fits(ps[i]) ==> Short(ps[i]);
  }

  lemma Append(a: seq<Piece>, b: seq<Piece>)
    requires AllShort(a) && AllFit(b)
    ensures AllShort(a + b) && (AllFit(a + b) <==> AllFit(a))
  {
    FitIsShort(b);
    hide Fits, Short;
    if AllFit(a + b) {
      forall i | 0 <= i < |a| ensures Fits(a[i]) {
        assert (a + b)[i] == a[i];
      }
    }
  }

  /** Every hole of a query has a parameter, and every parameter a hole, if and only if no label filter
      has an empty list; otherwise parameters are missing. */
  lemma ParamsFitIff(d: Dialect, indexed: seq<string>, lo: Options, pr: Projects, namespace: string,
                     parts: seq<Partition>, b: Binding, q: Query)
    requires WfDialect(d) && BindingOk(lo, b) && NAME in indexed && ProjectsOk(pr) && lo.projects == ProjectsOf(pr)
    requires Assemble(d, indexed, lo, namespace, parts, b) == Ok(q)
    ensures |q.params| <= HolesOfAll(q.wheres)
    ensures |q.params| == HolesOfAll(q.wheres) <==> ListsOk(lo.filters)
  {
    hide BindingOk, FilterPieces, ProjectPieces, PartitionPieces, NamespacePieces, ProjectsOf, ClausesOf, ParamsOf, WfDialect,
      AllFit, AllShort, ListsOk, AllTrue;
    var env := Env(d, indexed, b.joinIndex);
    var db, row := Db(map["" := map[]], map[], map[], map[]), Row("", None, map[]);
    if pr.Projects? {
      QueryColumns.ProjectColumnIff(lo, pr, b);
    }
    FiltersFitIff(env, lo.filters);
    ProjectPart(env, db, pr, row, if pr.Projects? then b.joinIndex[PROJECT_LABEL] else 0);
    NamespaceMeans(d, db, row, namespace);
    PartitionsMean(d, db, row, parts);
    var fs := FilterPieces(env, lo.filters).value;
    var ps := ProjectPieces(env, lo.projects).value;
    var ns := NamespacePieces(namespace);
    var qs := PartitionPieces(d, parts);
    Append(fs, ps);
    Append(fs + ps, ns);
    Append(fs + ps + ns, qs);
    TotalFitsIff(fs + ps + ns + qs);
  }

  // ----- Accepted queries -----

  /** SQLite accepts the query: its columns exist and its parameters are complete. */
  predicate Accepted(indexed: seq<string>, q: Query) {
    ColumnsExist(indexed, q) && |q.params| == HolesOfAll(q.wheres)
  }

  /** Which requests lead to an accepted query. */
  lemma AcceptedIff(d: Dialect, indexed: seq<string>, lo: Options, pr: Projects, namespace: string,
                    parts: seq<Partition>, b: Binding, q: Query)
    requires WfDialect(d) && BindingOk(lo, b) && NAME in indexed && ProjectsOk(pr) && lo.projects == ProjectsOf(pr)
    requires Assemble(d, indexed, lo, namespace, parts, b) == Ok(q)
    ensures Accepted(indexed, q) <==> OptionsOk(lo, pr) && NamespaceKnown(indexed, pr, namespace, parts)
  {
    hide BindingOk, ProjectsOf, WfDialect, ListsOk, ColumnsExist, UnboundSortLabel, Clashes, NamespaceKnown, LabelsNamed,
      FilterPieces, ProjectPieces, PartitionPieces, NamespacePieces;
    ParamsFitIff(d, indexed, lo, pr, namespace, parts, b, q);
    QueryColumns.ColumnsExistIff(d, indexed, lo, pr, namespace, parts, b, q);
    QueryColumns.OkFilters(Env(d, indexed, b.joinIndex), lo.filters);
  }

  /** Every accepted query selects exactly the objects that satisfy the request, each once. */
  lemma AcceptedSelects(d: Dialect, indexed: seq<string>, db: Db, lo: Options, pr: Projects, namespace: string,
                        parts: seq<Partition>, b: Binding, q: Query, key: string)
    requires TablesOk(d, indexed, db) && BindingOk(lo, b) && ProjectsOk(pr) && lo.projects == ProjectsOf(pr)
    requires Assemble(d, indexed, lo, namespace, parts, b) == Ok(q) && Accepted(indexed, q)
    requires key in db.fields
    ensures Complete(q) && AtMostOnce(d, db, q, key)
    ensures Selects(d, db, q, key) <==> RequestHolds(d, indexed, db, lo, pr, namespace, parts, key)
  {
    hide OptionsOk, BindingOk, ProjectsOf, WfDialect, WfDb, Accepted, NamespaceKnown, RequestHolds, Selects, AtMostOnce, Assemble;
    AcceptedIff(d, indexed, lo, pr, namespace, parts, b, q);
    QuerySelects(d, indexed, db, lo, pr, namespace, parts, b, q, key);
    QuerySelectsOnce(d, indexed, db, lo, pr, namespace, parts, b, q, key);
  }
}
