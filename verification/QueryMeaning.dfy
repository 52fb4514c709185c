/**
 What a constructed query selects: each object that satisfies the list options, the namespace and
 the partitions, once; stated as a direct predicate over the object's fields and labels.
 */
module QueryMeaning {
  import opened Prelude
  import opened Sql
  import opened ListOptions
  import opened QueryBuilder
  import opened ColumnNames
  import Like

  // ----- The direct predicate -----

  /** A partial target occurs in the value. A strict one is compared with its special characters escaped;
      see StrictMeansEqualIff. */
  ghost predicate ValueMatches(v: string, f: Filter)
    requires f.matches != []
  {
    if f.partial then Like.Occurs(f.matches[0], v) else v == Like.Escaped(f.matches[0])
  }

  /** The test that a filter makes of a value. */
  ghost predicate ValueHolds(d: Dialect, v: string, f: Filter) {
    match f.op
    case Eq => f.matches != [] && ValueMatches(v, f)
    case NotEq => f.matches != [] && !ValueMatches(v, f)
    case Lt => f.matches != [] && d.parseFloat(f.matches[0]).Some? && d.less(v, d.parseFloat(f.matches[0]).value)
    case Gt => f.matches != [] && d.parseFloat(f.matches[0]).Some? && d.greater(v, d.parseFloat(f.matches[0]).value)
    case In => v in f.matches
    case NotIn => v !in f.matches
    case _ => false
  }

  /** A missing label satisfies !=, notin and !. */
  ghost predicate LabelHolds(d: Dialect, labels: Labels, f: Filter)
    requires |f.field| > 2
  {
    var name := f.field[2];
    match f.op
    case Exists => name in labels
    case NotExists => name !in labels
    case NotEq | NotIn => name !in labels || ValueHolds(d, labels[name], f)
    case _ => name in labels && ValueHolds(d, labels[name], f)
  }

  /** The value of what the path stands for passes the test. */
  ghost predicate FieldHolds(d: Dialect, indexed: seq<string>, columns: Columns, f: Filter) {
    exists entry ::
      && EntryFor(indexed, f.field, entry)
      && EntryValue(d, columns, entry).Some?
      && ValueHolds(d, EntryValue(d, columns, entry).value, f)
  }

  /** Paths that begin with metadata and labels ask for a label, all others for a field. */
  ghost predicate FilterHolds(d: Dialect, indexed: seq<string>, columns: Columns, labels: Labels, f: Filter) {
    if |f.field| > 2 && f.field[0] == "metadata" && f.field[1] == "labels" then LabelHolds(d, labels, f)
    else f.field != ["metadata", "labels"] && FieldHolds(d, indexed, columns, f)
  }

  /** All groups hold; a group holds when it is empty or one of its filters does. */
  ghost predicate GroupsHold(d: Dialect, indexed: seq<string>, columns: Columns, labels: Labels, groups: seq<OrFilter>) {
    forall i :: 0 <= i < |groups| ==>
      groups[i] == [] || exists j :: 0 <= j < |groups[i]| && FilterHolds(d, indexed, columns, labels, groups[i][j])
  }

  // ----- Evaluating pieces -----

  predicate Fits(p: Piece) { |p.params| == Holes(p.clause) }

  ghost predicate PieceTrue(d: Dialect, db: Db, row: Row, p: Piece) {
    Fits(p) && Eval(d, db, row, p.clause, p.params) == True
  }

  ghost predicate AllFit(ps: seq<Piece>) { forall i :: 0 <= i < |ps| ==> Fits(ps[i]) }

  ghost predicate AllTrue(d: Dialect, db: Db, row: Row, ps: seq<Piece>) {
    forall i :: 0 <= i < |ps| ==> PieceTrue(d, db, row, ps[i])
  }

  ghost predicate AnyTrue(d: Dialect, db: Db, row: Row, ps: seq<Piece>) {
    exists i :: 0 <= i < |ps| && PieceTrue(d, db, row, ps[i])
  }

  lemma LastClause(ps: seq<Piece>)
    requires ps != [] && AllFit(ps)
    ensures var n := |ps| - 1;
            && AllFit(ps[..n]) && Fits(ps[n])
            && ClausesOf(ps)[..n] == ClausesOf(ps[..n]) && ClausesOf(ps)[n] == ps[n].clause
            && ParamsOf(ps) == ParamsOf(ps[..n]) + ps[n].params
            && (n == 0 ==> ParamsOf(ps[..n]) == [])
  {
    hide Fits;
  }

  lemma LastTrue(d: Dialect, db: Db, row: Row, ps: seq<Piece>)
    requires ps != []
    ensures var n := |ps| - 1;
            && (AllTrue(d, db, row, ps) <==> AllTrue(d, db, row, ps[..n]) && PieceTrue(d, db, row, ps[n]))
            && (AnyTrue(d, db, row, ps) <==> AnyTrue(d, db, row, ps[..n]) || PieceTrue(d, db, row, ps[n]))
  {
    hide PieceTrue;
    var n := |ps| - 1;
    assert forall k :: 0 <= k < n ==> ps[..n][k] == ps[k];
    if AllTrue(d, db, row, ps[..n]) && PieceTrue(d, db, row, ps[n]) {
      forall k | 0 <= k < |ps| ensures PieceTrue(d, db, row, ps[k]) {
        if k < n {
          assert ps[..n][k] == ps[k];
        }
      }
    }
    if AnyTrue(d, db, row, ps) {
      var k :| 0 <= k < |ps| && PieceTrue(d, db, row, ps[k]);
      if k < n {
        assert ps[..n][k] == ps[k];
      }
    }
  }

  lemma LastPiece(d: Dialect, db: Db, row: Row, ps: seq<Piece>)
    requires ps != [] && AllFit(ps)
    ensures var n := |ps| - 1;
            && AllFit(ps[..n]) && Fits(ps[n])
            && ClausesOf(ps)[..n] == ClausesOf(ps[..n]) && ClausesOf(ps)[n] == ps[n].clause
            && ParamsOf(ps) == ParamsOf(ps[..n]) + ps[n].params
            && (n == 0 ==> ParamsOf(ps[..n]) == [])
            && (AllTrue(d, db, row, ps) <==> AllTrue(d, db, row, ps[..n]) && PieceTrue(d, db, row, ps[n]))
            && (AnyTrue(d, db, row, ps) <==> AnyTrue(d, db, row, ps[..n]) || PieceTrue(d, db, row, ps[n]))
  {
    hide AllTrue, AnyTrue, PieceTrue, Fits, AllFit, ClausesOf, ParamsOf;
    LastClause(ps);
    LastTrue(d, db, row, ps);
  }

  lemma TwoPieces(d: Dialect, db: Db, row: Row, p: Piece, q: Piece)
    requires Fits(p) && Fits(q)
    ensures var conj, disj := Piece(Conj(p.clause, q.clause), p.params + q.params), Piece(Disj(p.clause, q.clause), p.params + q.params);
            && Fits(conj) && Fits(disj)
            && (PieceTrue(d, db, row, conj) <==> PieceTrue(d, db, row, p) && PieceTrue(d, db, row, q))
            && (PieceTrue(d, db, row, disj) <==> PieceTrue(d, db, row, p) || PieceTrue(d, db, row, q))
  {
    var ps := p.params + q.params;
    assert ps[..|p.params|] == p.params && ps[|p.params|..] == q.params;
  }

  lemma {:induction false} KeepsAll(d: Dialect, db: Db, row: Row, ps: seq<Piece>)
    requires AllFit(ps)
    ensures |ParamsOf(ps)| == HolesOfAll(ClausesOf(ps))
    ensures Keeps(d, db, row, ClausesOf(ps), ParamsOf(ps)) <==> AllTrue(d, db, row, ps)
  {
    hide Eval, ParamsOf, AllTrue, AnyTrue, ClausesOf;
    if ps == [] {
      NoPieces(d, db, row);
    } else {
      var n := |ps| - 1;
      LastPiece(d, db, row, ps);
      KeepsAll(d, db, row, ps[..n]);
      var cut := |ParamsOf(ps[..n])|;
      assert ParamsOf(ps)[..cut] == ParamsOf(ps[..n]) && ParamsOf(ps)[cut..] == ps[n].params;
      assert |ClausesOf(ps)| == |ps| by {
        ClauseCount(ps);
      }
    }
  }

  lemma NoPieces(d: Dialect, db: Db, row: Row)
    ensures ClausesOf([]) == [] && ParamsOf([]) == [] && AllTrue(d, db, row, []) && !AnyTrue(d, db, row, [])
  {
  }

  lemma ClauseCount(ps: seq<Piece>)
    ensures |ClausesOf(ps)| == |ps|
  {
  }

  /** The conjunction or disjunction of all clauses takes the parameters in the same order. */
  lemma {:induction false} JoinedPieces(d: Dialect, db: Db, row: Row, ps: seq<Piece>)
    requires AllFit(ps) && ps != []
    ensures ClausesOf(ps) != []
    ensures Fits(Piece(DisjAll(ClausesOf(ps)), ParamsOf(ps))) && Fits(Piece(ConjAll(ClausesOf(ps)), ParamsOf(ps)))
    ensures PieceTrue(d, db, row, Piece(DisjAll(ClausesOf(ps)), ParamsOf(ps))) <==> AnyTrue(d, db, row, ps)
    ensures PieceTrue(d, db, row, Piece(ConjAll(ClausesOf(ps)), ParamsOf(ps))) <==> AllTrue(d, db, row, ps)
  {
    hide Eval, ParamsOf, AllTrue, AnyTrue, ClausesOf, Fits, PieceTrue;
    var n := |ps| - 1;
    LastPiece(d, db, row, ps);
    ClauseCount(ps);
    if n == 0 {
      NoPieces(d, db, row);
      assert ps[..0] == [];
      assert Piece(ps[0].clause, [] + ps[0].params) == ps[0];
    } else {
      JoinedPieces(d, db, row, ps[..n]);
      ClauseCount(ps[..n]);
      TwoPieces(d, db, row, Piece(DisjAll(ClausesOf(ps[..n])), ParamsOf(ps[..n])), ps[n]);
      TwoPieces(d, db, row, Piece(ConjAll(ClausesOf(ps[..n])), ParamsOf(ps[..n])), ps[n]);
    }
  }

  // ----- One filter -----

  /** The lists of label filters are not empty; NewRequirement guarantees it. */
  predicate ListOk(f: Filter) { IsLabelFilter(f) && f.op in {In, NotIn} ==> f.matches != [] }

  lemma TextsIn(v: string, ss: seq<string>)
    ensures Text(v) in Texts(ss) <==> v in ss
  {
    if v in ss {
      var i :| 0 <= i < |ss| && ss[i] == v;
      assert Texts(ss)[i] == Text(v);
    }
  }

  /** The comparison that a filter's target is used in means its value test. */
  lemma CompareMeans(d: Dialect, v: string, f: Filter)
    requires f.matches != []
    ensures EvalCompare(d, Some(v), EqualOp(f), Target(f)) == Truth3(ValueMatches(v, f))
    ensures EvalCompare(d, Some(v), NotEqualOp(f), Target(f)) == Truth3(!ValueMatches(v, f))
  {
    if f.partial {
      Like.PartialMatchIsOccurrence(f.matches[0], v);
    } else {
      Like.EscapeIsEscaped(f.matches[0]);
    }
  }

  /** A strict test means equality with the given text, for every value, if and only if the text is
      free of backslash, underscore and percent. */
  lemma StrictMeansEqualIff(f: Filter)
    requires f.matches != [] && !f.partial
    ensures (forall v :: ValueMatches(v, f) <==> v == f.matches[0]) <==> Like.Plain(f.matches[0])
  {
    hide Like.Plain, Like.Escaped;
    var t := f.matches[0];
    Like.EscapeIsEscaped(t);
    Like.StrictMatchIffPlain(t);
    if forall v :: ValueMatches(v, f) <==> v == t {
      assert ValueMatches(t, f);
    }
  }

  lemma FieldFilterMeans(d: Dialect, indexed: seq<string>, db: Db, row: Row, f: Filter)
    requires row.key in db.fields && FieldFilter(d, indexed, f).Ok?
    requires forall c :: c in indexed ==> c in db.fields[row.key]
    ensures Fits(FieldFilter(d, indexed, f).value)
    ensures PieceTrue(d, db, row, FieldFilter(d, indexed, f).value) <==>
            FieldHolds(d, indexed, db.fields[row.key], f)
  {
    hide Like.Occurs, Like.FormatMatchTarget, Like.LikeMatch, ValidFieldEntry, ValueMatches, EntryFor;
    EntryIndexed(indexed, f.field);
    var entry := ValidFieldEntry(indexed, f.field).value;
    EntryForIff(indexed, f.field, entry);
    forall e | EntryFor(indexed, f.field, e) ensures e == entry {
      EntryForIff(indexed, f.field, e);
    }
    var v := EntryValue(d, db.fields[row.key], entry).value;
    if f.matches != [] {
      CompareMeans(d, v, f);
    }
    TextsIn(v, f.matches);
  }

  lemma EntryIndexed(indexed: seq<string>, fields: seq<string>)
    requires ValidFieldEntry(indexed, fields).Ok?
    ensures ValidFieldEntry(indexed, fields).value.name in indexed
  {
  }

  /** The label join of the row shows this label. */
  predicate ShowsLabel(row: Row, lt: nat, name: string) {
    lt in row.lts && row.lts[lt].Some? && row.lts[lt].value.name == name
  }

  /** What a label filter tests in one row: the label that the row's join shows, except that the
      absence of a label is decided over all of the object's labels. */
  ghost predicate LabelRowHolds(d: Dialect, labels: Labels, row: Row, lt: nat, f: Filter)
    requires |f.field| > 2
  {
    var name := f.field[2];
    match f.op
    case Exists => ShowsLabel(row, lt, name)
    case NotExists => name !in labels
    case NotEq | NotIn =>
      name !in labels || (ShowsLabel(row, lt, name) && ValueHolds(d, row.lts[lt].value.value, f))
    case _ => ShowsLabel(row, lt, name) && ValueHolds(d, row.lts[lt].value.value, f)
  }

  function NamePiece(lt: nat, name: string): Piece { Piece(Compare(LabelName(lt), Equal), [Text(name)]) }

  /** The value test of a label filter. */
  function ValuePiece(d: Dialect, lt: nat, f: Filter): Piece
    requires f.op in {Eq, NotEq, Lt, Gt} ==> f.matches != []
    requires f.op in {Lt, Gt} ==> d.parseFloat(f.matches[0]).Some?
  {
    var v := LabelValue(lt);
    match f.op
    case Eq => Piece(Compare(v, EqualOp(f)), [Target(f)])
    case NotEq => Piece(Compare(v, NotEqualOp(f)), [Target(f)])
    case Lt | Gt => Piece(Compare(v, OrderOp(f.op)), [Number(d.parseFloat(f.matches[0]).value)])
    case _ => Piece(InList(v, f.op == NotIn, ListHoles(f)), Texts(f.matches))
  }

  lemma ValuePieceMeans(d: Dialect, db: Db, row: Row, lt: nat, f: Filter)
    requires f.op in {Eq, NotEq, Lt, Gt, In, NotIn} && f.matches != []
    requires f.op in {Lt, Gt} ==> d.parseFloat(f.matches[0]).Some?
    requires lt in row.lts && row.lts[lt].Some?
    ensures Fits(ValuePiece(d, lt, f))
    ensures PieceTrue(d, db, row, ValuePiece(d, lt, f)) <==> ValueHolds(d, row.lts[lt].value.value, f)
  {
    hide Like.Occurs, Like.FormatMatchTarget, Like.LikeMatch, ValueMatches;
    var v := row.lts[lt].value.value;
    CompareMeans(d, v, f);
    TextsIn(v, f.matches);
  }

  lemma NamePieceMeans(d: Dialect, db: Db, row: Row, lt: nat, name: string)
    ensures Fits(NamePiece(lt, name))
    ensures PieceTrue(d, db, row, NamePiece(lt, name)) <==> ShowsLabel(row, lt, name)
  {
  }

  lemma LacksMeans(d: Dialect, db: Db, row: Row, name: string)
    ensures Fits(Piece(LacksLabel, [Text(name)]))
    ensures PieceTrue(d, db, row, Piece(LacksLabel, [Text(name)])) <==> name !in LabelsOf(db.labels, row.key)
  {
  }

  /** A label filter is the conjunction of its name test and its value test, and for the negative
      operators the disjunction of that with the absence test. */
  lemma LabelFilterShape(d: Dialect, lt: nat, f: Filter)
    requires |f.field| > 2 && LabelFilter(d, lt, f).Ok? && (f.op in {In, NotIn} ==> f.matches != [])
    ensures var p, name := LabelFilter(d, lt, f).value, f.field[2];
            var named, lacks := NamePiece(lt, name), Piece(LacksLabel, [Text(name)]);
            match f.op
            case Exists => p == named
            case NotExists => p == lacks
            case NotEq | NotIn =>
              && f.matches != []
              && var v := ValuePiece(d, lt, f);
                 p == Piece(Disj(lacks.clause, Conj(named.clause, v.clause)), lacks.params + (named.params + v.params))
            case Eq | In | Lt | Gt =>
              && f.matches != [] && (f.op in {Lt, Gt} ==> d.parseFloat(f.matches[0]).Some?)
              && var v := ValuePiece(d, lt, f);
                 p == Piece(Conj(named.clause, v.clause), named.params + v.params)
            case OtherOp => false
  {
    hide Texts, Target;
  }

  lemma LabelFilterMeans(d: Dialect, db: Db, row: Row, lt: nat, f: Filter)
    requires |f.field| > 2 && LabelFilter(d, lt, f).Ok? && (f.op in {In, NotIn} ==> f.matches != [])
    requires lt in row.lts
    ensures Fits(LabelFilter(d, lt, f).value)
    ensures PieceTrue(d, db, row, LabelFilter(d, lt, f).value) <==>
            LabelRowHolds(d, LabelsOf(db.labels, row.key), row, lt, f)
  {
    hide LabelFilter, PieceTrue, Fits, ValueHolds, ValuePiece, Eval;
    var name := f.field[2];
    LabelFilterShape(d, lt, f);
    NamePieceMeans(d, db, row, lt, name);
    LacksMeans(d, db, row, name);
    if f.op !in {Exists, NotExists} {
      var named, v := NamePiece(lt, name), ValuePiece(d, lt, f);
      ValuePieceFits(d, db, row, lt, f);
      TwoPieces(d, db, row, named, v);
      TwoPieces(d, db, row, Piece(LacksLabel, [Text(name)]), Piece(Conj(named.clause, v.clause), named.params + v.params));
      if ShowsLabel(row, lt, name) {
        ValuePieceMeans(d, db, row, lt, f);
      }
    }
  }

  lemma ValuePieceFits(d: Dialect, db: Db, row: Row, lt: nat, f: Filter)
    requires f.op in {Eq, NotEq, Lt, Gt, In, NotIn} && f.matches != []
    requires f.op in {Lt, Gt} ==> d.parseFloat(f.matches[0]).Some?
    ensures Fits(ValuePiece(d, lt, f))
  {
  }

  /** A row that the joins allow never shows a false label. */
  lemma LabelSound(d: Dialect, labels: Labels, row: Row, lt: nat, f: Filter)
    requires |f.field| > 2 && lt in row.lts && LabelChoice(labels, row.lts[lt])
    requires LabelRowHolds(d, labels, row, lt, f)
    ensures LabelHolds(d, labels, f)
  {
    hide ValueHolds;
  }

  /** A row that shows the filtered label whenever the object has it shows all there is to test. */
  lemma LabelComplete(d: Dialect, labels: Labels, row: Row, lt: nat, f: Filter)
    requires |f.field| > 2 && lt in row.lts && LabelChoice(labels, row.lts[lt])
    requires f.field[2] in labels ==> ShowsLabel(row, lt, f.field[2])
    requires LabelHolds(d, labels, f)
    ensures LabelRowHolds(d, labels, row, lt, f)
  {
    hide ValueHolds;
  }

  // ----- Groups -----

  /** What a filter tests in one row. */
  ghost predicate FilterRowHolds(env: Env, db: Db, row: Row, f: Filter) {
    if IsLabelFilter(f) then
      && |f.field| > 2 && f.field[2] in env.joinIndex
      && LabelRowHolds(env.d, LabelsOf(db.labels, row.key), row, env.joinIndex[f.field[2]], f)
    else
      row.key in db.fields && FieldHolds(env.d, env.indexed, db.fields[row.key], f)
  }

  ghost predicate GroupRowHolds(env: Env, db: Db, row: Row, fs: OrFilter) {
    fs == [] || exists j :: 0 <= j < |fs| && FilterRowHolds(env, db, row, fs[j])
  }

  /** The row has a column for everything that filters may ask of it. */
  ghost predicate RowComplete(env: Env, db: Db, row: Row) {
    && row.key in db.fields
    && (forall c :: c in env.indexed ==> c in db.fields[row.key])
    && (forall l :: l in env.joinIndex ==> env.joinIndex[l] in row.lts)
  }

  ghost predicate ListsOk(groups: seq<OrFilter>) {
    forall i, j :: 0 <= i < |groups| && 0 <= j < |groups[i]| ==> ListOk(groups[i][j])
  }

  lemma OneFilterMeans(env: Env, db: Db, row: Row, f: Filter)
    requires OneFilter(env, f).Ok? && ListOk(f) && RowComplete(env, db, row)
    ensures Fits(OneFilter(env, f).value)
    ensures PieceTrue(env.d, db, row, OneFilter(env, f).value) <==> FilterRowHolds(env, db, row, f)
  {
    hide PieceTrue, Fits, LabelFilter, FieldFilter, LabelRowHolds, FieldHolds;
    if IsLabelFilter(f) {
      LabelFilterMeans(env.d, db, row, env.joinIndex[f.field[2]], f);
    } else {
      FieldFilterMeans(env.d, env.indexed, db, row, f);
    }
  }

  lemma {:induction false} PiecesShape(one: Filter -> Result<Piece, Error>, fs: seq<Filter>)
    requires Pieces(one, fs).Ok?
    ensures |Pieces(one, fs).value| == |fs|
    ensures forall i :: 0 <= i < |fs| ==> one(fs[i]) == Ok(Pieces(one, fs).value[i])
  {
    if fs != [] {
      PiecesShape(one, fs[..|fs| - 1]);
    }
  }

  lemma GroupMeans(env: Env, db: Db, row: Row, fs: OrFilter)
    requires GroupPiece(env, fs).Ok? && RowComplete(env, db, row)
    requires forall j :: 0 <= j < |fs| ==> ListOk(fs[j])
    ensures GroupPiece(env, fs).value.None? ==> fs == []
    ensures GroupPiece(env, fs).value.Some? ==>
              && fs != [] && Fits(GroupPiece(env, fs).value.value)
              && (PieceTrue(env.d, db, row, GroupPiece(env, fs).value.value) <==> GroupRowHolds(env, db, row, fs))
  {
    hide PieceTrue, Fits, OneFilter, FilterRowHolds, RowComplete, ClausesOf, ParamsOf, DisjAll;
    var one := f => OneFilter(env, f);
    PiecesShape(one, fs);
    var ps := Pieces(one, fs).value;
    forall j | 0 <= j < |fs|
      ensures Fits(ps[j]) && (PieceTrue(env.d, db, row, ps[j]) <==> FilterRowHolds(env, db, row, fs[j]))
    {
      assert one(fs[j]) == Ok(ps[j]);
      OneFilterMeans(env, db, row, fs[j]);
    }
    if ps != [] {
      JoinedPieces(env.d, db, row, ps);
    }
  }

  ghost predicate GroupsRowHold(env: Env, db: Db, row: Row, groups: seq<OrFilter>) {
    forall i :: 0 <= i < |groups| ==> GroupRowHolds(env, db, row, groups[i])
  }

  lemma {:induction false} FiltersMean(env: Env, db: Db, row: Row, groups: seq<OrFilter>)
    requires FilterPieces(env, groups).Ok? && RowComplete(env, db, row) && ListsOk(groups)
    ensures AllFit(FilterPieces(env, groups).value)
    ensures AllTrue(env.d, db, row, FilterPieces(env, groups).value) <==> GroupsRowHold(env, db, row, groups)
  {
    hide PieceTrue, Fits, GroupPiece, GroupRowHolds, RowComplete;
    if groups != [] {
      var n := |groups| - 1;
      var ps := FilterPieces(env, groups).value;
      FiltersMean(env, db, row, groups[..n]);
      GroupMeans(env, db, row, groups[n]);
      EmptyGroupHolds(env, db, row, groups[n]);
      if GroupPiece(env, groups[n]).value.Some? {
        LastTrue(env.d, db, row, ps);
        assert ps[..|ps| - 1] == FilterPieces(env, groups[..n]).value;
      }
      assert groups == groups[..n] + [groups[n]];
    }
  }

  lemma EmptyGroupHolds(env: Env, db: Db, row: Row, fs: OrFilter)
    ensures fs == [] ==> GroupRowHolds(env, db, row, fs)
  {
  }

  // ----- Namespace and partitions -----

  predicate InNamespaceHolds(columns: Columns, ns: string) {
    ns != "" && ns != "*" ==> "metadata.namespace" in columns && columns["metadata.namespace"] == ns
  }

  /** The object lies in the partition. */
  predicate InPartition(columns: Columns, p: Partition) {
    p.passthrough ||
    (&& InNamespaceHolds(columns, p.namespace)
     && (!p.all ==> "metadata.name" in columns && columns["metadata.name"] in p.names))
  }

  /** A partition that yields a clause. */
  predicate Restricted(p: Partition) {
    !p.passthrough && (NamesOne(p.namespace) || !p.all)
  }

  ghost predicate NoneRestricted(parts: seq<Partition>) {
    forall i :: 0 <= i < |parts| ==> !Restricted(parts[i])
  }

  ghost predicate InRestricted(columns: Columns, parts: seq<Partition>) {
    exists i :: 0 <= i < |parts| && Restricted(parts[i]) && InPartition(columns, parts[i])
  }

  /** What the partition clauses keep: unrestricted partitions add nothing to them. */
  ghost predicate PartitionsHold(columns: Columns, parts: seq<Partition>) {
    parts != [] && (NoneRestricted(parts) || InRestricted(columns, parts))
  }

  lemma LastPartition(columns: Columns, parts: seq<Partition>)
    requires parts != []
    ensures var n := |parts| - 1;
            && (NoneRestricted(parts) <==> NoneRestricted(parts[..n]) && !Restricted(parts[n]))
            && (InRestricted(columns, parts) <==>
                  InRestricted(columns, parts[..n]) || (Restricted(parts[n]) && InPartition(columns, parts[n])))
  {
    hide Restricted, InPartition;
    var n := |parts| - 1;
    assert forall i :: 0 <= i < n ==> parts[..n][i] == parts[i];
    if NoneRestricted(parts[..n]) && !Restricted(parts[n]) {
      forall i | 0 <= i < |parts| ensures !Restricted(parts[i]) {
        if i < n {
          assert parts[..n][i] == parts[i];
        }
      }
    }
    if i :| 0 <= i < |parts| && Restricted(parts[i]) && InPartition(columns, parts[i]) {
      if i < n {
        assert parts[..n][i] == parts[i];
      }
    }
  }

  lemma NamespaceMeans(d: Dialect, db: Db, row: Row, ns: string)
    requires row.key in db.fields
    ensures AllFit(NamespacePieces(ns))
    ensures AllTrue(d, db, row, NamespacePieces(ns)) <==> InNamespaceHolds(db.fields[row.key], ns)
  {
    if NamesOne(ns) {
      assert NamespacePieces(ns)[0] == InNamespace(ns);
    }
  }

  lemma PartitionPartsMean(d: Dialect, db: Db, row: Row, p: Partition)
    requires row.key in db.fields && WfDialect(d)
    ensures AllFit(PartitionParts(d, p))
    ensures PartitionParts(d, p) == [] <==> !Restricted(p)
    ensures AllTrue(d, db, row, PartitionParts(d, p)) <==> InPartition(db.fields[row.key], p)
  {
    hide AllTrue, PieceTrue;
    if !p.passthrough {
      var a := NamespacePieces(p.namespace);
      NamespaceMeans(d, db, row, p.namespace);
      var b := NamesPieces(d, p);
      NamesMean(d, db, row, p);
      assert PartitionParts(d, p) == a + b;
      AllTrueAppend(d, db, row, a, b);
    } else {
      NoPieces(d, db, row);
    }
  }

  function NamesPieces(d: Dialect, p: Partition): seq<Piece> {
    if p.all then []
    else if p.names == {} then [Piece(Never, [])]
    else [Piece(InList(FieldOf(F, Column(NAME)), false, |p.names|), Texts(d.sorted(p.names)))]
  }

  lemma NamesMean(d: Dialect, db: Db, row: Row, p: Partition)
    requires row.key in db.fields && WfDialect(d)
    ensures AllFit(NamesPieces(d, p))
    ensures AllTrue(d, db, row, NamesPieces(d, p)) <==>
            (!p.all ==> NAME in db.fields[row.key] && db.fields[row.key][NAME] in p.names)
  {
    if !p.all {
      var q := NamesPieces(d, p)[0];
      assert AllTrue(d, db, row, NamesPieces(d, p)) <==> PieceTrue(d, db, row, q);
      if p.names != {} && NAME in db.fields[row.key] {
        TextsIn(db.fields[row.key][NAME], d.sorted(p.names));
      }
    }
  }

  lemma AllTrueAppend(d: Dialect, db: Db, row: Row, a: seq<Piece>, b: seq<Piece>)
    ensures AllTrue(d, db, row, a + b) <==> AllTrue(d, db, row, a) && AllTrue(d, db, row, b)
    ensures AllFit(a) && AllFit(b) ==> AllFit(a + b)
  {
    hide PieceTrue, Fits;
    if AllTrue(d, db, row, a + b) {
      forall i | 0 <= i < |a| ensures PieceTrue(d, db, row, a[i]) {
        assert (a + b)[i] == a[i];
      }
      forall i | 0 <= i < |b| ensures PieceTrue(d, db, row, b[i]) {
        assert (a + b)[|a| + i] == b[i];
      }
    }
  }

  lemma {:induction false} PartitionClausesMean(d: Dialect, db: Db, row: Row, parts: seq<Partition>)
    requires row.key in db.fields && WfDialect(d)
    ensures AllFit(PartitionClauses(d, parts))
    ensures PartitionClauses(d, parts) == [] <==> NoneRestricted(parts)
    ensures AnyTrue(d, db, row, PartitionClauses(d, parts)) <==> InRestricted(db.fields[row.key], parts)
  {
    hide PieceTrue, Fits, PartitionParts, Restricted, InPartition, ClausesOf, ParamsOf, ConjAll, WfDialect,
      NoneRestricted, InRestricted, AnyTrue, AllTrue;
    if parts == [] {
      NoPieces(d, db, row);
      NoPartitions(db.fields[row.key]);
    } else {
      var n := |parts| - 1;
      PartitionClausesMean(d, db, row, parts[..n]);
      PartitionPartsMean(d, db, row, parts[n]);
      LastPartition(db.fields[row.key], parts);
      var ps := PartitionParts(d, parts[n]);
      if ps != [] {
        JoinedPieces(d, db, row, ps);
        var all := PartitionClauses(d, parts);
        LastTrue(d, db, row, all);
        assert all[..|all| - 1] == PartitionClauses(d, parts[..n]);
      } else {
        assert PartitionClauses(d, parts) == PartitionClauses(d, parts[..n]);
      }
    }
  }

  lemma NoPartitions(columns: Columns)
    ensures NoneRestricted([]) && !InRestricted(columns, [])
  {
  }

  lemma PartitionsMean(d: Dialect, db: Db, row: Row, parts: seq<Partition>)
    requires row.key in db.fields && WfDialect(d)
    ensures AllFit(PartitionPieces(d, parts))
    ensures AllTrue(d, db, row, PartitionPieces(d, parts)) <==> PartitionsHold(db.fields[row.key], parts)
  {
    hide WfDialect, NoneRestricted, InRestricted, ClausesOf, ParamsOf, DisjAll, Eval, PartitionClauses;
    PartitionClausesMean(d, db, row, parts);
    var ps := PartitionClauses(d, parts);
    if parts == [] {
      NeverTrue(d, db, row);
    } else if ps != [] {
      JoinedPieces(d, db, row, ps);
      var q := Piece(DisjAll(ClausesOf(ps)), ParamsOf(ps));
      assert PartitionPieces(d, parts) == [q];
      SinglePiece(d, db, row, q);
    }
  }

  lemma NeverTrue(d: Dialect, db: Db, row: Row)
    ensures Fits(Piece(Never, [])) && !AllTrue(d, db, row, [Piece(Never, [])])
  {
    assert !PieceTrue(d, db, row, [Piece(Never, [])][0]);
  }

  lemma SinglePiece(d: Dialect, db: Db, row: Row, q: Piece)
    ensures AllTrue(d, db, row, [q]) <==> PieceTrue(d, db, row, q)
  {
    hide PieceTrue;
    if AllTrue(d, db, row, [q]) {
      assert PieceTrue(d, db, row, [q][0]);
    }
  }
}
