/**
 The query builder (`constructQuery` and the clause builders of
 pkg/sqlcache/informer/listoption_indexer.go): from list options, a namespace and partitions to
 joins, WHERE clauses and positional parameters.
 */
module QueryBuilder {
  import opened Prelude
  import opened Sql
  import opened ListOptions
  import Like

  datatype Error =
    | InvalidColumn
    | NullTestOnField
    | UnknownOperator
    | NotANumber
    | IndexOutOfRange      // the Go code panics
    | NoJoinIndex
    | ProjectsOperator

  /** A clause and the parameters it brings along. */
  datatype Piece = Piece(clause: Clause, params: seq<Param>)

  // ----- Columns -----

  function JoinWith(parts: seq<string>, sep: string): string {
    if parts == [] then ""
    else if |parts| == 1 then parts[0]
    else JoinWith(parts[..|parts| - 1], sep) + sep + parts[|parts| - 1]
  }

  predicate IsSimpleName(s: string) {
    && s != ""
    && !('0' <= s[0] <= '9')
    && forall i :: 0 <= i < |s| ==> 'a' <= s[i] <= 'z' || 'A' <= s[i] <= 'Z' || '0' <= s[i] <= '9' || s[i] == '_'
  }

  function SmartJoin(s: seq<string>): string {
    if s == [] then ""
    else if |s| == 1 then s[0]
    else if IsSimpleName(s[|s| - 1]) then JoinWith(s, ".")
    else JoinWith(s[..|s| - 1], ".") + "[" + s[|s| - 1] + "]"
  }

  function ToColumnName(s: seq<string>): string { Like.ReplaceAll(SmartJoin(s), '"', "") }

  predicate AllDigits(s: string) { forall i :: 0 <= i < |s| ==> '0' <= s[i] <= '9' }

  /** The last position after the first that holds a number, or 0. */
  function NumericIndex(fields: seq<string>, i: nat): (r: nat)
    requires i <= |fields|
    ensures r == 0 || (r < i && AllDigits(fields[r]))
  {
    if i <= 1 then 0
    else if AllDigits(fields[i - 1]) then i - 1
    else NumericIndex(fields, i - 1)
  }

  /** An indexed column, or an element of one. */
  function ValidFieldEntry(indexed: seq<string>, fields: seq<string>): Result<Entry, Error> {
    if ToColumnName(fields) in indexed then Ok(Column(ToColumnName(fields)))
    else if |fields| <= 2 then Err(InvalidColumn)
    else
      var i := NumericIndex(fields, |fields|);
      if i == 0 then Err(InvalidColumn)
      else
        var leading := ToColumnName(fields[..i] + fields[i + 1..]);
        if leading in indexed then Ok(Element(leading, fields[i])) else Err(InvalidColumn)
  }

  // ----- One filter -----

  function Texts(ss: seq<string>): seq<Param> { seq(|ss|, i requires 0 <= i < |ss| => Text(ss[i])) }

  function Target(f: Filter): Param
    requires f.matches != []
  {
    Text(Like.FormatMatchTarget(f.matches[0], f.partial))
  }

  function EqualOp(f: Filter): Comparison { if f.partial then LikeOp else Equal }

  function NotEqualOp(f: Filter): Comparison { if f.partial then NotLike else NotEqual }

  function OrderOp(op: Op): Comparison { if op == Lt then Less else Greater }

  function FieldFilter(d: Dialect, indexed: seq<string>, f: Filter): Result<Piece, Error> {
    match ValidFieldEntry(indexed, f.field)
    case Err(e) => Err(e)
    case Ok(entry) =>
      var e := FieldOf(F, entry);
      match f.op
      case Eq => if f.matches == [] then Err(IndexOutOfRange) else Ok(Piece(Compare(e, EqualOp(f)), [Target(f)]))
      case NotEq => if f.matches == [] then Err(IndexOutOfRange) else Ok(Piece(Compare(e, NotEqualOp(f)), [Target(f)]))
      case Lt | Gt =>
        if f.matches == [] then Err(IndexOutOfRange)
        else if d.parseFloat(f.matches[0]).None? then Err(NotANumber)
        else Ok(Piece(Compare(e, OrderOp(f.op)), [Number(d.parseFloat(f.matches[0]).value)]))
      case Exists | NotExists => Err(NullTestOnField)
      case In | NotIn => Ok(Piece(InList(e, f.op == NotIn, |f.matches|), Texts(f.matches)))
      case OtherOp => Err(UnknownOperator)
  }

  /** lt.label = ? AND c */
  function WithLabelName(lt: nat, c: Clause): Clause { Conj(Compare(LabelName(lt), Equal), c) }

  /** Even an empty list is printed as one hole. */
  function ListHoles(f: Filter): nat { if f.matches == [] then 1 else |f.matches| }

  function LabelFilter(d: Dialect, lt: nat, f: Filter): Result<Piece, Error>
    requires |f.field| > 2
  {
    var name := Text(f.field[2]);
    var v := LabelValue(lt);
    match f.op
    case Eq =>
      if f.matches == [] then Err(IndexOutOfRange)
      else Ok(Piece(WithLabelName(lt, Compare(v, EqualOp(f))), [name, Target(f)]))
    case NotEq =>
      if f.matches == [] then Err(IndexOutOfRange)
      else Ok(Piece(Disj(LacksLabel, WithLabelName(lt, Compare(v, NotEqualOp(f)))), [name, name, Target(f)]))
    case Lt | Gt =>
      if f.matches == [] then Err(IndexOutOfRange)
      else if d.parseFloat(f.matches[0]).None? then Err(NotANumber)
      else Ok(Piece(WithLabelName(lt, Compare(v, OrderOp(f.op))), [name, Number(d.parseFloat(f.matches[0]).value)]))
    case Exists => Ok(Piece(Compare(LabelName(lt), Equal), [name]))
    case NotExists => Ok(Piece(LacksLabel, [name]))
    case In => Ok(Piece(WithLabelName(lt, InList(v, false, ListHoles(f))), [name] + Texts(f.matches)))
    case NotIn =>
      Ok(Piece(Disj(LacksLabel, WithLabelName(lt, InList(v, true, ListHoles(f)))), [name, name] + Texts(f.matches)))
    case OtherOp => Err(UnknownOperator)
  }

  /** What the builder is told about the kind: its indexed columns; and the join index by label. */
  datatype Env = Env(d: Dialect, indexed: seq<string>, joinIndex: map<string, nat>)

  function OneFilter(env: Env, f: Filter): Result<Piece, Error> {
    if !IsLabelFilter(f) then FieldFilter(env.d, env.indexed, f)
    else if |f.field| == 2 then Err(IndexOutOfRange)
    else if f.field[2] !in env.joinIndex then Err(NoJoinIndex)
    else LabelFilter(env.d, env.joinIndex[f.field[2]], f)
  }

  // ----- Groups -----

  /** The pieces of the first filters up to the first error. */
  function Pieces(one: Filter -> Result<Piece, Error>, fs: seq<Filter>): Result<seq<Piece>, Error> {
    if fs == [] then Ok([])
    else
      match Pieces(one, fs[..|fs| - 1])
      case Err(e) => Err(e)
      case Ok(ps) =>
        match one(fs[|fs| - 1])
        case Err(e) => Err(e)
        case Ok(p) => Ok(ps + [p])
  }

  function ClausesOf(ps: seq<Piece>): seq<Clause> { seq(|ps|, i requires 0 <= i < |ps| => ps[i].clause) }

  function ParamsOf(ps: seq<Piece>): seq<Param> {
    if ps == [] then [] else ParamsOf(ps[..|ps| - 1]) + ps[|ps| - 1].params
  }

  /** (c1) OR (c2) OR ... */
  function DisjAll(cs: seq<Clause>): Clause
    requires cs != []
  {
    if |cs| == 1 then cs[0] else Disj(DisjAll(cs[..|cs| - 1]), cs[|cs| - 1])
  }

  /** (c1) AND (c2) AND ... */
  function ConjAll(cs: seq<Clause>): Clause
    requires cs != []
  {
    if |cs| == 1 then cs[0] else Conj(ConjAll(cs[..|cs| - 1]), cs[|cs| - 1])
  }

  /** A group of alternatives; an empty one imposes nothing. */
  function GroupPiece(env: Env, fs: OrFilter): Result<Option<Piece>, Error> {
    match Pieces(f => OneFilter(env, f), fs)
    case Err(e) => Err(e)
    case Ok(ps) => Ok(if ps == [] then None else Some(Piece(DisjAll(ClausesOf(ps)), ParamsOf(ps))))
  }

  function FilterPieces(env: Env, groups: seq<OrFilter>): Result<seq<Piece>, Error> {
    if groups == [] then Ok([])
    else
      match FilterPieces(env, groups[..|groups| - 1])
      case Err(e) => Err(e)
      case Ok(ps) =>
        match GroupPiece(env, groups[|groups| - 1])
        case Err(e) => Err(e)
        case Ok(None) => Ok(ps)
        case Ok(Some(p)) => Ok(ps + [p])
  }

  // ----- Projects or namespaces -----

  function ProjectFieldFilter(indexed: seq<string>, f: Filter): Result<Piece, Error> {
    match ValidFieldEntry(indexed, f.field)
    case Err(e) => Err(e)
    case Ok(entry) =>
      if f.op != In && f.op != NotIn then Err(UnknownOperator)
      else Ok(Piece(InList(FieldOf(Nsf, entry), f.op == NotIn, |f.matches|), Texts(f.matches)))
  }

  function ProjectLabelFilter(lt: nat, f: Filter): Result<Piece, Error>
    requires |f.field| > 2
  {
    var name := Text(f.field[2]);
    var list := WithLabelName(lt, InList(LabelValue(lt), f.op == NotIn, |f.matches|));
    if f.op == In then Ok(Piece(list, [name] + Texts(f.matches)))
    else if f.op == NotIn then Ok(Piece(Disj(list, NamespaceLacksLabel), [name] + Texts(f.matches) + [name]))
    else Err(UnknownOperator)
  }

  function OneProjectFilter(env: Env, f: Filter): Result<Piece, Error> {
    if !IsLabelFilter(f) then ProjectFieldFilter(env.indexed, f)
    else if |f.field| == 2 then Err(IndexOutOfRange)
    else if f.field[2] !in env.joinIndex then Err(NoJoinIndex)
    else ProjectLabelFilter(env.joinIndex[f.field[2]], f)
  }

  function ProjectPieces(env: Env, fs: OrFilter): Result<seq<Piece>, Error> {
    if fs == [] then Ok([])
    else
      match Pieces(f => OneProjectFilter(env, f), fs)
      case Err(e) => Err(e)
      case Ok(ps) =>
        if ps == [] then Ok([])
        else if fs[0].op == In then Ok([Piece(DisjAll(ClausesOf(ps)), ParamsOf(ps))])
        else if fs[0].op == NotIn then Ok([Piece(ConjAll(ClausesOf(ps)), ParamsOf(ps))])
        else Err(ProjectsOperator)
  }

  // ----- Namespace and partitions -----

  function InNamespace(ns: string): Piece {
    Piece(Compare(FieldOf(F, Column(NAMESPACE)), Equal), [Text(ns)])
  }

  predicate NamesOne(ns: string) { ns != "" && ns != "*" }

  function NamespacePieces(ns: string): seq<Piece> {
    if NamesOne(ns) then [InNamespace(ns)] else []
  }

  /** What one partition adds: at most a namespace test and a name test. */
  function PartitionParts(d: Dialect, p: Partition): seq<Piece> {
    if p.passthrough then []
    else
      NamespacePieces(p.namespace) +
      if p.all then []
      else if p.names == {} then [Piece(Never, [])]
      else [Piece(InList(FieldOf(F, Column(NAME)), false, |p.names|), Texts(d.sorted(p.names)))]
  }

  function PartitionClauses(d: Dialect, parts: seq<Partition>): seq<Piece> {
    if parts == [] then []
    else
      var ps := PartitionParts(d, parts[|parts| - 1]);
      PartitionClauses(d, parts[..|parts| - 1]) +
      if ps == [] then [] else [Piece(ConjAll(ClausesOf(ps)), ParamsOf(ps))]
  }

  function PartitionPieces(d: Dialect, parts: seq<Partition>): seq<Piece> {
    var ps := PartitionClauses(d, parts);
    if parts == [] then [Piece(Never, [])]
    else if ps == [] then []
    else [Piece(DisjAll(ClausesOf(ps)), ParamsOf(ps))]
  }

  // ----- Joins -----

  ghost predicate FiltersLabel(groups: seq<OrFilter>, name: string) {
    exists i, j :: 0 <= i < |groups| && 0 <= j < |groups[i]| && NamesLabel(groups[i][j], name)
  }

  /** Some filter on the label only holds for objects that have it. */
  ghost predicate SelectsLabel(groups: seq<OrFilter>, name: string) {
    exists i, j :: 0 <= i < |groups| && 0 <= j < |groups[i]|
      && NamesLabel(groups[i][j], name) && Selective(groups[i][j].op)
  }

  ghost predicate SortsBy(sort: seq<seq<string>>, name: string) {
    exists i :: 0 <= i < |sort| && IsLabelsFieldList(sort[i]) && sort[i][2] == name
  }

  /** A sort label that no filter selects; it is bound to a WITH table. */
  ghost predicate UnboundSortLabel(lo: Options, name: string) {
    SortsBy(lo.sort, name) && !SelectsLabel(lo.filters, name)
  }

  predicate UsesLabels(lo: Options) {
    || (exists i, j :: 0 <= i < |lo.filters| && 0 <= j < |lo.filters[i]| && IsLabelFilter(lo.filters[i][j]))
    || lo.projects != []
  }

  /** Label filters name a label; otherwise reading it panics. */
  predicate LabelsNamed(groups: seq<OrFilter>) {
    forall i, j :: 0 <= i < |groups| && 0 <= j < |groups[i]| && IsLabelFilter(groups[i][j]) ==> |groups[i][j].field| > 2
  }

  /** The labels that have a join of their own, in join order, the first of them WITH tables. */
  datatype Binding = Binding(with: seq<string>, names: seq<string>, joins: seq<Join>, joinIndex: map<string, nat>)

  ghost predicate Distinct(s: seq<string>) {
    forall i, j :: 0 <= i < j < |s| ==> s[i] != s[j]
  }

  /** Label i is joined as lt(i+1). */
  ghost predicate NamesBound(b: Binding, n: nat) {
    && b.with <= b.names && Distinct(b.names) && n == |b.names| <= |b.joins|
    && (forall i :: 0 <= i < n ==> b.joins[i] == if i < |b.with| then WithLabel(i + 1) else OwnLabels(i + 1))
    && (forall i :: 0 <= i < n ==> b.names[i] in b.joinIndex && b.joinIndex[b.names[i]] == i + 1)
  }

  ghost predicate BindingOk(lo: Options, b: Binding) {
    var n := |b.names|;
    && NamesBound(b, n)
    && b.joins[n..] == (if lo.projects != [] then [NamespaceLabels(n + 1)] else [])
    && (forall l :: l in b.joinIndex <==> l in b.names || (l == PROJECT_LABEL && lo.projects != []))
    && (lo.projects != [] && PROJECT_LABEL !in b.names ==> b.joinIndex[PROJECT_LABEL] == n + 1)
    && (forall l :: l in b.with <==> UnboundSortLabel(lo, l))
    && (forall l :: l in b.names <==> l in b.with || FiltersLabel(lo.filters, l))
  }

  /** The query for given join bindings. */
  function Assemble(d: Dialect, indexed: seq<string>, lo: Options, namespace: string, parts: seq<Partition>,
                    b: Binding): Result<Query, Error>
  {
    var env := Env(d, indexed, b.joinIndex);
    match FilterPieces(env, lo.filters)
    case Err(e) => Err(e)
    case Ok(filters) =>
      match ProjectPieces(env, lo.projects)
      case Err(e) => Err(e)
      case Ok(projects) =>
        var ps := filters + projects + NamespacePieces(namespace) + PartitionPieces(d, parts);
        Ok(Query(UsesLabels(lo), b.joins, b.with, ClausesOf(ps), ParamsOf(ps)))
  }

  // ----- Order -----

  const ID := "id"

  /** What a sort directive compares; the direction and the conversion of addresses are not part of this model. */
  function SortExpr(indexed: seq<string>, joinIndex: map<string, nat>, fields: seq<string>): Result<Expr, Error> {
    if IsLabelsFieldList(fields) then
      if fields[2] in joinIndex then Ok(LabelValue(joinIndex[fields[2]])) else Err(NoJoinIndex)
    else
      match ValidFieldEntry(indexed, fields)
      case Err(e) => Err(e)
      case Ok(entry) => Ok(FieldOf(F, entry))
  }

  function SortExprs(indexed: seq<string>, joinIndex: map<string, nat>, sort: seq<seq<string>>): Result<seq<Expr>, Error> {
    if sort == [] then Ok([])
    else
      match SortExprs(indexed, joinIndex, sort[..|sort| - 1])
      case Err(e) => Err(e)
      case Ok(es) =>
        match SortExpr(indexed, joinIndex, sort[|sort| - 1])
        case Err(e) => Err(e)
        case Ok(e) => Ok(es + [e])
  }

  /** The ORDER BY expressions, or the default one. */
  function OrderBy(indexed: seq<string>, namespaced: bool, joinIndex: map<string, nat>, sort: seq<seq<string>>)
    : Result<seq<Expr>, Error>
  {
    if sort == [] then Ok([FieldOf(F, Column(if namespaced then ID else NAME))])
    else SortExprs(indexed, joinIndex, sort)
  }

  lemma {:induction false} SortFails(indexed: seq<string>, joinIndex: map<string, nat>, sort: seq<seq<string>>, i: nat)
    requires i <= |sort| && SortExprs(indexed, joinIndex, sort[..i]).Err?
    ensures SortExprs(indexed, joinIndex, sort) == SortExprs(indexed, joinIndex, sort[..i])
    decreases |sort|
  {
    if i < |sort| {
      var rest := sort[..|sort| - 1];
      assert rest[..i] == sort[..i];
      SortFails(indexed, joinIndex, rest, i);
    } else {
      assert sort[..i] == sort;
    }
  }

  method BuildOrderBy(indexed: seq<string>, namespaced: bool, joinIndex: map<string, nat>, sort: seq<seq<string>>)
    returns (r: Result<seq<Expr>, Error>)
    ensures r == OrderBy(indexed, namespaced, joinIndex, sort)
  {
    hide SortExpr;
    if |sort| > 0 {
      var clauses: seq<Expr> := [];
      for i := 0 to |sort|
        invariant SortExprs(indexed, joinIndex, sort[..i]) == Ok(clauses)
      {
        assert sort[..i + 1][..i] == sort[..i];
        var clause := SortExpr(indexed, joinIndex, sort[i]);
        if clause.Err? {
          SortFails(indexed, joinIndex, sort, i + 1);
          return Err(clause.error);
        }
        clauses := clauses + [clause.value];
      }
      assert sort[..|sort|] == sort;
      return Ok(clauses);
    }
    if namespaced {
      return Ok([FieldOf(F, Column(ID))]);
    }
    return Ok([FieldOf(F, Column(NAME))]);
  }

  // ----- The builder -----

  lemma {:induction false} ParamsOfAppend(a: seq<Piece>, b: seq<Piece>)
    ensures ParamsOf(a + b) == ParamsOf(a) + ParamsOf(b)
  {
    if b == [] {
      assert a + b == a;
    } else {
      var n := |b| - 1;
      ParamsOfAppend(a, b[..n]);
      assert (a + b)[..|a + b| - 1] == a + b[..n];
    }
  }

  lemma ClausesOfAppend(a: seq<Piece>, b: seq<Piece>)
    ensures ClausesOf(a + b) == ClausesOf(a) + ClausesOf(b)
  {
  }

  lemma PrefixStep<T>(s: seq<T>, i: nat)
    requires i < |s|
    ensures s[..i + 1][..i] == s[..i] && s[..i + 1][|s[..i + 1]| - 1] == s[i] && s[..i + 1] != []
  {
  }

  method BuildGroup(env: Env, fs: OrFilter) returns (r: Result<Option<Piece>, Error>)
    ensures r == GroupPiece(env, fs)
  {
    var one := f => OneFilter(env, f);
    var clauses: seq<Clause>, params: seq<Param> := [], [];
    ghost var pieces: seq<Piece> := [];
    for i := 0 to |fs|
      invariant Pieces(one, fs[..i]) == Ok(pieces)
      invariant clauses == ClausesOf(pieces) && params == ParamsOf(pieces)
    {
      PrefixStep(fs, i);
      var p := OneFilter(env, fs[i]);
      if p.Err? {
        FirstError(one, fs, i);
        return Err(p.error);
      }
      ghost var before := pieces;
      pieces := pieces + [p.value];
      clauses, params := clauses + [p.value.clause], params + p.value.params;
      assert pieces[..|before|] == before;
    }
    assert fs[..|fs|] == fs;
    if |clauses| == 0 {
      return Ok(None);
    }
    return Ok(Some(Piece(DisjAll(clauses), params)));
  }

  /** An error in one filter is the result for the whole group. */
  lemma {:induction false} FirstError(one: Filter -> Result<Piece, Error>, fs: seq<Filter>, i: nat)
    requires i < |fs| && Pieces(one, fs[..i]).Ok? && one(fs[i]).Err?
    ensures Pieces(one, fs) == Err(one(fs[i]).error)
    decreases |fs|
  {
    var n := |fs| - 1;
    if i < n {
      assert fs[..n][..i] == fs[..i];
      FirstError(one, fs[..n], i);
    }
  }

  method BuildFilters(env: Env, groups: seq<OrFilter>) returns (r: Result<(seq<Clause>, seq<Param>), Error>)
    ensures match FilterPieces(env, groups)
            case Err(e) => r == Err(e)
            case Ok(ps) => r == Ok((ClausesOf(ps), ParamsOf(ps)))
  {
    hide GroupPiece;
    var clauses: seq<Clause>, params: seq<Param> := [], [];
    ghost var pieces: seq<Piece> := [];
    for i := 0 to |groups|
      invariant FilterPieces(env, groups[..i]) == Ok(pieces)
      invariant clauses == ClausesOf(pieces) && params == ParamsOf(pieces)
    {
      PrefixStep(groups, i);
      var g := BuildGroup(env, groups[i]);
      if g.Err? {
        FirstGroupError(env, groups, i);
        return Err(g.error);
      }
      if g.value.Some? {
        ClausesOfAppend(pieces, [g.value.value]);
        ParamsOfAppend(pieces, [g.value.value]);
        assert ParamsOf([g.value.value]) == g.value.value.params;
        pieces := pieces + [g.value.value];
        clauses, params := clauses + [g.value.value.clause], params + g.value.value.params;
      }
    }
    assert groups[..|groups|] == groups;
    return Ok((clauses, params));
  }

  lemma {:induction false} FirstGroupError(env: Env, groups: seq<OrFilter>, i: nat)
    requires i < |groups| && FilterPieces(env, groups[..i]).Ok? && GroupPiece(env, groups[i]).Err?
    ensures FilterPieces(env, groups) == Err(GroupPiece(env, groups[i]).error)
    decreases |groups|
  {
    hide GroupPiece;
    var n := |groups| - 1;
    if i < n {
      assert groups[..n][..i] == groups[..i];
      FirstGroupError(env, groups[..n], i);
    }
  }

  method BuildProjects(env: Env, fs: OrFilter) returns (r: Result<(seq<Clause>, seq<Param>), Error>)
    ensures match ProjectPieces(env, fs)
            case Err(e) => r == Err(e)
            case Ok(ps) => r == Ok((ClausesOf(ps), ParamsOf(ps)))
  {
    if |fs| == 0 {
      assert ClausesOf([]) == [];
      return Ok(([], []));
    }
    var one := f => OneProjectFilter(env, f);
    var clauses: seq<Clause>, params: seq<Param> := [], [];
    ghost var pieces: seq<Piece> := [];
    for i := 0 to |fs|
      invariant Pieces(one, fs[..i]) == Ok(pieces) && |pieces| == i
      invariant clauses == ClausesOf(pieces) && params == ParamsOf(pieces)
    {
      PrefixStep(fs, i);
      var p := OneProjectFilter(env, fs[i]);
      if p.Err? {
        FirstError(one, fs, i);
        return Err(p.error);
      }
      ghost var before := pieces;
      pieces := pieces + [p.value];
      clauses, params := clauses + [p.value.clause], params + p.value.params;
      assert pieces[..|before|] == before;
    }
    assert fs[..|fs|] == fs;
    if fs[0].op == In {
      OnePiece(Piece(DisjAll(clauses), params));
      return Ok(([DisjAll(clauses)], params));
    }
    if fs[0].op == NotIn {
      OnePiece(Piece(ConjAll(clauses), params));
      return Ok(([ConjAll(clauses)], params));
    }
    return Err(ProjectsOperator);
  }

  lemma OnePiece(p: Piece)
    ensures ClausesOf([p]) == [p.clause] && ParamsOf([p]) == p.params
  {
  }

  lemma NoPieces()
    ensures ClausesOf([]) == [] && ParamsOf([]) == []
  {
  }

  method BuildPartitions(d: Dialect, parts: seq<Partition>) returns (clauses: seq<Clause>, params: seq<Param>)
    ensures clauses == ClausesOf(PartitionPieces(d, parts)) && params == ParamsOf(PartitionPieces(d, parts))
  {
    hide PartitionParts, DisjAll;
    clauses, params := [], [];
    ghost var pieces: seq<Piece> := [];
    for i := 0 to |parts|
      invariant PartitionClauses(d, parts[..i]) == pieces
      invariant clauses == ClausesOf(pieces) && params == ParamsOf(pieces)
    {
      PrefixStep(parts, i);
      var single, more := BuildPartition(d, parts[i]);
      params := params + more;
      if |single| > 0 {
        ghost var p := Piece(ConjAll(single), more);
        OnePiece(p);
        ParamsOfAppend(pieces, [p]);
        pieces := pieces + [p];
        clauses := clauses + [ConjAll(single)];
      }
    }
    assert parts[..|parts|] == parts;
    if |parts| == 0 {
      OnePiece(Piece(Never, []));
      clauses := [Never];
    } else if |clauses| > 0 {
      OnePiece(Piece(DisjAll(clauses), params));
      clauses := [DisjAll(clauses)];
    }
  }

  method BuildPartition(d: Dialect, p: Partition) returns (clauses: seq<Clause>, params: seq<Param>)
    ensures clauses == ClausesOf(PartitionParts(d, p)) && params == ParamsOf(PartitionParts(d, p))
    ensures clauses == [] ==> params == []
  {
    hide ParamsOf, ClausesOf, Texts;
    clauses, params := [], [];
    ghost var pieces: seq<Piece> := [];
    NoPieces();
    if !p.passthrough {
      if NamesOne(p.namespace) {
        pieces := [InNamespace(p.namespace)];
        OnePiece(InNamespace(p.namespace));
        clauses, params := [InNamespace(p.namespace).clause], [Text(p.namespace)];
      }
      if !p.all {
        ghost var q: Piece;
        if |p.names| == 0 {
          q := Piece(Never, []);
          clauses := clauses + [Never];
        } else {
          var list := InList(FieldOf(F, Column(NAME)), false, |p.names|);
          var names := Texts(d.sorted(p.names));
          q := Piece(list, names);
          clauses, params := clauses + [list], params + names;
        }
        OnePiece(q);
        ClausesOfAppend(pieces, [q]);
        ParamsOfAppend(pieces, [q]);
        pieces := pieces + [q];
      }
    }
    assert pieces == PartitionParts(d, p);
  }

  // ----- Binding labels to joins -----

  ghost predicate InGroup(fs: seq<Filter>, name: string) {
    exists j :: 0 <= j < |fs| && NamesLabel(fs[j], name)
  }

  ghost predicate SelectedInGroup(fs: seq<Filter>, name: string) {
    exists j :: 0 <= j < |fs| && NamesLabel(fs[j], name) && Selective(fs[j].op)
  }

  lemma NextGroup(groups: seq<OrFilter>, i: nat, name: string)
    requires i < |groups|
    ensures FiltersLabel(groups[..i + 1], name) <==> FiltersLabel(groups[..i], name) || InGroup(groups[i], name)
    ensures SelectsLabel(groups[..i + 1], name) <==> SelectsLabel(groups[..i], name) || SelectedInGroup(groups[i], name)
  {
    assert groups[..i + 1][i] == groups[i];
    assert forall k :: 0 <= k < i ==> groups[..i + 1][k] == groups[..i][k];
  }

  lemma NextFilter(fs: seq<Filter>, j: nat, name: string)
    requires j < |fs|
    ensures InGroup(fs[..j + 1], name) <==> InGroup(fs[..j], name) || NamesLabel(fs[j], name)
    ensures SelectedInGroup(fs[..j + 1], name) <==>
            SelectedInGroup(fs[..j], name) || (NamesLabel(fs[j], name) && Selective(fs[j].op))
  {
    assert fs[..j + 1][j] == fs[j];
    assert forall k :: 0 <= k < j ==> fs[..j + 1][k] == fs[..j][k];
  }

  method GetUnboundSortLabels(lo: Options) returns (labels: seq<string>)
    requires LabelsNamed(lo.filters)
    ensures Distinct(labels)
    ensures forall l :: l in labels <==> UnboundSortLabel(lo, l)
  {
    var unbound: set<string> := {};
    for i := 0 to |lo.sort|
      invariant forall l :: l in unbound <==> SortsBy(lo.sort[..i], l)
    {
      assert lo.sort[..i + 1][i] == lo.sort[i];
      assert forall k :: 0 <= k < i ==> lo.sort[..i + 1][k] == lo.sort[..i][k];
      if IsLabelsFieldList(lo.sort[i]) {
        unbound := unbound + {lo.sort[i][2]};
      }
    }
    assert lo.sort[..|lo.sort|] == lo.sort;
    for i := 0 to |lo.filters|
      invariant forall l :: l in unbound <==> SortsBy(lo.sort, l) && !SelectsLabel(lo.filters[..i], l)
    {
      unbound := RemoveSelected(unbound, lo.filters[i]);
      forall l ensures l in unbound <==> SortsBy(lo.sort, l) && !SelectsLabel(lo.filters[..i + 1], l) {
        NextGroup(lo.filters, i, l);
      }
    }
    assert lo.filters[..|lo.filters|] == lo.filters;
    labels := Listed(unbound);
  }

  method RemoveSelected(before: set<string>, fs: OrFilter) returns (after: set<string>)
    requires LabelsNamed([fs])
    ensures forall l :: l in after <==> l in before && !SelectedInGroup(fs, l)
  {
    after := before;
    assert forall j :: 0 <= j < |fs| ==> [fs][0][j] == fs[j];
    for j := 0 to |fs|
      invariant forall l :: l in after <==> l in before && !SelectedInGroup(fs[..j], l)
    {
      var prev := after;
      if IsLabelFilter(fs[j]) && Selective(fs[j].op) {
        after := after - {fs[j].field[2]};
      }
      forall l ensures l in after <==> l in before && !SelectedInGroup(fs[..j + 1], l) {
        NextFilter(fs, j, l);
      }
    }
    assert fs[..|fs|] == fs;
  }

  /** Only labels with a join of their own are bound. */
  ghost predicate OwnBinding(b: Binding) {
    NamesBound(b, |b.joins|) && forall l :: l in b.joinIndex <==> l in b.names
  }

  function AddLabel(b: Binding, name: string): (b': Binding)
    requires OwnBinding(b) && name !in b.joinIndex
    ensures OwnBinding(b') && b'.with == b.with
    ensures forall l :: l in b'.names <==> l in b.names || l == name
  {
    var n := |b.joins| + 1;
    Binding(b.with, b.names + [name], b.joins + [OwnLabels(n)], b.joinIndex[name := n])
  }

  /** Joins the labels of one group that have no join yet. */
  method BindGroup(before: Binding, fs: OrFilter) returns (b: Binding)
    requires LabelsNamed([fs]) && OwnBinding(before)
    ensures OwnBinding(b) && b.with == before.with
    ensures forall l :: l in b.names <==> l in before.names || InGroup(fs, l)
  {
    hide NamesBound;
    b := before;
    assert forall j :: 0 <= j < |fs| ==> [fs][0][j] == fs[j];
    for j := 0 to |fs|
      invariant OwnBinding(b) && b.with == before.with
      invariant forall l :: l in b.names <==> l in before.names || InGroup(fs[..j], l)
    {
      if IsLabelFilter(fs[j]) && fs[j].field[2] !in b.joinIndex {
        b := AddLabel(b, fs[j].field[2]);
      }
      forall l ensures l in b.names <==> l in before.names || InGroup(fs[..j + 1], l) {
        NextFilter(fs, j, l);
      }
    }
    assert fs[..|fs|] == fs;
  }

  /** The WITH tables of the sort labels. */
  method BindSortLabels(labels: seq<string>) returns (b: Binding)
    requires Distinct(labels)
    ensures OwnBinding(b) && b.with == b.names == labels
  {
    var joins: seq<Join>, index: map<string, nat> := [], map[];
    for i := 0 to |labels|
      invariant |joins| == i
      invariant forall k :: 0 <= k < i ==> joins[k] == WithLabel(k + 1)
      invariant forall k :: 0 <= k < i ==> labels[k] in index && index[labels[k]] == k + 1
      invariant forall l :: l in index <==> l in labels[..i]
    {
      joins, index := joins + [WithLabel(i + 1)], index[labels[i] := i + 1];
    }
    assert labels[..|labels|] == labels;
    b := Binding(labels, labels, joins, index);
  }

  method BindJoins(lo: Options) returns (b: Binding)
    requires LabelsNamed(lo.filters)
    ensures BindingOk(lo, b)
  {
    hide FiltersLabel, SelectsLabel, UnboundSortLabel, InGroup;
    var labels := GetUnboundSortLabels(lo);
    b := BindSortLabels(labels);
    assert lo.filters[..0] == [];
    NoGroups();
    for i := 0 to |lo.filters|
      invariant OwnBinding(b) && b.with == labels
      invariant forall l :: l in b.names <==> l in labels || FiltersLabel(lo.filters[..i], l)
    {
      OneGroup(lo.filters, i);
      b := BindGroup(b, lo.filters[i]);
      forall l ensures l in b.names <==> l in labels || FiltersLabel(lo.filters[..i + 1], l) {
        NextGroup(lo.filters, i, l);
      }
    }
    assert lo.filters[..|lo.filters|] == lo.filters;
    if lo.projects != [] {
      b := BindProjects(b);
    }
  }

  lemma NoGroups()
    ensures forall l :: !FiltersLabel([], l)
  {
  }

  lemma OneGroup(groups: seq<OrFilter>, i: nat)
    requires LabelsNamed(groups) && i < |groups|
    ensures LabelsNamed([groups[i]])
  {
  }

  /** The join of the namespace's labels. A join that the project label already has is kept. */
  function BindProjects(b: Binding): (b': Binding)
    requires OwnBinding(b)
    ensures NamesBound(b', |b.joins|)
    ensures b'.with == b.with && b'.names == b.names
    ensures b'.joins == b.joins + [NamespaceLabels(|b.joins| + 1)]
    ensures forall l :: l in b'.joinIndex <==> l in b.names || l == PROJECT_LABEL
    ensures PROJECT_LABEL !in b.names ==> b'.joinIndex[PROJECT_LABEL] == |b.joins| + 1
  {
    var n := |b.joins| + 1;
    b.(joins := b.joins + [NamespaceLabels(n)],
       joinIndex := if PROJECT_LABEL in b.joinIndex then b.joinIndex else b.joinIndex[PROJECT_LABEL := n])
  }

  /** The whole builder: it fails (panics) on a label filter without a name, and otherwise produces
      the assembled query for some legal binding of labels to joins. */
  method ConstructQuery(d: Dialect, indexed: seq<string>, lo: Options, namespace: string, parts: seq<Partition>)
      returns (r: Result<Query, Error>, b: Binding)
    ensures !LabelsNamed(lo.filters) ==> r == Err(IndexOutOfRange)
    ensures LabelsNamed(lo.filters) ==> BindingOk(lo, b) && r == Assemble(d, indexed, lo, namespace, parts, b)
  {
    hide FilterPieces, ProjectPieces, PartitionPieces, BindingOk, UsesLabels, ParamsOf, ClausesOf;
    b := Binding([], [], [], map[]);
    if !LabelsNamed(lo.filters) {
      return Err(IndexOutOfRange), b;
    }
    b := BindJoins(lo);
    var env := Env(d, indexed, b.joinIndex);
    var filters := BuildFilters(env, lo.filters);
    if filters.Err? {
      return Err(filters.error), b;
    }
    var projects := BuildProjects(env, lo.projects);
    if projects.Err? {
      return Err(projects.error), b;
    }
    var wheres := filters.value.0 + projects.value.0;
    var params := filters.value.1 + projects.value.1;
    NamespacePart(namespace);
    if NamesOne(namespace) {
      wheres, params := wheres + [InNamespace(namespace).clause], params + [Text(namespace)];
    }
    var clauses, more := BuildPartitions(d, parts);
    r := Ok(Query(UsesLabels(lo), b.joins, b.with, wheres + clauses, params + more));
    ghost var fs, ps := FilterPieces(env, lo.filters).value, ProjectPieces(env, lo.projects).value;
    FourParts(fs, ps, NamespacePieces(namespace), PartitionPieces(d, parts));
    assert wheres == ClausesOf(fs) + ClausesOf(ps) + ClausesOf(NamespacePieces(namespace));
    assert params == ParamsOf(fs) + ParamsOf(ps) + ParamsOf(NamespacePieces(namespace));
  }

  lemma NamespacePart(namespace: string)
    ensures ClausesOf(NamespacePieces(namespace)) == if NamesOne(namespace) then [InNamespace(namespace).clause] else []
    ensures ParamsOf(NamespacePieces(namespace)) == if NamesOne(namespace) then [Text(namespace)] else []
  {
  }

  lemma FourParts(a: seq<Piece>, b: seq<Piece>, c: seq<Piece>, d: seq<Piece>)
    ensures ClausesOf(a + b + c + d) == ClausesOf(a) + ClausesOf(b) + ClausesOf(c) + ClausesOf(d)
    ensures ParamsOf(a + b + c + d) == ParamsOf(a) + ParamsOf(b) + ParamsOf(c) + ParamsOf(d)
  {
    ClausesOfAppend(a, b);
    ClausesOfAppend(a + b, c);
    ClausesOfAppend(a + b + c, d);
    ParamsOfAppend(a, b);
    ParamsOfAppend(a + b, c);
    ParamsOfAppend(a + b + c, d);
  }
}
