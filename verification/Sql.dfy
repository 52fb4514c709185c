/**
 The part of SQL that the query builder of pkg/sqlcache/informer/listoption_indexer.go emits:
 clauses with positional holes, joins, and their meaning in three-valued logic.
 */
module Sql {
  import opened Prelude
  import Like

  datatype Truth = True | False | Unknown

  function And3(a: Truth, b: Truth): Truth {
    if a == False || b == False then False
    else if a == True && b == True then True
    else Unknown
  }

  function Or3(a: Truth, b: Truth): Truth {
    if a == True || b == True then True
    else if a == False && b == False then False
    else Unknown
  }

  function Truth3(b: bool): Truth { if b then True else False }

  /** What SQLite and its registered functions decide: `extractBarredValue`, numeric comparison of
      a column with a number, number parsing, and the order in which a set of names is listed. */
  datatype Dialect = Dialect(
    barred: (string, string) -> string,
    less: (string, real) -> bool,
    greater: (string, real) -> bool,
    parseFloat: string -> Option<real>,
    sorted: set<string> -> seq<string>)

  /** Sorting lists each name of a set once. */
  ghost predicate WfDialect(d: Dialect) {
    && (forall s :: |d.sorted(s)| == |s|)
    && (forall s, x :: x in d.sorted(s) <==> x in s)
  }

  datatype Param = Text(s: string) | Number(r: real)

  /** `f` is the fields table of the listed kind, `nsf` that of namespaces. */
  datatype Table = F | Nsf

  /** A column, or one element of a column that holds a |-separated list. */
  datatype Entry = Column(name: string) | Element(name: string, index: string)

  datatype Expr = FieldOf(table: Table, entry: Entry) | LabelName(lt: nat) | LabelValue(lt: nat)

  datatype Comparison = Equal | NotEqual | LikeOp | NotLike | Less | Greater

  datatype Clause =
    | Compare(e: Expr, op: Comparison)               // e op ?
    | InList(e: Expr, negated: bool, holes: nat)     // e [NOT] IN (?, ...)
    | LacksLabel                                     // o.key NOT IN (keys that have label ?)
    | NamespaceLacksLabel                            // o.key NOT IN (keys whose namespace has label ?)
    | Conj(l: Clause, r: Clause)
    | Disj(l: Clause, r: Clause)
    | Never                                          // FALSE

  /** How many parameters a clause consumes. */
  function Holes(c: Clause): nat {
    match c
    case Compare(_, _) => 1
    case InList(_, _, n) => n
    case LacksLabel => 1
    case NamespaceLacksLabel => 1
    case Conj(l, r) => Holes(l) + Holes(r)
    case Disj(l, r) => Holes(l) + Holes(r)
    case Never => 0
  }

  /** The joins after the fields table. A WITH table has the columns key and value only, and its
      definition consumes one parameter, the label. */
  datatype Join = WithLabel(lt: nat) | OwnLabels(lt: nat) | NamespaceLabels(lt: nat)

  type Columns = map<string, string>
  type Labels = map<string, string>

  /** Objects and namespaces by key: the columns of their fields table and their labels. */
  datatype Db = Db(
    fields: map<string, Columns>,
    labels: map<string, Labels>,
    nsFields: map<string, Columns>,
    nsLabels: map<string, Labels>)

  const NAME := "metadata.name"
  const NAMESPACE := "metadata.namespace"

  function LabelsOf(labels: map<string, Labels>, key: string): Labels {
    if key in labels then labels[key] else map[]
  }

  function ColumnOf(columns: Columns, name: string): Option<string> {
    if name in columns then Some(columns[name]) else None
  }

  /** Namespaces have a name and no two share one. */
  ghost predicate WfDb(db: Db) {
    && (forall k :: k in db.nsFields ==> NAME in db.nsFields[k])
    && (forall j, k :: j in db.nsFields && k in db.nsFields && j != k ==>
          db.nsFields[j][NAME] != db.nsFields[k][NAME])
  }

  /** ON f."metadata.namespace" = nsf."metadata.name" */
  ghost predicate NamespaceRow(db: Db, key: string, nsKey: string) {
    && key in db.fields && nsKey in db.nsFields
    && NAME in db.nsFields[nsKey]
    && ColumnOf(db.fields[key], NAMESPACE) == Some(db.nsFields[nsKey][NAME])
  }

  datatype LabelRow = LabelRow(name: string, value: string)

  /** One row of the joined tables; None stands for the NULL row of an outer join. */
  datatype Row = Row(key: string, ns: Option<string>, lts: map<nat, Option<LabelRow>>)

  /** A row of `labels` for the object, or NULL when it has none. */
  ghost predicate LabelChoice(labels: Labels, r: Option<LabelRow>) {
    match r
    case None => labels == map[]
    case Some(LabelRow(l, v)) => l in labels && labels[l] == v
  }

  ghost predicate NamespaceChoice(db: Db, key: string, ns: Option<string>) {
    match ns
    case None => forall k :: !NamespaceRow(db, key, k)
    case Some(k) => NamespaceRow(db, key, k)
  }

  ghost predicate JoinOk(db: Db, row: Row, j: Join, with: string) {
    && j.lt in row.lts
    && match j
       case WithLabel(lt) =>
         var labels := LabelsOf(db.labels, row.key);
         row.lts[lt] == if with in labels then Some(LabelRow(with, labels[with])) else None
       case OwnLabels(lt) => LabelChoice(LabelsOf(db.labels, row.key), row.lts[lt])
       case NamespaceLabels(lt) =>
         && NamespaceChoice(db, row.key, row.ns)
         && if row.ns.None? then row.lts[lt] == None
            else LabelChoice(LabelsOf(db.nsLabels, row.ns.value), row.lts[lt])
  }

  function WithCount(joins: seq<Join>): nat {
    if joins == [] then 0 else (if joins[0].WithLabel? then 1 else 0) + WithCount(joins[1..])
  }

  /** The row belongs to the joined tables; `labels` are the parameters of the WITH tables. */
  ghost predicate RowOf(db: Db, joins: seq<Join>, labels: seq<string>, row: Row) {
    && row.key in db.fields
    && (forall lt :: lt in row.lts <==> exists i :: 0 <= i < |joins| && joins[i].lt == lt)
    && (forall i :: 0 <= i < |joins| ==>
          JoinOk(db, row, joins[i], if joins[i].WithLabel? && i < |labels| then labels[i] else ""))
    && ((forall j :: j in joins ==> !j.NamespaceLabels?) ==> row.ns == None)
  }

  function EntryValue(d: Dialect, columns: Columns, e: Entry): Option<string> {
    match e
    case Column(name) => ColumnOf(columns, name)
    case Element(name, index) => if name in columns then Some(d.barred(columns[name], index)) else None
  }

  /** The value of an expression in a row; None is NULL. */
  function ExprValue(d: Dialect, db: Db, row: Row, e: Expr): Option<string> {
    match e
    case FieldOf(F, entry) =>
      if row.key in db.fields then EntryValue(d, db.fields[row.key], entry) else None
    case FieldOf(Nsf, entry) =>
      if row.ns.Some? && row.ns.value in db.nsFields then EntryValue(d, db.nsFields[row.ns.value], entry) else None
    case LabelName(lt) =>
      if lt in row.lts && row.lts[lt].Some? then Some(row.lts[lt].value.name) else None
    case LabelValue(lt) =>
      if lt in row.lts && row.lts[lt].Some? then Some(row.lts[lt].value.value) else None
  }

  function EvalCompare(d: Dialect, v: Option<string>, op: Comparison, p: Param): Truth {
    if v.None? then Unknown
    else match (op, p)
         case (Equal, Text(t)) => Truth3(v.value == t)
         case (NotEqual, Text(t)) => Truth3(v.value != t)
         case (LikeOp, Text(t)) => Truth3(Like.LikeMatch(t, v.value))
         case (NotLike, Text(t)) => Truth3(!Like.LikeMatch(t, v.value))
         case (Less, Number(r)) => Truth3(d.less(v.value, r))
         case (Greater, Number(r)) => Truth3(d.greater(v.value, r))
         case _ => Unknown
  }

  /** x IN () is false and x NOT IN () true, even for NULL. */
  function EvalIn(v: Option<string>, negated: bool, ps: seq<Param>): Truth {
    if ps == [] then Truth3(negated)
    else if v.None? then Unknown
    else Truth3((Text(v.value) in ps) != negated)
  }

  ghost predicate NamespaceHasLabel(db: Db, key: string, name: string) {
    exists k :: NamespaceRow(db, key, k) && name in LabelsOf(db.nsLabels, k)
  }

  /** A clause consumes its parameters from left to right. */
  ghost function Eval(d: Dialect, db: Db, row: Row, c: Clause, ps: seq<Param>): Truth
    requires |ps| == Holes(c)
  {
    match c
    case Compare(e, op) => EvalCompare(d, ExprValue(d, db, row, e), op, ps[0])
    case InList(e, negated, _) => EvalIn(ExprValue(d, db, row, e), negated, ps)
    case LacksLabel =>
      if ps[0].Text? then Truth3(ps[0].s !in LabelsOf(db.labels, row.key)) else Unknown
    case NamespaceLacksLabel =>
      if ps[0].Text? then Truth3(!NamespaceHasLabel(db, row.key, ps[0].s)) else Unknown
    case Conj(l, r) =>
      And3(Eval(d, db, row, l, ps[..Holes(l)]), Eval(d, db, row, r, ps[Holes(l)..]))
    case Disj(l, r) =>
      Or3(Eval(d, db, row, l, ps[..Holes(l)]), Eval(d, db, row, r, ps[Holes(l)..]))
    case Never => False
  }

  function HolesOfAll(cs: seq<Clause>): nat {
    if cs == [] then 0 else HolesOfAll(cs[..|cs| - 1]) + Holes(cs[|cs| - 1])
  }

  /** WHERE (c1) AND (c2) AND ...: the row is kept when the conjunction is true. */
  ghost predicate Keeps(d: Dialect, db: Db, row: Row, cs: seq<Clause>, ps: seq<Param>)
    requires |ps| == HolesOfAll(cs)
  {
    cs == [] ||
    var n := |cs| - 1;
    var cut := HolesOfAll(cs[..n]);
    Keeps(d, db, row, cs[..n], ps[..cut]) && Eval(d, db, row, cs[n], ps[cut..]) == True
  }

  /** A SELECT over the joined tables. `with` are the parameters of its WITH tables, which precede
      those of the WHERE clauses. */
  datatype Query = Query(distinct: bool, joins: seq<Join>, with: seq<string>, wheres: seq<Clause>, params: seq<Param>)

  predicate Complete(q: Query) {
    |q.params| == HolesOfAll(q.wheres) && |q.with| == WithCount(q.joins)
  }

  /** The label column of `lt` exists: it is not a WITH table. */
  predicate HasLabelColumn(joins: seq<Join>, lt: nat) {
    exists j :: j in joins && j.lt == lt && !j.WithLabel?
  }

  /** What a query may name: the columns of the listed kind's fields table, and the joined tables. */
  datatype Tables = Tables(indexed: seq<string>, joins: seq<Join>)

  /** Of the namespaces' columns only the name is ever asked for. */
  predicate ExprBound(t: Tables, e: Expr) {
    match e
    case LabelName(lt) => HasLabelColumn(t.joins, lt)
    case LabelValue(lt) => exists j :: j in t.joins && j.lt == lt
    case FieldOf(F, entry) => entry.name in t.indexed
    case FieldOf(Nsf, entry) => entry.name == NAME && exists j :: j in t.joins && j.NamespaceLabels?
  }

  /** Every column that a clause names exists. */
  predicate Bound(t: Tables, c: Clause) {
    match c
    case Compare(e, _) => ExprBound(t, e)
    case InList(e, _, _) => ExprBound(t, e)
    case Conj(l, r) => Bound(t, l) && Bound(t, r)
    case Disj(l, r) => Bound(t, l) && Bound(t, r)
    case LacksLabel => true
    case NamespaceLacksLabel => NAMESPACE in t.indexed
    case Never => true
  }

  /** Namespaces are joined ON f."metadata.namespace" = nsf."metadata.name". */
  predicate JoinBound(indexed: seq<string>, j: Join) { j.NamespaceLabels? ==> NAMESPACE in indexed }

  /** Every column that the joins and the WHERE clauses of a query name exists. */
  predicate ColumnsExist(indexed: seq<string>, q: Query) {
    && (forall j :: j in q.joins ==> JoinBound(indexed, j))
    && forall i :: 0 <= i < |q.wheres| ==> Bound(Tables(indexed, q.joins), q.wheres[i])
  }

  ghost predicate Selects(d: Dialect, db: Db, q: Query, key: string)
    requires Complete(q)
  {
    exists row: Row :: row.key == key && RowOf(db, q.joins, q.with, row) && Keeps(d, db, row, q.wheres, q.params)
  }

  /** The object comes at most once: because of DISTINCT, or because only one row can be kept. */
  ghost predicate AtMostOnce(d: Dialect, db: Db, q: Query, key: string)
    requires Complete(q)
  {
    q.distinct ||
    forall r1: Row, r2: Row ::
      && r1.key == key && RowOf(db, q.joins, q.with, r1) && Keeps(d, db, r1, q.wheres, q.params)
      && r2.key == key && RowOf(db, q.joins, q.with, r2) && Keeps(d, db, r2, q.wheres, q.params)
      ==> r1 == r2
  }
}
