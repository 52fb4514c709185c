/**
 The main results about constructed queries: they select exactly the objects that satisfy the
 request, each once; and exactly when their columns exist and their partitions form a union.
 */
module QueryResult {
  import opened Prelude
  import opened Sql
  import opened ListOptions
  import opened QueryBuilder
  import opened QueryMeaning
  import Like

  // ----- The projects-or-namespaces filter -----

  /** What parseNamespaceOrProjectFilters makes of a list of namespaces and projects. */
  function ProjectFilter(list: seq<string>, op: Op): OrFilter {
    [Filter(["metadata", "name"], list, op, false),
     Filter(["metadata", "labels", PROJECT_LABEL], list, op, false)]
  }

  /** The object's namespace exists and is listed, by its name or by its project; or neither. */
  ghost predicate ProjectsHold(db: Db, key: string, list: seq<string>, op: Op) {
    exists k ::
      && NamespaceRow(db, key, k)
      && var listed := db.nsFields[k][NAME] in list;
         var labels := LabelsOf(db.nsLabels, k);
         var inProject := PROJECT_LABEL in labels && labels[PROJECT_LABEL] in list;
         if op == In then listed || inProject else !listed && !inProject
  }

  ghost predicate ProjectRowHolds(db: Db, row: Row, lt: nat, list: seq<string>, op: Op) {
    var named := row.ns.Some? && row.ns.value in db.nsFields && NAME in db.nsFields[row.ns.value];
    var shows := ShowsLabel(row, lt, PROJECT_LABEL);
    if op == In then
      (named && db.nsFields[row.ns.value][NAME] in list) || (shows && row.lts[lt].value.value in list)
    else
      && named && db.nsFields[row.ns.value][NAME] !in list
      && ((shows && row.lts[lt].value.value !in list) || !NamespaceHasLabel(db, row.key, PROJECT_LABEL))
  }

  lemma {:induction false} ReplaceNone(s: string, c: char)
    requires c !in s
    ensures Like.ReplaceAll(s, c, "") == s
  {
    if s != "" {
      ReplaceNone(s[1..], c);
    }
  }

  lemma NameColumn()
    ensures ToColumnName(["metadata", "name"]) == NAME
  {
    var s := ["metadata", "name"];
    assert s[..1] == ["metadata"];
    assert JoinWith(s, ".") == JoinWith(["metadata"], ".") + "." + "name";
    assert IsSimpleName("name");
    assert SmartJoin(s) == "metadata.name";
    ReplaceNone("metadata.name", '"');
  }

  lemma ProjectPiecesShape(env: Env, list: seq<string>, op: Op, lt: nat)
    requires NAME in env.indexed && op in {In, NotIn}
    requires PROJECT_LABEL in env.joinIndex && env.joinIndex[PROJECT_LABEL] == lt
    ensures var name := Piece(InList(FieldOf(Nsf, Column(NAME)), op == NotIn, |list|), Texts(list));
            var inList := Piece(InList(LabelValue(lt), op == NotIn, |list|), Texts(list));
            var shown := NamePiece(lt, PROJECT_LABEL);
            var both := Piece(Conj(shown.clause, inList.clause), shown.params + inList.params);
            var lacks := Piece(NamespaceLacksLabel, [Text(PROJECT_LABEL)]);
            var either := Piece(Disj(both.clause, lacks.clause), both.params + lacks.params);
            ProjectPieces(env, ProjectFilter(list, op)) == Ok([
              if op == In then Piece(Disj(name.clause, both.clause), name.params + both.params)
              else Piece(Conj(name.clause, either.clause), name.params + either.params)])
  {
    hide Texts, ToColumnName;
    NameColumn();
    var fs := ProjectFilter(list, op);
    var one := f => OneProjectFilter(env, f);
    var p0, p1 := one(fs[0]).value, one(fs[1]).value;
    PiecesOfTwo(one, fs[0], fs[1]);
    TwoJoined(p0, p1);
  }

  lemma PiecesOfTwo(one: Filter -> Result<Piece, Error>, f: Filter, g: Filter)
    requires one(f).Ok? && one(g).Ok?
    ensures Pieces(one, [f, g]) == Ok([one(f).value, one(g).value])
  {
    var p, q := one(f).value, one(g).value;
    assert [f, g][..1] == [f] && [f][..0] == [];
    assert Pieces(one, [f]) == Ok([p]) by {
      assert Pieces(one, [f][..0]) == Ok([]);
      assert [] + [p] == [p];
    }
    assert Pieces(one, [f, g][..1]) == Ok([p]);
    assert [p] + [q] == [p, q];
  }

  lemma TwoJoined(p: Piece, q: Piece)
    ensures DisjAll(ClausesOf([p, q])) == Disj(p.clause, q.clause)
    ensures ConjAll(ClausesOf([p, q])) == Conj(p.clause, q.clause)
    ensures ParamsOf([p, q]) == p.params + q.params
  {
    assert ClausesOf([p, q]) == [p.clause, q.clause];
    assert [p.clause, q.clause][..1] == [p.clause];
    assert [p, q][..1] == [p];
    assert ParamsOf([p]) == [] + p.params;
  }

  lemma NameListMeans(d: Dialect, db: Db, row: Row, list: seq<string>, negated: bool)
    requires list != []
    ensures var p := Piece(InList(FieldOf(Nsf, Column(NAME)), negated, |list|), Texts(list));
            && Fits(p)
            && (PieceTrue(d, db, row, p) <==>
                  && row.ns.Some? && row.ns.value in db.nsFields && NAME in db.nsFields[row.ns.value]
                  && (db.nsFields[row.ns.value][NAME] in list) != negated)
  {
    if row.ns.Some? && row.ns.value in db.nsFields && NAME in db.nsFields[row.ns.value] {
      TextsIn(db.nsFields[row.ns.value][NAME], list);
    }
  }

  lemma ValueListMeans(d: Dialect, db: Db, row: Row, lt: nat, list: seq<string>, negated: bool)
    requires list != []
    ensures var p := Piece(InList(LabelValue(lt), negated, |list|), Texts(list));
            && Fits(p)
            && (PieceTrue(d, db, row, p) <==>
                  lt in row.lts && row.lts[lt].Some? && (row.lts[lt].value.value in list) != negated)
  {
    if lt in row.lts && row.lts[lt].Some? {
      TextsIn(row.lts[lt].value.value, list);
    }
  }

  lemma NamespaceLacksMeans(d: Dialect, db: Db, row: Row)
    ensures var p := Piece(NamespaceLacksLabel, [Text(PROJECT_LABEL)]);
            Fits(p) && (PieceTrue(d, db, row, p) <==> !NamespaceHasLabel(db, row.key, PROJECT_LABEL))
  {
  }

  lemma ProjectsMean(env: Env, db: Db, row: Row, list: seq<string>, op: Op, lt: nat)
    requires NAME in env.indexed && op in {In, NotIn} && list != []
    requires PROJECT_LABEL in env.joinIndex && env.joinIndex[PROJECT_LABEL] == lt
    ensures ProjectPieces(env, ProjectFilter(list, op)).Ok?
    ensures AllFit(ProjectPieces(env, ProjectFilter(list, op)).value)
    ensures AllTrue(env.d, db, row, ProjectPieces(env, ProjectFilter(list, op)).value) <==>
            ProjectRowHolds(db, row, lt, list, op)
  {
    hide PieceTrue, Fits, ProjectPieces, Texts, NamespaceHasLabel, ProjectFilter, Eval;
    ProjectPiecesShape(env, list, op, lt);
    var name := Piece(InList(FieldOf(Nsf, Column(NAME)), op == NotIn, |list|), Texts(list));
    var inList := Piece(InList(LabelValue(lt), op == NotIn, |list|), Texts(list));
    var shown := NamePiece(lt, PROJECT_LABEL);
    var both := Piece(Conj(shown.clause, inList.clause), shown.params + inList.params);
    var lacks := Piece(NamespaceLacksLabel, [Text(PROJECT_LABEL)]);
    var either := Piece(Disj(both.clause, lacks.clause), both.params + lacks.params);
    NameListMeans(env.d, db, row, list, op == NotIn);
    ValueListMeans(env.d, db, row, lt, list, op == NotIn);
    NamePieceMeans(env.d, db, row, lt, PROJECT_LABEL);
    NamespaceLacksMeans(env.d, db, row);
    TwoPieces(env.d, db, row, shown, inList);
    TwoPieces(env.d, db, row, both, lacks);
    TwoPieces(env.d, db, row, name, both);
    TwoPieces(env.d, db, row, name, either);
    SinglePiece(env.d, db, row, ProjectPieces(env, ProjectFilter(list, op)).value[0]);
  }

  /** In a row of the joined tables, whatever the row test accepts really holds. */
  lemma ProjectSound(db: Db, row: Row, lt: nat, list: seq<string>, op: Op)
    requires WfDb(db) && lt in row.lts && NamespaceChoice(db, row.key, row.ns)
    requires if row.ns.None? then row.lts[lt] == None else LabelChoice(LabelsOf(db.nsLabels, row.ns.value), row.lts[lt])
    requires ProjectRowHolds(db, row, lt, list, op)
    ensures ProjectsHold(db, row.key, list, op)
  {
    var k := row.ns.value;
    assert NamespaceRow(db, row.key, k);
    if op != In && PROJECT_LABEL in LabelsOf(db.nsLabels, k) {
      assert NamespaceHasLabel(db, row.key, PROJECT_LABEL);
    }
  }

  lemma ProjectComplete(db: Db, row: Row, lt: nat, list: seq<string>, op: Op)
    requires WfDb(db) && lt in row.lts && NamespaceChoice(db, row.key, row.ns)
    requires row.ns.Some? && PROJECT_LABEL in LabelsOf(db.nsLabels, row.ns.value) ==>
               row.lts[lt] == Some(LabelRow(PROJECT_LABEL, LabelsOf(db.nsLabels, row.ns.value)[PROJECT_LABEL]))
    requires ProjectsHold(db, row.key, list, op)
    ensures ProjectRowHolds(db, row, lt, list, op)
  {
    var k :|
      && NamespaceRow(db, row.key, k)
      && var listed := db.nsFields[k][NAME] in list;
         var labels := LabelsOf(db.nsLabels, k);
         var inProject := PROJECT_LABEL in labels && labels[PROJECT_LABEL] in list;
         if op == In then listed || inProject else !listed && !inProject;
    assert row.ns == Some(k);
    if op != In && NamespaceHasLabel(db, row.key, PROJECT_LABEL) {
      var j :| NamespaceRow(db, row.key, j) && PROJECT_LABEL in LabelsOf(db.nsLabels, j);
      assert j == k;
    }
  }

  /** What the projects filter tests when some filter names the project label too: both share that
      label's table, so that the clause reads the object's own label in place of its namespace's. */
  ghost predicate OwnProjectsHold(db: Db, key: string, list: seq<string>, op: Op) {
    var labels := LabelsOf(db.labels, key);
    if op == In then
      || (exists k :: NamespaceRow(db, key, k) && db.nsFields[k][NAME] in list)
      || (PROJECT_LABEL in labels && labels[PROJECT_LABEL] in list)
    else
      && (exists k :: NamespaceRow(db, key, k) && db.nsFields[k][NAME] !in list)
      && ((PROJECT_LABEL in labels && labels[PROJECT_LABEL] !in list) || !NamespaceHasLabel(db, key, PROJECT_LABEL))
  }

  lemma OwnProjectSound(db: Db, row: Row, lt: nat, list: seq<string>, op: Op)
    requires lt in row.lts && NamespaceChoice(db, row.key, row.ns)
    requires LabelChoice(LabelsOf(db.labels, row.key), row.lts[lt])
    requires ProjectRowHolds(db, row, lt, list, op)
    ensures OwnProjectsHold(db, row.key, list, op)
  {
    hide NamespaceHasLabel, LabelsOf;
    if row.ns.Some? {
      assert NamespaceRow(db, row.key, row.ns.value);
    }
  }

  lemma OwnProjectComplete(db: Db, row: Row, lt: nat, list: seq<string>, op: Op)
    requires WfDb(db) && lt in row.lts && NamespaceChoice(db, row.key, row.ns)
    requires var labels := LabelsOf(db.labels, row.key);
             PROJECT_LABEL in labels ==> row.lts[lt] == Some(LabelRow(PROJECT_LABEL, labels[PROJECT_LABEL]))
    requires OwnProjectsHold(db, row.key, list, op)
    ensures ProjectRowHolds(db, row, lt, list, op)
  {
    hide NamespaceHasLabel, LabelsOf;
    if k :| NamespaceRow(db, row.key, k) {
      assert row.ns == Some(k);
    }
  }

  // ----- Rows -----

  ghost function ChooseLabel(labels: Labels, name: string): (r: Option<LabelRow>)
    ensures LabelChoice(labels, r)
    ensures name in labels ==> r == Some(LabelRow(name, labels[name]))
  {
    if name in labels then Some(LabelRow(name, labels[name]))
    else if labels == map[] then None
    else
      var l :| l in labels;
      Some(LabelRow(l, labels[l]))
  }

  ghost function ChooseNamespace(db: Db, key: string): (r: Option<string>)
    ensures NamespaceChoice(db, key, r)
  {
    if k :| NamespaceRow(db, key, k) then Some(k) else None
  }

  /** What the i-th join shows in the row that shows every filtered label the object has. */
  ghost function Shown(db: Db, b: Binding, key: string, ns: Option<string>, i: nat): Option<LabelRow>
    requires |b.with| <= |b.names|
  {
    var labels := LabelsOf(db.labels, key);
    if i < |b.with| then
      if b.with[i] in labels then Some(LabelRow(b.with[i], labels[b.with[i]])) else None
    else if i < |b.names| then ChooseLabel(labels, b.names[i])
    else if ns.None? then None
    else ChooseLabel(LabelsOf(db.nsLabels, ns.value), PROJECT_LABEL)
  }

  /** The row shows every filtered label the object has. */
  ghost predicate ShowsAll(db: Db, b: Binding, row: Row) {
    && |b.with| <= |b.names|
    && forall i :: 0 <= i < |b.joins| ==> i + 1 in row.lts && row.lts[i + 1] == Shown(db, b, row.key, row.ns, i)
  }

  ghost function ShownAll(db: Db, b: Binding, key: string, ns: Option<string>, n: nat): (lts: map<nat, Option<LabelRow>>)
    requires |b.with| <= |b.names|
    ensures forall lt :: lt in lts <==> 1 <= lt <= n
    ensures forall lt :: lt in lts ==> lts[lt] == Shown(db, b, key, ns, lt - 1)
  {
    if n == 0 then map[] else ShownAll(db, b, key, ns, n - 1)[n := Shown(db, b, key, ns, n - 1)]
  }

  /** The i-th join is lt(i+1). */
  lemma JoinIndices(lo: Options, b: Binding)
    requires BindingOk(lo, b)
    ensures forall i :: 0 <= i < |b.joins| ==> b.joins[i].lt == i + 1
    ensures forall i :: |b.names| <= i < |b.joins| ==> lo.projects != [] && b.joins[i] == NamespaceLabels(i + 1)
    ensures |b.joins| == |b.names| + (if lo.projects == [] then 0 else 1)
  {
    hide UnboundSortLabel, FiltersLabel;
    var n := |b.names|;
    forall i | n <= i < |b.joins| ensures lo.projects != [] && b.joins[i] == NamespaceLabels(i + 1) {
      assert b.joins[i] == b.joins[n..][i - n];
    }
  }

  lemma FullRowJoin(db: Db, lo: Options, b: Binding, row: Row, i: nat)
    requires BindingOk(lo, b) && i < |b.joins|
    requires row.ns == if lo.projects == [] then None else ChooseNamespace(db, row.key)
    requires i + 1 in row.lts && row.lts[i + 1] == Shown(db, b, row.key, row.ns, i)
    ensures JoinOk(db, row, b.joins[i], if b.joins[i].WithLabel? && i < |b.with| then b.with[i] else "")
  {
    hide UnboundSortLabel, FiltersLabel, LabelChoice, NamespaceChoice, LabelsOf;
    JoinIndices(lo, b);
  }

  lemma FullRow(db: Db, lo: Options, b: Binding, key: string) returns (row: Row)
    requires BindingOk(lo, b) && key in db.fields
    ensures row.key == key && RowOf(db, b.joins, b.with, row)
    ensures ShowsAll(db, b, row)
  {
    hide BindingOk, JoinOk, Shown, ChooseNamespace, NamesBound;
    JoinIndices(lo, b);
    var ns := if lo.projects == [] then None else ChooseNamespace(db, key);
    assert |b.with| <= |b.names| by {
      BindingPrefix(lo, b);
    }
    row := Row(key, ns, ShownAll(db, b, key, ns, |b.joins|));
    forall i | 0 <= i < |b.joins|
      ensures JoinOk(db, row, b.joins[i], if b.joins[i].WithLabel? && i < |b.with| then b.with[i] else "")
    {
      FullRowJoin(db, lo, b, row, i);
    }
    forall lt ensures lt in row.lts <==> exists i :: 0 <= i < |b.joins| && b.joins[i].lt == lt {
      if 1 <= lt <= |b.joins| {
        assert b.joins[lt - 1].lt == lt;
      }
    }
    if lo.projects != [] {
      assert b.joins[|b.names|] in b.joins;
    }
  }

  lemma BindingPrefix(lo: Options, b: Binding)
    requires BindingOk(lo, b)
    ensures |b.with| <= |b.names| <= |b.joins| && b.with <= b.names
  {
  }

  // ----- The request -----

  datatype Projects = NoProjects | Projects(list: seq<string>, op: Op)

  predicate ProjectsOk(pr: Projects) {
    pr.Projects? ==> pr.op in {In, NotIn} && pr.list != []
  }

  function ProjectsOf(pr: Projects): OrFilter {
    if pr.NoProjects? then [] else ProjectFilter(pr.list, pr.op)
  }

  /** The direct meaning of a list request for one object. */
  ghost predicate RequestHolds(d: Dialect, indexed: seq<string>, db: Db, lo: Options, pr: Projects,
                               namespace: string, parts: seq<Partition>, key: string)
  {
    && key in db.fields
    && GroupsHold(d, indexed, db.fields[key], LabelsOf(db.labels, key), lo.filters)
    && (pr.NoProjects? || ProjectsPass(db, lo, key, pr.list, pr.op))
    && InNamespaceHolds(db.fields[key], namespace)
    && PartitionsHold(db.fields[key], parts)
  }

  ghost predicate ProjectsPass(db: Db, lo: Options, key: string, list: seq<string>, op: Op) {
    if FiltersLabel(lo.filters, PROJECT_LABEL) then OwnProjectsHold(db, key, list, op) else ProjectsHold(db, key, list, op)
  }

  /** Where the project label is joined. */
  function ProjectLt(b: Binding): nat { if PROJECT_LABEL in b.joinIndex then b.joinIndex[PROJECT_LABEL] else 0 }

  /** Every object has every indexed column, among them its name. */
  ghost predicate TablesOk(d: Dialect, indexed: seq<string>, db: Db) {
    && WfDialect(d) && WfDb(db) && NAME in indexed
    && forall k, c :: k in db.fields && c in indexed ==> c in db.fields[k]
  }

  /** A sort label that is only filtered by negative operators, one of which compares its value. */
  ghost predicate Clashes(lo: Options, name: string) {
    UnboundSortLabel(lo, name)
    && exists i, j :: 0 <= i < |lo.filters| && 0 <= j < |lo.filters[i]|
         && NamesLabel(lo.filters[i][j], name) && lo.filters[i][j].op in {NotEq, NotIn}
  }

  ghost predicate OptionsOk(lo: Options, pr: Projects) {
    && LabelsNamed(lo.filters) && ListsOk(lo.filters)
    && (forall name :: !Clashes(lo, name))
    && ProjectsOk(pr) && lo.projects == ProjectsOf(pr)
    && (pr.Projects? ==> !UnboundSortLabel(lo, PROJECT_LABEL))
  }

  /** A partition whose clause names a namespace. */
  predicate PartitionNamesOne(p: Partition) { !p.passthrough && NamesOne(p.namespace) }

  /** The namespace is only asked for when the kind's table has it, which is when the kind is namespaced. */
  predicate NamespaceKnown(indexed: seq<string>, pr: Projects, namespace: string, parts: seq<Partition>) {
    || NAMESPACE in indexed
    || (pr.NoProjects? && !NamesOne(namespace) && forall p :: p in parts ==> !PartitionNamesOne(p))
  }

  /** The request as one row of the joined tables shows it. */
  ghost predicate RowRequestHolds(env: Env, db: Db, lo: Options, pr: Projects, namespace: string,
                                  parts: seq<Partition>, row: Row, lt: nat)
  {
    && row.key in db.fields
    && GroupsRowHold(env, db, row, lo.filters)
    && (pr.NoProjects? || ProjectRowHolds(db, row, lt, pr.list, pr.op))
    && InNamespaceHolds(db.fields[row.key], namespace)
    && PartitionsHold(db.fields[row.key], parts)
  }

  lemma RowIsComplete(d: Dialect, indexed: seq<string>, db: Db, lo: Options, pr: Projects, b: Binding, row: Row)
    requires TablesOk(d, indexed, db) && OptionsOk(lo, pr) && BindingOk(lo, b) && RowOf(db, b.joins, b.with, row)
    ensures RowComplete(Env(d, indexed, b.joinIndex), db, row)
    ensures pr.Projects? ==> PROJECT_LABEL in b.joinIndex
  {
    hide UnboundSortLabel, FiltersLabel, JoinOk, Clashes, ListsOk, RowOf;
    RowKeyKnown(db, b, row);
    forall l | l in b.joinIndex ensures b.joinIndex[l] in row.lts {
      var i := JoinOf(lo, b, l);
      JoinedIn(db, b, row, i);
    }
  }

  lemma JoinOf(lo: Options, b: Binding, l: string) returns (i: nat)
    requires BindingOk(lo, b) && l in b.joinIndex
    ensures i < |b.joins| && b.joins[i].lt == b.joinIndex[l]
  {
    hide UnboundSortLabel, FiltersLabel;
    JoinIndices(lo, b);
    if l in b.names {
      i :| 0 <= i < |b.names| && b.names[i] == l;
    } else {
      i := |b.names|;
    }
  }

  lemma JoinedIn(db: Db, b: Binding, row: Row, i: nat)
    requires RowOf(db, b.joins, b.with, row) && i < |b.joins|
    ensures b.joins[i].lt in row.lts
  {
    hide JoinOk;
  }

  lemma ProjectPart(env: Env, db: Db, pr: Projects, row: Row, lt: nat)
    requires NAME in env.indexed && ProjectsOk(pr)
    requires pr.Projects? ==> PROJECT_LABEL in env.joinIndex && env.joinIndex[PROJECT_LABEL] == lt
    ensures ProjectPieces(env, ProjectsOf(pr)).Ok?
    ensures AllFit(ProjectPieces(env, ProjectsOf(pr)).value)
    ensures AllTrue(env.d, db, row, ProjectPieces(env, ProjectsOf(pr)).value) <==>
            pr.NoProjects? || ProjectRowHolds(db, row, lt, pr.list, pr.op)
  {
    hide ProjectFilter, PieceTrue, ProjectRowHolds;
    if pr.Projects? {
      ProjectsMean(env, db, row, pr.list, pr.op, lt);
    }
  }

  /** A row is kept exactly when the request holds in it. */
  lemma KeptIff(d: Dialect, indexed: seq<string>, db: Db, lo: Options, pr: Projects, namespace: string,
                parts: seq<Partition>, b: Binding, q: Query, row: Row)
    requires TablesOk(d, indexed, db) && OptionsOk(lo, pr) && BindingOk(lo, b) && RowOf(db, b.joins, b.with, row)
    requires Assemble(d, indexed, lo, namespace, parts, b) == Ok(q)
    ensures |q.params| == HolesOfAll(q.wheres)
    ensures Keeps(d, db, row, q.wheres, q.params) <==>
            RowRequestHolds(Env(d, indexed, b.joinIndex), db, lo, pr, namespace, parts, row, ProjectLt(b))
  {
    hide BindingOk, RowOf, FilterPieces, ProjectPieces, PartitionPieces, NamespacePieces, GroupsRowHold,
      ProjectRowHolds, PartitionsHold, InNamespaceHolds, Keeps, ClausesOf, ParamsOf, WfDialect, AllTrue, AllFit, RowComplete;
    var env := Env(d, indexed, b.joinIndex);
    RowIsComplete(d, indexed, db, lo, pr, b, row);
    RowKeyKnown(db, b, row);
    var fs := FilterPieces(env, lo.filters).value;
    var ps := ProjectPieces(env, lo.projects).value;
    var ns := NamespacePieces(namespace);
    var qs := PartitionPieces(d, parts);
    FiltersMean(env, db, row, lo.filters);
    ProjectPart(env, db, pr, row, ProjectLt(b));
    NamespaceMeans(d, db, row, namespace);
    PartitionsMean(d, db, row, parts);
    AllTrueAppend(d, db, row, fs, ps);
    AllTrueAppend(d, db, row, fs + ps, ns);
    AllTrueAppend(d, db, row, fs + ps + ns, qs);
    KeepsAll(d, db, row, fs + ps + ns + qs);
  }

  lemma RowKeyKnown(db: Db, b: Binding, row: Row)
    requires RowOf(db, b.joins, b.with, row)
    ensures row.key in db.fields
  {
  }

  // ----- From rows to objects -----

  /** Where the label of a filter is joined. */
  lemma LabelPosition(lo: Options, b: Binding, i: nat, j: nat) returns (k: nat)
    requires BindingOk(lo, b) && LabelsNamed(lo.filters)
    requires i < |lo.filters| && j < |lo.filters[i]| && IsLabelFilter(lo.filters[i][j])
    ensures var name := lo.filters[i][j].field[2];
            && k < |b.names| && b.names[k] == name && name in b.joinIndex && b.joinIndex[name] == k + 1
            && (k < |b.with| ==> UnboundSortLabel(lo, name))
            && (k >= |b.with| ==> b.joins[k] == OwnLabels(k + 1))
  {
    hide UnboundSortLabel;
    var name := lo.filters[i][j].field[2];
    assert NamesLabel(lo.filters[i][j], name);
    assert FiltersLabel(lo.filters, name);
    k :| 0 <= k < |b.names| && b.names[k] == name;
    if k < |b.with| {
      assert b.with[k] == name;
    }
  }

  lemma FilterSelects(lo: Options, i: nat, j: nat, name: string)
    requires i < |lo.filters| && j < |lo.filters[i]| && NamesLabel(lo.filters[i][j], name)
    ensures Selective(lo.filters[i][j].op) ==> SelectsLabel(lo.filters, name)
    ensures UnboundSortLabel(lo, name) && lo.filters[i][j].op in {NotEq, NotIn} ==> Clashes(lo, name)
  {
    hide SortsBy;
  }

  /** A label bound to a WITH table is only tested for absence. */
  lemma WithBoundOps(lo: Options, pr: Projects, i: nat, j: nat)
    requires OptionsOk(lo, pr) && i < |lo.filters| && j < |lo.filters[i]| && IsLabelFilter(lo.filters[i][j])
    requires UnboundSortLabel(lo, lo.filters[i][j].field[2])
    ensures lo.filters[i][j].op in {NotExists, OtherOp}
  {
    hide SortsBy, FiltersLabel, ProjectsOf, ListsOk, Clashes, SelectsLabel;
    var f := lo.filters[i][j];
    FilterSelects(lo, i, j, f.field[2]);
    assert !Clashes(lo, f.field[2]) && !Selective(f.op) && f.op !in {NotEq, NotIn};
    assert f.op.Eq? || f.op.NotEq? || f.op.Exists? || f.op.NotExists? || f.op.In? || f.op.NotIn? || f.op.Lt? || f.op.Gt?
      || f.op.OtherOp?;
  }

  lemma OtherOpFails(d: Dialect, f: Filter)
    requires f.op == OtherOp
    ensures forall v :: !ValueHolds(d, v, f)
  {
  }

  lemma FilterSound(d: Dialect, indexed: seq<string>, db: Db, lo: Options, pr: Projects, b: Binding, row: Row, i: nat, j: nat)
    requires OptionsOk(lo, pr) && BindingOk(lo, b) && RowOf(db, b.joins, b.with, row)
    requires i < |lo.filters| && j < |lo.filters[i]|
    requires FilterRowHolds(Env(d, indexed, b.joinIndex), db, row, lo.filters[i][j])
    ensures FilterHolds(d, indexed, db.fields[row.key], LabelsOf(db.labels, row.key), lo.filters[i][j])
  {
    hide BindingOk, OptionsOk, ValueHolds, FieldHolds, UnboundSortLabel, LabelsOf;
    var f := lo.filters[i][j];
    if IsLabelFilter(f) {
      assert LabelsNamed(lo.filters) by {
        OptionsNamed(lo, pr);
      }
      var k := LabelPosition(lo, b, i, j);
      if k < |b.with| {
        WithBoundOps(lo, pr, i, j);
        if f.op == OtherOp {
          OtherOpFails(d, f);
        }
      } else {
        BindingPrefix(lo, b);
        assert JoinOk(db, row, b.joins[k], "");
        LabelSound(d, LabelsOf(db.labels, row.key), row, k + 1, f);
      }
    }
  }

  lemma OptionsNamed(lo: Options, pr: Projects)
    requires OptionsOk(lo, pr)
    ensures LabelsNamed(lo.filters)
  {
  }

  lemma FilterComplete(d: Dialect, indexed: seq<string>, db: Db, lo: Options, pr: Projects, b: Binding, row: Row, i: nat, j: nat)
    requires OptionsOk(lo, pr) && BindingOk(lo, b) && RowOf(db, b.joins, b.with, row)
    requires ShowsAll(db, b, row)
    requires i < |lo.filters| && j < |lo.filters[i]|
    requires FilterHolds(d, indexed, db.fields[row.key], LabelsOf(db.labels, row.key), lo.filters[i][j])
    ensures FilterRowHolds(Env(d, indexed, b.joinIndex), db, row, lo.filters[i][j])
  {
    hide BindingOk, OptionsOk, ValueHolds, FieldHolds, UnboundSortLabel, LabelsOf;
    var f := lo.filters[i][j];
    if IsLabelFilter(f) {
      assert LabelsNamed(lo.filters) by {
        OptionsNamed(lo, pr);
      }
      var k := LabelPosition(lo, b, i, j);
      if k < |b.with| {
        WithBoundOps(lo, pr, i, j);
        if f.op == OtherOp {
          OtherOpFails(d, f);
        }
      } else {
        BindingPrefix(lo, b);
        assert JoinOk(db, row, b.joins[k], "");
        assert row.lts[k + 1] == Shown(db, b, row.key, row.ns, k);
        LabelComplete(d, LabelsOf(db.labels, row.key), row, k + 1, f);
      }
    }
  }

  lemma RowSound(d: Dialect, indexed: seq<string>, db: Db, lo: Options, pr: Projects, namespace: string,
                 parts: seq<Partition>, b: Binding, row: Row)
    requires TablesOk(d, indexed, db) && OptionsOk(lo, pr) && BindingOk(lo, b) && RowOf(db, b.joins, b.with, row)
    requires RowRequestHolds(Env(d, indexed, b.joinIndex), db, lo, pr, namespace, parts, row, ProjectLt(b))
    ensures RequestHolds(d, indexed, db, lo, pr, namespace, parts, row.key)
  {
    hide BindingOk, OptionsOk, FilterHolds, FilterRowHolds, ProjectRowHolds, ProjectsPass, PartitionsHold, LabelsOf,
      InNamespaceHolds, WfDialect, RowOf;
    var env := Env(d, indexed, b.joinIndex);
    forall i | 0 <= i < |lo.filters|
      ensures lo.filters[i] == [] || exists j ::
                0 <= j < |lo.filters[i]|
                && FilterHolds(d, indexed, db.fields[row.key], LabelsOf(db.labels, row.key), lo.filters[i][j])
    {
      assert GroupRowHolds(env, db, row, lo.filters[i]);
      if lo.filters[i] != [] {
        var j :| 0 <= j < |lo.filters[i]| && FilterRowHolds(env, db, row, lo.filters[i][j]);
        FilterSound(d, indexed, db, lo, pr, b, row, i, j);
      }
    }
    if pr.Projects? {
      ProjectRowSound(db, lo, pr, b, row);
    }
  }

  lemma BeyondPrefix(a: seq<string>, b: seq<string>, i: nat)
    requires a <= b && i < |b| && b[i] !in a
    ensures |a| <= i
  {
  }

  lemma ShownAt(db: Db, b: Binding, row: Row, i: nat)
    requires ShowsAll(db, b, row) && i < |b.joins|
    ensures i + 1 in row.lts && row.lts[i + 1] == Shown(db, b, row.key, row.ns, i)
  {
  }

  /** The project label is joined as the filtered label it is, or after all others. */
  lemma ProjectWhere(lo: Options, pr: Projects, b: Binding) returns (i: nat)
    requires OptionsOk(lo, pr) && BindingOk(lo, b) && pr.Projects?
    ensures |b.with| <= |b.names| < |b.joins| && i < |b.joins| && ProjectLt(b) == i + 1
    ensures if FiltersLabel(lo.filters, PROJECT_LABEL)
            then |b.with| <= i < |b.names| && b.names[i] == PROJECT_LABEL && b.joins[i] == OwnLabels(i + 1)
            else i == |b.names|
  {
    hide UnboundSortLabel, FiltersLabel, Clashes, ListsOk;
    JoinIndices(lo, b);
    if FiltersLabel(lo.filters, PROJECT_LABEL) {
      i :| 0 <= i < |b.names| && b.names[i] == PROJECT_LABEL;
      BeyondPrefix(b.with, b.names, i);
    } else {
      i := |b.names|;
    }
  }

  lemma ProjectRowSound(db: Db, lo: Options, pr: Projects, b: Binding, row: Row)
    requires WfDb(db) && OptionsOk(lo, pr) && BindingOk(lo, b) && RowOf(db, b.joins, b.with, row) && pr.Projects?
    requires ProjectRowHolds(db, row, ProjectLt(b), pr.list, pr.op)
    ensures ProjectsPass(db, lo, row.key, pr.list, pr.op)
  {
    hide BindingOk, OptionsOk, ProjectRowHolds, ProjectsHold, OwnProjectsHold, LabelsOf, FiltersLabel, ProjectLt, WfDb,
      LabelChoice, NamespaceChoice;
    NamespaceJoin(db, lo, pr, b, row);
    var i := ProjectWhere(lo, pr, b);
    if FiltersLabel(lo.filters, PROJECT_LABEL) {
      assert JoinOk(db, row, b.joins[i], "");
      OwnProjectSound(db, row, i + 1, pr.list, pr.op);
    } else {
      ProjectSound(db, row, i + 1, pr.list, pr.op);
    }
  }

  lemma ProjectRowComplete(db: Db, lo: Options, pr: Projects, b: Binding, row: Row)
    requires WfDb(db) && OptionsOk(lo, pr) && BindingOk(lo, b) && RowOf(db, b.joins, b.with, row) && pr.Projects?
    requires ShowsAll(db, b, row) && ProjectsPass(db, lo, row.key, pr.list, pr.op)
    ensures ProjectRowHolds(db, row, ProjectLt(b), pr.list, pr.op)
  {
    hide BindingOk, OptionsOk, ProjectRowHolds, ProjectsHold, OwnProjectsHold, LabelsOf, FiltersLabel, ProjectLt, WfDb,
      LabelChoice, NamespaceChoice, RowOf;
    NamespaceJoin(db, lo, pr, b, row);
    var i := ProjectWhere(lo, pr, b);
    ShownAt(db, b, row, i);
    if FiltersLabel(lo.filters, PROJECT_LABEL) {
      OwnProjectComplete(db, row, i + 1, pr.list, pr.op);
    } else {
      ProjectComplete(db, row, i + 1, pr.list, pr.op);
    }
  }

  lemma NamespaceJoin(db: Db, lo: Options, pr: Projects, b: Binding, row: Row)
    requires OptionsOk(lo, pr) && BindingOk(lo, b) && RowOf(db, b.joins, b.with, row) && pr.Projects?
    ensures var lt := |b.names| + 1;
            && |b.names| < |b.joins| && lt in row.lts && NamespaceChoice(db, row.key, row.ns)
            && if row.ns.None? then row.lts[lt] == None
               else LabelChoice(LabelsOf(db.nsLabels, row.ns.value), row.lts[lt])
  {
    hide NamespaceChoice, LabelChoice, LabelsOf, UnboundSortLabel, FiltersLabel, Clashes, ListsOk;
    JoinIndices(lo, b);
    assert JoinOk(db, row, b.joins[|b.names|], "");
  }

  lemma FullRowComplete(d: Dialect, indexed: seq<string>, db: Db, lo: Options, pr: Projects, namespace: string,
                        parts: seq<Partition>, b: Binding, row: Row)
    requires TablesOk(d, indexed, db) && OptionsOk(lo, pr) && BindingOk(lo, b) && RowOf(db, b.joins, b.with, row)
    requires ShowsAll(db, b, row)
    requires RequestHolds(d, indexed, db, lo, pr, namespace, parts, row.key)
    ensures RowRequestHolds(Env(d, indexed, b.joinIndex), db, lo, pr, namespace, parts, row, ProjectLt(b))
  {
    hide BindingOk, OptionsOk, FilterHolds, FilterRowHolds, ProjectRowHolds, ProjectsPass, PartitionsHold, LabelsOf,
      InNamespaceHolds, WfDialect, RowOf;
    var env := Env(d, indexed, b.joinIndex);
    forall i | 0 <= i < |lo.filters| ensures GroupRowHolds(env, db, row, lo.filters[i]) {
      if lo.filters[i] != [] {
        var j :| 0 <= j < |lo.filters[i]|
          && FilterHolds(d, indexed, db.fields[row.key], LabelsOf(db.labels, row.key), lo.filters[i][j]);
        FilterComplete(d, indexed, db, lo, pr, b, row, i, j);
      }
    }
    if pr.Projects? {
      ProjectRowComplete(db, lo, pr, b, row);
    }
  }

  lemma QueryParts(d: Dialect, indexed: seq<string>, db: Db, lo: Options, pr: Projects, namespace: string,
                   parts: seq<Partition>, b: Binding, q: Query)
    requires Assemble(d, indexed, lo, namespace, parts, b) == Ok(q)
    ensures q.distinct == UsesLabels(lo) && q.joins == b.joins && q.with == b.with
  {
  }

  lemma {:induction false} WithCountPrefix(joins: seq<Join>, n: nat)
    requires n <= |joins|
    requires forall i :: 0 <= i < |joins| ==> (joins[i].WithLabel? <==> i < n)
    ensures WithCount(joins) == n
  {
    if joins != [] {
      WithCountPrefix(joins[1..], if n == 0 then 0 else n - 1);
    }
  }

  lemma BindingWithCount(lo: Options, b: Binding)
    requires BindingOk(lo, b)
    ensures |b.with| == WithCount(b.joins)
  {
    hide UnboundSortLabel, FiltersLabel;
    JoinIndices(lo, b);
    WithCountPrefix(b.joins, |b.with|);
  }

  /** Every parameter has a hole and every hole a parameter, and the query selects an object if and
      only if the object satisfies the request. */
  lemma QuerySelects(d: Dialect, indexed: seq<string>, db: Db, lo: Options, pr: Projects, namespace: string,
                     parts: seq<Partition>, b: Binding, q: Query, key: string)
    requires TablesOk(d, indexed, db) && OptionsOk(lo, pr) && BindingOk(lo, b)
    requires Assemble(d, indexed, lo, namespace, parts, b) == Ok(q)
    requires key in db.fields && NamespaceKnown(indexed, pr, namespace, parts)
    ensures Complete(q)
    ensures Selects(d, db, q, key) <==> RequestHolds(d, indexed, db, lo, pr, namespace, parts, key)
  {
    hide TablesOk, OptionsOk, BindingOk, Assemble, RowOf, Keeps, RequestHolds, RowRequestHolds;
    QueryParts(d, indexed, db, lo, pr, namespace, parts, b, q);
    BindingWithCount(lo, b);
    var full := FullRow(db, lo, b, key);
    KeptIff(d, indexed, db, lo, pr, namespace, parts, b, q, full);
    if RequestHolds(d, indexed, db, lo, pr, namespace, parts, key) {
      FullRowComplete(d, indexed, db, lo, pr, namespace, parts, b, full);
    }
    if Selects(d, db, q, key) {
      var row: Row :| row.key == key && RowOf(db, q.joins, q.with, row) && Keeps(d, db, row, q.wheres, q.params);
      KeptIff(d, indexed, db, lo, pr, namespace, parts, b, q, row);
      RowSound(d, indexed, db, lo, pr, namespace, parts, b, row);
    }
  }

  // ----- Once -----

  lemma NextIsNew(a: seq<string>, b: seq<string>)
    requires a < b && Distinct(b)
    ensures b[|a|] !in a
  {
  }

  lemma NoLabelFiltered(lo: Options, name: string)
    requires !UsesLabels(lo)
    ensures !FiltersLabel(lo.filters, name)
  {
  }

  lemma OnlyWithJoins(lo: Options, b: Binding)
    requires BindingOk(lo, b) && !UsesLabels(lo)
    ensures forall i :: 0 <= i < |b.joins| ==> b.joins[i] == WithLabel(i + 1) && i < |b.with|
  {
    hide UnboundSortLabel, FiltersLabel;
    JoinIndices(lo, b);
    if b.with != b.names {
      NextIsNew(b.with, b.names);
      NoLabelFiltered(lo, b.names[|b.with|]);
    }
  }

  /** Without label filters only WITH tables are joined, and each shows at most one row per object. */
  lemma SameRow(db: Db, lo: Options, b: Binding, r1: Row, r2: Row)
    requires BindingOk(lo, b) && !UsesLabels(lo) && r1.key == r2.key
    requires RowOf(db, b.joins, b.with, r1) && RowOf(db, b.joins, b.with, r2)
    ensures r1 == r2
  {
    hide BindingOk, UsesLabels, LabelsOf;
    OnlyWithJoins(lo, b);
    forall lt | lt in r1.lts ensures lt in r2.lts && r1.lts[lt] == r2.lts[lt] {
      var i :| 0 <= i < |b.joins| && b.joins[i].lt == lt;
      assert JoinOk(db, r1, b.joins[i], b.with[i]) && JoinOk(db, r2, b.joins[i], b.with[i]);
    }
    assert r1.lts.Keys == r2.lts.Keys;
  }

  /** Each object comes at most once. */
  lemma QuerySelectsOnce(d: Dialect, indexed: seq<string>, db: Db, lo: Options, pr: Projects, namespace: string,
                         parts: seq<Partition>, b: Binding, q: Query, key: string)
    requires BindingOk(lo, b) && Complete(q)
    requires Assemble(d, indexed, lo, namespace, parts, b) == Ok(q)
    ensures AtMostOnce(d, db, q, key)
  {
    hide BindingOk, RowOf, Keeps, Assemble, UsesLabels;
    QueryParts(d, indexed, db, lo, pr, namespace, parts, b, q);
    if !q.distinct {
      forall r1: Row, r2: Row | r1.key == key && r2.key == key
          && RowOf(db, q.joins, q.with, r1) && RowOf(db, q.joins, q.with, r2)
        ensures r1 == r2
      {
        SameRow(db, lo, b, r1, r2);
      }
    }
  }

  // ----- Unions of partitions -----

  /** The object lies in one of the partitions. */
  ghost predicate Covered(columns: Columns, parts: seq<Partition>) {
    exists i :: 0 <= i < |parts| && InPartition(columns, parts[i])
  }

  /** An object's fields row has a name and a namespace. */
  predicate Real(columns: Columns) { NAME in columns && NAMESPACE in columns }

  ghost predicate Mixed(parts: seq<Partition>) {
    (exists i :: 0 <= i < |parts| && Restricted(parts[i])) && (exists i :: 0 <= i < |parts| && !Restricted(parts[i]))
  }

  lemma {:induction false} LongerThanAll(ss: set<string>) returns (n: nat)
    ensures forall s :: s in ss ==> |s| <= n
  {
    if ss == {} {
      n := 0;
    } else {
      var s :| s in ss;
      var m := LongerThanAll(ss - {s});
      n := if |s| > m then |s| else m;
      forall t | t in ss ensures |t| <= n {
        if t != s {
          assert t in ss - {s};
        }
      }
    }
  }

  lemma {:induction false} LongName(parts: seq<Partition>) returns (n: nat)
    ensures forall i :: 0 <= i < |parts| ==> |parts[i].namespace| <= n
    ensures forall i, s :: 0 <= i < |parts| && s in parts[i].names ==> |s| <= n
  {
    if parts == [] {
      n := 0;
    } else {
      var m := LongName(parts[1..]);
      var k := LongerThanAll(parts[0].names);
      n := m + k + |parts[0].namespace|;
      forall i | 0 <= i < |parts|
        ensures |parts[i].namespace| <= n && forall s :: s in parts[i].names ==> |s| <= n
      {
        if i > 0 {
          assert parts[i] == parts[1..][i - 1];
        }
      }
    }
  }

  /** The clauses keep exactly the union of the partitions, for every object, if and only if
      restricted and unrestricted partitions are not mixed. */
  lemma UnionIff(parts: seq<Partition>)
    ensures (forall columns :: Real(columns) ==> (PartitionsHold(columns, parts) <==> Covered(columns, parts)))
            <==> !Mixed(parts)
  {
    hide Restricted, InPartition;
    if Mixed(parts) {
      var n := LongName(parts);
      var s := seq(n + 1, _ => 'a');
      var outside := map[NAME := s, NAMESPACE := s];
      forall i | 0 <= i < |parts| ensures Restricted(parts[i]) ==> !InPartition(outside, parts[i]) {
        OutsideRestricted(parts[i], s, outside);
      }
      var u :| 0 <= u < |parts| && !Restricted(parts[u]);
      UnrestrictedCovers(outside, parts[u]);
      assert Real(outside) && Covered(outside, parts) && !PartitionsHold(outside, parts);
    } else {
      forall columns ensures PartitionsHold(columns, parts) <==> Covered(columns, parts) {
        if NoneRestricted(parts) && parts != [] {
          UnrestrictedCovers(columns, parts[0]);
          assert InPartition(columns, parts[0]);
        }
      }
    }
  }

  lemma OutsideRestricted(p: Partition, s: string, columns: Columns)
    requires columns == map[NAME := s, NAMESPACE := s]
    requires |s| > |p.namespace| && forall t :: t in p.names ==> |t| < |s|
    ensures Restricted(p) ==> !InPartition(columns, p)
  {
  }

  lemma UnrestrictedCovers(columns: Columns, p: Partition)
    ensures !Restricted(p) ==> InPartition(columns, p)
  {
  }
}
