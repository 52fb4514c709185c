/**
 The event log of the SQL cache (the `_events` table of
 pkg/sqlcache/informer/listoption_indexer.go) and its garbage collection.
 */
module EventLog {
  import opened Prelude

  datatype Kind = Added | Modified | Deleted

  datatype Meta = Meta(name: string, namespace: string, labels: map<string, string>)

  /** An event with the stored object it replaces, if any. */
  datatype Event = Event(kind: Kind, rv: string, obj: Meta, oldObj: Option<Meta>)

  /** What a consumer receives. */
  datatype Notice = Notice(kind: Kind, rv: string, obj: Meta)

  datatype Row = Row(rowid: nat, event: Event)

  /** INSERT takes the rowid after the largest one. */
  function Insert(table: seq<Row>, e: Event): seq<Row> {
    table + [Row(if table == [] then 1 else table[|table| - 1].rowid + 1, e)]
  }

  function InsertAll(table: seq<Row>, es: seq<Event>): seq<Row> {
    if es == [] then table else Insert(InsertAll(table, es[..|es| - 1]), es[|es| - 1])
  }

  /** SELECT of the rowid of a revision. */
  function FindRow(table: seq<Row>, rv: string): Option<nat> {
    if table == [] then None
    else if table[0].event.rv == rv then Some(table[0].rowid)
    else FindRow(table[1..], rv)
  }

  /** The rows whose rowid is at least `rowid`. */
  function RowsFrom(table: seq<Row>, rowid: nat): seq<Row> {
    if table == [] then []
    else if table[0].rowid >= rowid then [table[0]] + RowsFrom(table[1..], rowid)
    else RowsFrom(table[1..], rowid)
  }

  /** SELECT of the events after a row. */
  function RowsAfter(table: seq<Row>, rowid: nat): seq<Row> { RowsFrom(table, rowid + 1) }

  function MinRowid(rows: seq<Row>): nat
    requires rows != []
  {
    if |rows| == 1 then rows[0].rowid
    else
      var m := MinRowid(rows[1..]);
      if rows[0].rowid < m then rows[0].rowid else m
  }

  /** DELETE of every row below the smallest of the last `keep` rowids. */
  function Collect(table: seq<Row>, keep: nat): seq<Row> {
    var last := table[if keep < |table| then |table| - keep else 0..];
    if last == [] then table else RowsFrom(table, MinRowid(last))
  }

  /** The rows of events a to b of the history when no rowid was ever reused. */
  function Rows(history: seq<Event>, a: nat, b: nat): (rows: seq<Row>)
    requires a <= b <= |history|
    ensures |rows| == b - a
  {
    seq(b - a, i requires 0 <= i < b - a => Row(a + i + 1, history[a + i]))
  }

  lemma RowsCons(history: seq<Event>, a: nat, b: nat)
    requires a < b <= |history|
    ensures Rows(history, a, b)[1..] == Rows(history, a + 1, b)
    ensures Rows(history, a, b) == [Row(a + 1, history[a])] + Rows(history, a + 1, b)
  {
  }

  lemma RowsDrop(history: seq<Event>, a: nat, k: nat, b: nat)
    requires a <= k <= b <= |history|
    ensures Rows(history, a, b)[k - a..] == Rows(history, k, b)
  {
  }

  lemma RowsGrow(history: seq<Event>, more: seq<Event>, a: nat, b: nat)
    requires a <= b <= |history| && history <= more
    ensures Rows(more, a, b) == Rows(history, a, b)
  {
  }

  lemma InsertRows(history: seq<Event>, a: nat, b: nat)
    requires a <= b < |history| && (a == b ==> b == 0)
    ensures Insert(Rows(history, a, b), history[b]) == Rows(history, a, b + 1)
  {
  }

  lemma {:induction false} InsertAllRows(history: seq<Event>, a: nat, b: nat, c: nat)
    requires a <= b <= c <= |history| && (a == b ==> b == 0)
    ensures InsertAll(Rows(history, a, b), history[b..c]) == Rows(history, a, c)
    decreases c
  {
    hide Rows;
    if b < c {
      assert history[b..c][..c - b - 1] == history[b..c - 1];
      InsertAllRows(history, a, b, c - 1);
      InsertRows(history, a, c - 1);
    }
  }

  lemma InsertOne(table: seq<Row>, history: seq<Event>)
    requires history != []
    ensures InsertAll(table, history[|history| - 1..]) == Insert(table, history[|history| - 1])
  {
    var es := history[|history| - 1..];
    assert es[..0] == [] && es == [history[|history| - 1]];
    assert InsertAll(table, es[..0]) == table;
  }

  lemma {:induction false} RowsFromRows(history: seq<Event>, a: nat, b: nat, r: nat)
    requires a <= b <= |history| && r <= b + 1
    ensures var k := if r <= a then a else r - 1;
            RowsFrom(Rows(history, a, b), r) == Rows(history, k, b)
    decreases b - a
  {
    if a < b {
      RowsFromRows(history, a + 1, b, r);
      RowsCons(history, a, b);
    }
  }

  /** Revisions are never empty and never repeat. */
  ghost predicate DistinctRvs(history: seq<Event>) {
    && (forall i :: 0 <= i < |history| ==> history[i].rv != "")
    && (forall i, j :: 0 <= i < j < |history| ==> history[i].rv != history[j].rv)
  }

  lemma {:induction false} FindRowRows(history: seq<Event>, a: nat, b: nat, rv: string)
    requires a <= b <= |history| && DistinctRvs(history)
    ensures forall t :: a <= t < b && history[t].rv == rv ==> FindRow(Rows(history, a, b), rv) == Some(t + 1)
    ensures (forall t :: a <= t < b ==> history[t].rv != rv) ==> FindRow(Rows(history, a, b), rv) == None
    decreases b - a
  {
    if a < b {
      FindRowRows(history, a + 1, b, rv);
      RowsCons(history, a, b);
    }
  }

  /** The log still has a row for this revision. */
  ghost predicate Holds(table: seq<Row>, rv: string) {
    exists i :: 0 <= i < |table| && table[i].event.rv == rv
  }

  lemma HoldsRows(history: seq<Event>, a: nat, b: nat, rv: string)
    requires a <= b <= |history|
    ensures Holds(Rows(history, a, b), rv) <==> exists t :: a <= t < b && history[t].rv == rv
  {
    var table := Rows(history, a, b);
    if t :| a <= t < b && history[t].rv == rv {
      assert table[t - a].event.rv == rv;
    }
  }

  lemma {:induction false} MinRowidRows(history: seq<Event>, a: nat, b: nat)
    requires a < b <= |history|
    ensures Rows(history, a, b) != [] && MinRowid(Rows(history, a, b)) == a + 1
    decreases b - a
  {
    if a + 1 < b {
      MinRowidRows(history, a + 1, b);
      RowsCons(history, a, b);
    }
  }

  /** Collection keeps exactly the last `keep` rows: it only shortens the log at its old end, and
      never to nothing. */
  lemma CollectRows(history: seq<Event>, a: nat, b: nat, keep: nat)
    requires a <= b <= |history| && keep > 0
    ensures var k := if keep < b - a then b - keep else a;
            Collect(Rows(history, a, b), keep) == Rows(history, k, b)
  {
    hide Rows, MinRowid, RowsFrom;
    var k := if keep < b - a then b - keep else a;
    if a < b {
      RowsDrop(history, a, k, b);
      MinRowidRows(history, k, b);
      RowsFromRows(history, a, b, k + 1);
    }
  }
}
