/**
 The in-memory projects-or-namespaces filter (pkg/stores/partition/listprocessor/processor.go) and
 when it keeps the same objects as the SQL clauses.
 */
module ProjectsInMemory {
  import opened Prelude
  import opened Sql
  import opened ListOptions
  import opened QueryResult

  datatype Item = Item(key: string, namespace: string)

  /** Namespaces by name, with their labels. */
  type Cache = map<string, Labels>

  /** A missing project label reads as the empty string. */
  function ProjectOf(labels: Labels): string {
    if PROJECT_LABEL in labels then labels[PROJECT_LABEL] else ""
  }

  predicate Keeps(cache: Cache, filter: set<string>, op: Op, o: Item) {
    filter == {} ||
    (o.namespace != "" && o.namespace in cache &&
     var matches := ProjectOf(cache[o.namespace]) in filter || o.namespace in filter;
     (op == In && matches) || (op == NotIn && !matches))
  }

  function Kept(objects: seq<Item>, keep: Item -> bool): seq<Item> {
    if objects == [] then []
    else
      var o := objects[|objects| - 1];
      Kept(objects[..|objects| - 1], keep) + if keep(o) then [o] else []
  }

  /** The object lies in a known namespace whose name or project is listed or, for NotIn, neither is. */
  ghost predicate Belongs(cache: Cache, filter: set<string>, op: Op, o: Item) {
    && o.namespace != "" && o.namespace in cache
    && var labels := cache[o.namespace];
       var project := if "field.cattle.io/projectId" in labels then labels["field.cattle.io/projectId"] else "";
       match op
       case In => o.namespace in filter || project in filter
       case NotIn => o.namespace !in filter && project !in filter
       case _ => false
  }

  /** Without a filter all objects, and otherwise those that belong, in their order. */
  ghost predicate Filtered(objects: seq<Item>, filter: set<string>, op: Op, cache: Cache, result: seq<Item>) {
    if filter == {} then result == objects
    else
      exists places: seq<nat> ::
        && PickedAt(objects, places, result)
        && forall i: nat :: i in places <==> i < |objects| && Belongs(cache, filter, op, objects[i])
  }

  lemma {:induction false} KeptAt(objects: seq<Item>, keep: Item -> bool) returns (places: seq<nat>)
    ensures PickedAt(objects, places, Kept(objects, keep))
    ensures forall i: nat :: i in places <==> i < |objects| && keep(objects[i])
  {
    places := [];
    if objects == [] {
      assert PickedAt(objects, places, []);
    } else {
      hide PickedAt;
      var n := |objects| - 1;
      places := KeptAt(objects[..n], keep);
      PickNext(objects, places, Kept(objects[..n], keep));
      if keep(objects[n]) {
        places := places + [n];
      }
    }
  }

  /** The specification keeps exactly those. */
  lemma KeptFiltered(objects: seq<Item>, filter: set<string>, op: Op, cache: Cache, keep: Item -> bool)
    requires forall o :: keep(o) == Keeps(cache, filter, op, o)
    ensures Filtered(objects, filter, op, cache, Kept(objects, keep))
  {
    if filter == {} {
      AllKept(objects, keep);
    } else {
      var places := KeptAt(objects, keep);
      assert forall o :: keep(o) <==> Belongs(cache, filter, op, o);
    }
  }

  method FilterByProjectsAndNamespaces(objects: seq<Item>, filter: set<string>, op: Op, cache: Cache)
    returns (result: seq<Item>)
    ensures result == Kept(objects, o => Keeps(cache, filter, op, o))
    ensures Filtered(objects, filter, op, cache, result)
  {
    hide Filtered;
    ghost var keep := o => Keeps(cache, filter, op, o);
    KeptFiltered(objects, filter, op, cache, keep);
    if filter == {} {
      AllKept(objects, keep);
      return objects;
    }
    result := [];
    for i := 0 to |objects|
      invariant result == Kept(objects[..i], keep)
    {
      assert objects[..i + 1][..i] == objects[..i];
      var o := objects[i];
      if o.namespace == "" {
        continue;
      }
      if o.namespace !in cache {
        continue;
      }
      var matchesProject := ProjectOf(cache[o.namespace]) in filter;
      var matchesNamespace := o.namespace in filter;
      var matches := matchesProject || matchesNamespace;
      if op == In && matches {
        result := result + [o];
      }
      if op == NotIn && !matches {
        result := result + [o];
      }
    }
    assert objects[..|objects|] == objects;
  }

  lemma {:induction false} AllKept(objects: seq<Item>, keep: Item -> bool)
    requires forall o :: keep(o)
    ensures Kept(objects, keep) == objects
  {
    if objects != [] {
      AllKept(objects[..|objects| - 1], keep);
    }
  }

  lemma {:induction false} KeptSame(objects: seq<Item>, keep: Item -> bool, keep': Item -> bool)
    requires forall o :: o in objects ==> keep(o) == keep'(o)
    ensures Kept(objects, keep) == Kept(objects, keep')
  {
    if objects != [] {
      KeptSame(objects[..|objects| - 1], keep, keep');
    }
  }

  // ----- Agreement with the SQL clauses -----

  /** The cache holds the rows of the namespace tables; no namespace has the empty name. */
  ghost predicate CacheOf(db: Db, cache: Cache) {
    && WfDb(db)
    && "" !in cache
    && (forall k :: k in db.nsFields ==>
          db.nsFields[k][NAME] in cache && cache[db.nsFields[k][NAME]] == LabelsOf(db.nsLabels, k))
    && (forall n :: n in cache ==> exists k :: k in db.nsFields && db.nsFields[k][NAME] == n)
  }

  ghost predicate ItemOf(db: Db, o: Item) {
    o.key in db.fields && ColumnOf(db.fields[o.key], NAMESPACE) == Some(o.namespace)
  }

  /** The object's namespace exists, is not listed, has no project, and the list has an empty entry. */
  predicate EmptyEntryMatches(cache: Cache, list: seq<string>, o: Item) {
    "" in list && o.namespace in cache && PROJECT_LABEL !in cache[o.namespace] && o.namespace !in list
  }

  function Entries(list: seq<string>): set<string> { set s | s in list }

  /** Both filters agree on an object exactly when it is not matched by an empty entry. */
  lemma AgreeIff(db: Db, cache: Cache, list: seq<string>, op: Op, o: Item)
    requires CacheOf(db, cache) && ItemOf(db, o) && op in {In, NotIn} && list != []
    ensures (Keeps(cache, Entries(list), op, o) <==> ProjectsHold(db, o.key, list, op))
            <==> !EmptyEntryMatches(cache, list, o)
  {
    assert list[0] in Entries(list);
    if o.namespace in cache {
      var k :| k in db.nsFields && db.nsFields[k][NAME] == o.namespace;
      assert NamespaceRow(db, o.key, k);
      assert forall j :: NamespaceRow(db, o.key, j) ==> j == k;
    } else {
      assert forall j :: !NamespaceRow(db, o.key, j);
    }
  }

  /** Without an empty entry both keep the same objects, in the same order, whatever the tables. */
  lemma SameObjects(db: Db, cache: Cache, list: seq<string>, op: Op, objects: seq<Item>, sql: Item -> bool)
    requires CacheOf(db, cache) && op in {In, NotIn} && list != [] && "" !in list
    requires forall o :: o in objects ==> ItemOf(db, o) && (sql(o) <==> ProjectsHold(db, o.key, list, op))
    ensures Kept(objects, o => Keeps(cache, Entries(list), op, o)) == Kept(objects, sql)
  {
    hide CacheOf, Keeps, ProjectsHold, ItemOf;
    var memory := o => Keeps(cache, Entries(list), op, o);
    forall o | o in objects ensures memory(o) == sql(o) {
      AgreeIff(db, cache, list, op, o);
    }
    KeptSame(objects, memory, sql);
  }

  /** With an empty entry, a namespace without a project is enough to tell them apart. */
  lemma EmptyEntryDisagrees(list: seq<string>, op: Op)
    requires op in {In, NotIn} && "" in list
    ensures exists db, cache, o ::
              && CacheOf(db, cache) && ItemOf(db, o)
              && (Keeps(cache, Entries(list), op, o) <==> !ProjectsHold(db, o.key, list, op))
  {
    var n := LongerThanAll(Entries(list));
    var ns := seq(n + 1, _ => 'a');
    var db := Db(map["o" := map[NAMESPACE := ns]], map[], map["n" := map[NAME := ns]], map[]);
    var cache: Cache := map[ns := map[]];
    var o := Item("o", ns);
    assert ns !in Entries(list);
    assert "n" in db.nsFields;
    assert CacheOf(db, cache);
    AgreeIff(db, cache, list, op, o);
  }
}
