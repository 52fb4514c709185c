/** A list request from rules and access lists to selected objects. */
module ListRequest {
  import opened Prelude
  import opened AccessControl
  import opened ListOptions
  import opened Sql
  import opened QueryBuilder
  import opened QueryMeaning
  import opened QueryResult
  import opened Partitioner
  import opened SchemaAccess

  /** Only the kinds that have a namespace column are asked for namespaces: those that are namespaced,
      and those whose objects are filtered by projects. */
  predicate ColumnFor(indexed: seq<string>, sc: Scope, pr: Projects) {
    NAMESPACE in indexed || (!sc.namespaced && pr.NoProjects?)
  }

  lemma AggregateKnown(indexed: seq<string>, sc: Scope, pr: Projects, parts: seq<Partition>, passthrough: bool)
    requires IsAggregate(sc, "list", "", parts, passthrough) && ColumnFor(indexed, sc, pr)
    ensures NamespaceKnown(indexed, pr, "", Chosen(parts, passthrough))
  {
    hide Describes;
    if NAMESPACE !in indexed {
      var res :| AggregateOf(sc, "list", "", res, parts, passthrough);
      forall p | p in Chosen(parts, passthrough) ensures !PartitionNamesOne(p) {
        if !passthrough {
          var k :| k in res && p == PartitionOf(sc, k, res[k]);
        }
      }
    }
  }

  /** The query built for a list over all namespaces, with the partitions derived from the user's access,
      selects exactly the objects that pass the filters and that the user may see, each once. */
  lemma ListExact(d: Dialect, indexed: seq<string>, db: Db, lo: Options, pr: Projects, sc: Scope,
                  parts: seq<Partition>, passthrough: bool, b: Binding, q: Query, key: string)
    requires TablesOk(d, indexed, db) && OptionsOk(lo, pr) && BindingOk(lo, b) && key in db.fields
    requires Wf(sc) && IsAggregate(sc, "list", "", parts, passthrough) && ColumnFor(indexed, sc, pr)
    requires Assemble(d, indexed, lo, "", Chosen(parts, passthrough), b) == Ok(q)
    ensures Complete(q) && NAME in db.fields[key] && AtMostOnce(d, db, q, key)
    ensures Selects(d, db, q, key) <==>
            var columns := db.fields[key];
            && GroupsHold(d, indexed, columns, LabelsOf(db.labels, key), lo.filters)
            && (pr.NoProjects? || ProjectsPass(db, lo, key, pr.list, pr.op))
            && Allowed(sc.acc, "list", NamespaceOf(columns), columns[NAME])
  {
    hide OptionsOk, BindingOk, Assemble, Selects, Wf, IsAggregate, Chosen, Allowed, GroupsHold, ProjectsPass, PartitionsHold,
      AtMostOnce, WfDb, WfDialect, NamespaceKnown, ColumnFor;
    AggregateKnown(indexed, sc, pr, parts, passthrough);
    QuerySelects(d, indexed, db, lo, pr, "", Chosen(parts, passthrough), b, q, key);
    QuerySelectsOnce(d, indexed, db, lo, pr, "", Chosen(parts, passthrough), b, q, key);
    AllNamespacesExact(sc, "list", parts, passthrough, db.fields[key]);
  }

  /** The whole way from RBAC rules to rows: the query selects exactly the objects that pass the filters and
      that the rules of the user's bindings let be seen. */
  lemma ListExactByRules(d: Dialect, indexed: seq<string>, db: Db, lo: Options, pr: Projects, u: UserGrants, kind: Kind,
                         acc: AccessByVerb, parts: seq<Partition>, passthrough: bool, b: Binding, q: Query, key: string)
    requires TablesOk(d, indexed, db) && OptionsOk(lo, pr) && BindingOk(lo, b) && key in db.fields
    requires AccessFor(UserPairs(u), kind, acc) && Wf(Scope(acc, kind.namespaced))
    requires IsAggregate(Scope(acc, kind.namespaced), "list", "", parts, passthrough)
    requires ColumnFor(indexed, Scope(acc, kind.namespaced), pr)
    requires Assemble(d, indexed, lo, "", Chosen(parts, passthrough), b) == Ok(q)
    ensures Complete(q) && NAME in db.fields[key] && AtMostOnce(d, db, q, key)
    ensures Selects(d, db, q, key) <==>
            var columns := db.fields[key];
            && GroupsHold(d, indexed, columns, LabelsOf(db.labels, key), lo.filters)
            && (pr.NoProjects? || ProjectsPass(db, lo, key, pr.list, pr.op))
            && MaySee(u, kind, NamespaceOf(columns), columns[NAME])
  {
    hide OptionsOk, BindingOk, Assemble, Selects, Wf, IsAggregate, Chosen, Allowed, GroupsHold, ProjectsPass, AtMostOnce,
      WfDb, WfDialect, ColumnFor, AccessFor, UserPairs, MaySee;
    ListExact(d, indexed, db, lo, pr, Scope(acc, kind.namespaced), parts, passthrough, b, q, key);
    AllowedIff(u, kind, acc, NamespaceOf(db.fields[key]), db.fields[key][NAME]);
  }
}
