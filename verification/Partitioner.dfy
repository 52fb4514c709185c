/**
 Partitions derived from access lists (pkg/accesscontrol/access_set.go,
 pkg/stores/sqlpartition/partitioner.go, pkg/schema/factory.go), and which objects their clauses let
 through.
 */
module Partitioner {
  import opened Prelude
  import opened AccessControl
  import opened ListOptions
  import opened Sql
  import opened QueryBuilder
  import opened QueryMeaning

  type AccessByVerb = map<string, seq<Access>>

  datatype Resources = Resources(all: bool, names: set<string>)

  const PASSTHROUGH := Partition(true, "", false, {})

  function Of(acc: AccessByVerb, verb: string): seq<Access> { if verb in acc then acc[verb] else [] }

  // ----- Access lists of a schema -----

  /** Namespaced access to a cluster-scoped kind is dropped. */
  function Trimmed(list: seq<Access>): seq<Access> {
    if list == [] then []
    else
      var a := list[|list| - 1];
      Trimmed(list[..|list| - 1]) + if a.namespace == ALL then [a] else []
  }

  method Trim(list: seq<Access>) returns (result: seq<Access>)
    ensures result == Trimmed(list)
    ensures forall a :: a in result <==> a in list && a.namespace == ALL
  {
    result := [];
    for i := 0 to |list|
      invariant result == Trimmed(list[..i])
      invariant forall a :: a in result <==> a in list[..i] && a.namespace == ALL
    {
      assert list[..i + 1][..i] == list[..i];
      if list[i].namespace == ALL {
        result := result + [list[i]];
      }
    }
    assert list[..|list|] == list;
  }

  // ----- What is granted -----

  /** The object is granted by an access for the verb or, when listing, by a get access that names it. */
  ghost predicate Allowed(acc: AccessByVerb, verb: string, ns: string, name: string) {
    || (exists a :: a in Of(acc, verb) && a.Grants(ns, name))
    || (verb == "list" && exists a :: a in Of(acc, "get") && Explicit(a.name) && a.Grants(ns, name))
  }

  function At(res: map<string, Resources>, k: string): Resources { if k in res then res[k] else Resources(false, {}) }

  /** The name is granted in the namespace by one of the lists. */
  predicate Names(listed: seq<Access>, named: seq<Access>, k: string, n: string) {
    Access(k, n) in listed || (Explicit(n) && Access(k, n) in named)
  }

  /** The entry of a namespace says whether everything is granted there, and which names are. */
  ghost predicate DescribesAt(res: map<string, Resources>, listed: seq<Access>, named: seq<Access>, k: string) {
    && (k in res <==> exists n :: Names(listed, named, k, n))
    && (At(res, k).all <==> Access(k, ALL) in listed)
    && (forall n :: n in At(res, k).names <==> n != ALL && Names(listed, named, k, n))
  }

  ghost predicate Describes(res: map<string, Resources>, listed: seq<Access>, named: seq<Access>) {
    forall k :: DescribesAt(res, listed, named, k)
  }

  function WithAccess(res: map<string, Resources>, a: Access): map<string, Resources> {
    var r := At(res, a.namespace);
    res[a.namespace := if a.name == ALL then r.(all := true) else r.(names := r.names + {a.name})]
  }

  lemma ListedNext(res: map<string, Resources>, listed: seq<Access>, i: nat, k: string)
    requires i < |listed| && DescribesAt(res, listed[..i], [], k)
    ensures DescribesAt(WithAccess(res, listed[i]), listed[..i + 1], [], k)
  {
    var a := listed[i];
    assert listed[..i + 1] == listed[..i] + [a];
    forall n ensures Names(listed[..i + 1], [], k, n) <==> Names(listed[..i], [], k, n) || a == Access(k, n) {
    }
    hide Names;
    if k == a.namespace {
      assert Names(listed[..i + 1], [], k, a.name);
    } else if k in res {
      var n :| Names(listed[..i], [], k, n);
      assert Names(listed[..i + 1], [], k, n);
    }
  }

  lemma NamedNext(res: map<string, Resources>, listed: seq<Access>, named: seq<Access>, i: nat, k: string)
    requires i < |named| && DescribesAt(res, listed, named[..i], k)
    ensures DescribesAt(if Explicit(named[i].name) then WithAccess(res, named[i]) else res, listed, named[..i + 1], k)
  {
    var a := named[i];
    assert named[..i + 1] == named[..i] + [a];
    forall n ensures Names(listed, named[..i + 1], k, n) <==>
                     Names(listed, named[..i], k, n) || (Explicit(n) && a == Access(k, n))
    {
    }
    hide Names;
    if k == a.namespace && Explicit(a.name) {
      assert Names(listed, named[..i + 1], k, a.name);
    } else if k in res {
      var n :| Names(listed, named[..i], k, n);
      assert Names(listed, named[..i + 1], k, n);
    }
  }

  lemma ListedStep(res: map<string, Resources>, listed: seq<Access>, i: nat)
    requires i < |listed| && Describes(res, listed[..i], [])
    ensures Describes(WithAccess(res, listed[i]), listed[..i + 1], [])
  {
    hide DescribesAt;
    var res', more := WithAccess(res, listed[i]), listed[..i + 1];
    forall k ensures DescribesAt(res', more, [], k) {
      ListedNext(res, listed, i, k);
    }
  }

  lemma NamedStep(res: map<string, Resources>, listed: seq<Access>, named: seq<Access>, i: nat)
    requires i < |named| && Describes(res, listed, named[..i])
    ensures Describes(if Explicit(named[i].name) then WithAccess(res, named[i]) else res, listed, named[..i + 1])
  {
    hide DescribesAt;
    var res', more := if Explicit(named[i].name) then WithAccess(res, named[i]) else res, named[..i + 1];
    forall k ensures DescribesAt(res', listed, more, k) {
      NamedNext(res, listed, named, i, k);
    }
  }

  lemma NothingNamed(k: string)
    ensures DescribesAt(map[], [], [], k)
  {
  }

  method Granted(acc: AccessByVerb, verb: string) returns (result: map<string, Resources>)
    ensures Describes(result, Of(acc, verb), if verb == "list" then Of(acc, "get") else [])
  {
    hide DescribesAt;
    result := map[];
    var listed := Of(acc, verb);
    forall k ensures DescribesAt(result, listed[..0], [], k) {
      NothingNamed(k);
    }
    for i := 0 to |listed|
      invariant Describes(result, listed[..i], [])
    {
      ListedStep(result, listed, i);
      var resources := At(result, listed[i].namespace);
      if listed[i].name == ALL {
        resources := resources.(all := true);
      } else {
        resources := resources.(names := resources.names + {listed[i].name});
      }
      result := result[listed[i].namespace := resources];
    }
    assert listed[..|listed|] == listed;
    if verb == "list" {
      var named := Of(acc, "get");
      assert named[..0] == [];
      for i := 0 to |named|
        invariant Describes(result, listed, named[..i])
      {
        NamedStep(result, listed, named, i);
        var resources := At(result, named[i].namespace);
        if named[i].name == ALL {
        } else if |named[i].name| > 0 {
          resources := resources.(names := resources.names + {named[i].name});
          result := result[named[i].namespace := resources];
        }
      }
      assert named[..|named|] == named;
    }
  }

  // ----- Partitions -----

  datatype Scope = Scope(acc: AccessByVerb, namespaced: bool)

  function GetNames(sc: Scope, verb: string): seq<Access> { if verb == "list" then Of(sc.acc, "get") else [] }

  /** Role bindings have a namespace, and access to cluster-scoped kinds is trimmed. */
  ghost predicate Wf(sc: Scope) {
    forall v, a :: v in sc.acc && a in sc.acc[v] ==> a.namespace != "" && (!sc.namespaced ==> a.namespace == ALL)
  }

  predicate EverythingGranted(sc: Scope, verb: string) { Access(ALL, ALL) in Of(sc.acc, verb) }

  function PartitionOf(sc: Scope, k: string, r: Resources): Partition {
    Partition(false, if sc.namespaced then k else "", r.all, r.names)
  }

  method AllGranted(list: seq<Access>) returns (r: bool)
    ensures r <==> Access(ALL, ALL) in list
  {
    for i := 0 to |list|
      invariant Access(ALL, ALL) !in list[..i]
    {
      if list[i].Grants(ALL, ALL) {
        assert list[i] == Access(ALL, ALL);
        return true;
      }
      assert list[..i + 1] == list[..i] + [list[i]];
    }
    assert list[..|list|] == list;
    return false;
  }

  ghost predicate AggregateOf(sc: Scope, verb: string, ns: string, res: map<string, Resources>, parts: seq<Partition>,
                              passthrough: bool)
  {
    && Describes(res, Of(sc.acc, verb), GetNames(sc, verb))
    && (passthrough <==> EverythingGranted(sc, verb) || (ns != "" && At(res, ns).all))
    && (!passthrough ==>
          if ns != "" then parts == [Partition(false, ns, false, At(res, ns).names)]
          else forall p :: p in parts <==> exists k :: k in res && p == PartitionOf(sc, k, res[k]))
  }

  /** The partitions, in any order, or that everything passes. */
  ghost predicate IsAggregate(sc: Scope, verb: string, ns: string, parts: seq<Partition>, passthrough: bool) {
    exists res :: AggregateOf(sc, verb, ns, res, parts, passthrough)
  }

  method GenerateAggregatePartitions(sc: Scope, verb: string, ns: string) returns (parts: seq<Partition>, passthrough: bool)
    ensures IsAggregate(sc, verb, ns, parts, passthrough)
  {
    hide Describes;
    var resources := Granted(sc.acc, verb);
    parts := [];
    passthrough := AllGranted(Of(sc.acc, verb));
    if passthrough {
      assert AggregateOf(sc, verb, ns, resources, parts, true);
      return;
    }
    if ns != "" {
      if At(resources, ns).all {
        passthrough := true;
        assert AggregateOf(sc, verb, ns, resources, parts, true);
        return;
      }
      parts := [Partition(false, ns, false, At(resources, ns).names)];
      assert AggregateOf(sc, verb, ns, resources, parts, false);
      return;
    }
    var keys := Listed(resources.Keys);
    for i := 0 to |keys|
      invariant forall p :: p in parts <==> exists j :: 0 <= j < i && p == PartitionOf(sc, keys[j], resources[keys[j]])
    {
      assert keys[i] in keys;
      parts := parts + [PartitionOf(sc, keys[i], resources[keys[i]])];
    }
    forall p ensures p in parts <==> exists k :: k in resources && p == PartitionOf(sc, k, resources[k]) {
      if k :| k in resources && p == PartitionOf(sc, k, resources[k]) {
        var j :| 0 <= j < |keys| && keys[j] == k;
      }
    }
    assert AggregateOf(sc, verb, ns, resources, parts, false);
  }

  function Chosen(parts: seq<Partition>, passthrough: bool): seq<Partition> {
    if passthrough then [PASSTHROUGH] else parts
  }

  // ----- What the partitions let through -----

  function NamespaceOf(columns: Columns): string { if NAMESPACE in columns then columns[NAMESPACE] else "" }

  /** The partition clauses and the request's own namespace clause keep the object. */
  ghost predicate LetThrough(columns: Columns, parts: seq<Partition>, ns: string) {
    PartitionsHold(columns, parts) && InNamespaceHolds(columns, ns)
  }

  lemma PassthroughKeepsAll(columns: Columns)
    ensures PartitionsHold(columns, [PASSTHROUGH])
  {
  }

  /** An access in the entry's namespace, or in all of them, that covers the object. */
  lemma AllowedByEntry(sc: Scope, verb: string, ns: string, name: string)
    ensures Allowed(sc.acc, verb, ns, name) <==>
            exists k, n :: Names(Of(sc.acc, verb), GetNames(sc, verb), k, n) && Access(k, n).Grants(ns, name)
  {
    var listed, named := Of(sc.acc, verb), GetNames(sc, verb);
    if k, n :| Names(listed, named, k, n) && Access(k, n).Grants(ns, name) {
      var a := Access(k, n);
      assert a in listed || (Explicit(a.name) && a in named);
    }
    if a :| a in listed && a.Grants(ns, name) {
      assert Names(listed, named, a.namespace, a.name) && Access(a.namespace, a.name).Grants(ns, name);
    }
    if verb == "list" {
      if a :| a in named && Explicit(a.name) && a.Grants(ns, name) {
        assert Names(listed, named, a.namespace, a.name) && Access(a.namespace, a.name).Grants(ns, name);
      }
    }
  }

  lemma WfNames(sc: Scope, verb: string, k: string, n: string)
    requires Wf(sc) && Names(Of(sc.acc, verb), GetNames(sc, verb), k, n)
    ensures k != "" && (!sc.namespaced ==> k == ALL)
  {
    var a := Access(k, n);
    if a in Of(sc.acc, verb) {
      assert verb in sc.acc && a in sc.acc[verb];
    } else {
      assert "get" in sc.acc && a in sc.acc["get"];
    }
  }

  /** The partition of a namespace holds exactly the objects that its accesses grant. */
  lemma EntryExact(sc: Scope, verb: string, res: map<string, Resources>, k: string, columns: Columns)
    requires Wf(sc) && DescribesAt(res, Of(sc.acc, verb), GetNames(sc, verb), k) && k in res && NAME in columns
    requires !EverythingGranted(sc, verb)
    ensures Restricted(PartitionOf(sc, k, res[k]))
    ensures InPartition(columns, PartitionOf(sc, k, res[k])) <==>
            exists n :: Names(Of(sc.acc, verb), GetNames(sc, verb), k, n)
                        && Access(k, n).Grants(NamespaceOf(columns), columns[NAME])
  {
    var listed, named := Of(sc.acc, verb), GetNames(sc, verb);
    var some :| Names(listed, named, k, some);
    WfNames(sc, verb, k, some);
    assert Names(listed, named, k, ALL) <==> res[k].all;
    hide Names, Of, GetNames, Wf;
    var name := columns[NAME];
    assert InNamespaceHolds(columns, if sc.namespaced then k else "") <==> k == ALL || k == NamespaceOf(columns);
    if InPartition(columns, PartitionOf(sc, k, res[k])) {
      var n := if res[k].all then ALL else name;
      assert Names(listed, named, k, n) && Access(k, n).Grants(NamespaceOf(columns), name);
    }
    if n :| Names(listed, named, k, n) && Access(k, n).Grants(NamespaceOf(columns), name) {
      if n == ALL {
        assert res[k].all;
      } else {
        assert n in At(res, k).names;
      }
    }
  }

  /** A list over all namespaces lets through exactly the objects that are granted. */
  lemma AllNamespacesExact(sc: Scope, verb: string, parts: seq<Partition>, passthrough: bool, columns: Columns)
    requires Wf(sc) && IsAggregate(sc, verb, "", parts, passthrough) && NAME in columns
    ensures LetThrough(columns, Chosen(parts, passthrough), "") <==>
            Allowed(sc.acc, verb, NamespaceOf(columns), columns[NAME])
  {
    hide Wf, Of, GetNames, DescribesAt, Restricted, InPartition, Names, PartitionOf;
    var ns, name := NamespaceOf(columns), columns[NAME];
    var listed, named := Of(sc.acc, verb), GetNames(sc, verb);
    AllowedByEntry(sc, verb, ns, name);
    if passthrough {
      PassthroughKeepsAll(columns);
      EverythingNames(sc, verb);
      assert Access(ALL, ALL).Grants(ns, name);
    } else {
      var res :| AggregateOf(sc, verb, "", res, parts, passthrough);
      EntriesExact(sc, verb, res, parts, columns);
    }
  }

  lemma EverythingNames(sc: Scope, verb: string)
    requires EverythingGranted(sc, verb)
    ensures Names(Of(sc.acc, verb), GetNames(sc, verb), ALL, ALL)
  {
  }

  lemma EntriesExact(sc: Scope, verb: string, res: map<string, Resources>, parts: seq<Partition>, columns: Columns)
    requires Wf(sc) && Describes(res, Of(sc.acc, verb), GetNames(sc, verb)) && NAME in columns
    requires !EverythingGranted(sc, verb)
    requires forall p :: p in parts <==> exists k :: k in res && p == PartitionOf(sc, k, res[k])
    ensures PartitionsHold(columns, parts) <==>
            exists k, n :: Names(Of(sc.acc, verb), GetNames(sc, verb), k, n)
                           && Access(k, n).Grants(NamespaceOf(columns), columns[NAME])
  {
    hide Wf, Of, GetNames, Restricted, InPartition, Names, PartitionOf, EverythingGranted;
    var ns, name := NamespaceOf(columns), columns[NAME];
    var listed, named := Of(sc.acc, verb), GetNames(sc, verb);
    if PartitionsHold(columns, parts) {
      if i :| 0 <= i < |parts| && Restricted(parts[i]) && InPartition(columns, parts[i]) {
        assert parts[i] in parts;
        var k :| k in res && parts[i] == PartitionOf(sc, k, res[k]);
        assert DescribesAt(res, listed, named, k);
        EntryExact(sc, verb, res, k, columns);
      } else {
        assert parts[0] in parts;
        var k :| k in res && parts[0] == PartitionOf(sc, k, res[k]);
        assert DescribesAt(res, listed, named, k);
        EntryExact(sc, verb, res, k, columns);
        assert false;
      }
    }
    if k, n :| Names(listed, named, k, n) && Access(k, n).Grants(ns, name) {
      assert DescribesAt(res, listed, named, k);
      EntryExact(sc, verb, res, k, columns);
      var p := PartitionOf(sc, k, res[k]);
      assert p in parts;
      var i :| 0 <= i < |parts| && parts[i] == p;
      assert InRestricted(columns, parts);
    }
  }

  /** An access in that very namespace covers the object. */
  ghost predicate CoveredIn(sc: Scope, verb: string, k: string, columns: Columns)
    requires NAME in columns
  {
    exists n :: Names(Of(sc.acc, verb), GetNames(sc, verb), k, n)
                && Access(k, n).Grants(NamespaceOf(columns), columns[NAME])
  }

  /** A list in one namespace lets through exactly the objects there that an access in that very
      namespace grants, or all when everything is granted. */
  lemma OneNamespaceExact(sc: Scope, verb: string, ns: string, parts: seq<Partition>, passthrough: bool, columns: Columns)
    requires IsAggregate(sc, verb, ns, parts, passthrough) && ns != "" && NAME in columns
    ensures LetThrough(columns, Chosen(parts, passthrough), ns) <==>
            InNamespaceHolds(columns, ns) && (EverythingGranted(sc, verb) || CoveredIn(sc, verb, ns, columns))
  {
    hide Of, GetNames, Names, EverythingGranted;
    var name := columns[NAME];
    var listed, named := Of(sc.acc, verb), GetNames(sc, verb);
    var res :| AggregateOf(sc, verb, ns, res, parts, passthrough);
    assert DescribesAt(res, listed, named, ns);
    AllListed(listed, named, ns);
    if passthrough {
      PassthroughKeepsAll(columns);
      if InNamespaceHolds(columns, ns) && !EverythingGranted(sc, verb) {
        assert Access(ns, ALL).Grants(NamespaceOf(columns), name);
      }
    } else {
      OnePartition(columns, parts[0]);
      if LetThrough(columns, parts, ns) {
        assert Names(listed, named, ns, name) && Access(ns, name).Grants(NamespaceOf(columns), name);
      }
    }
  }

  lemma AllListed(listed: seq<Access>, named: seq<Access>, k: string)
    ensures Names(listed, named, k, ALL) <==> Access(k, ALL) in listed
  {
  }

  lemma OnePartition(columns: Columns, p: Partition)
    requires !p.passthrough && !p.all && NAME in columns
    ensures PartitionsHold(columns, [p]) <==> InNamespaceHolds(columns, p.namespace) && columns[NAME] in p.names
  {
    assert Restricted([p][0]);
  }

  /** So every object let through is granted. */
  lemma OneNamespaceSound(sc: Scope, verb: string, ns: string, parts: seq<Partition>, passthrough: bool, columns: Columns)
    requires IsAggregate(sc, verb, ns, parts, passthrough) && ns != "" && NAME in columns
    requires LetThrough(columns, Chosen(parts, passthrough), ns)
    ensures Allowed(sc.acc, verb, NamespaceOf(columns), columns[NAME])
  {
    hide Of, GetNames, Names, IsAggregate, LetThrough;
    OneNamespaceExact(sc, verb, ns, parts, passthrough, columns);
    AllowedByEntry(sc, verb, NamespaceOf(columns), columns[NAME]);
    if EverythingGranted(sc, verb) {
      EverythingNames(sc, verb);
      assert Access(ALL, ALL).Grants(NamespaceOf(columns), columns[NAME]);
    }
  }

  /** It misses a granted object exactly when no access in that namespace covers it, so that it is
      granted by name in all namespaces. */
  lemma OneNamespaceMisses(sc: Scope, verb: string, ns: string, parts: seq<Partition>, passthrough: bool, columns: Columns)
    requires IsAggregate(sc, verb, ns, parts, passthrough) && NamesOne(ns) && NAME in columns
    requires NamespaceOf(columns) == ns
    ensures Allowed(sc.acc, verb, ns, columns[NAME]) && !LetThrough(columns, Chosen(parts, passthrough), ns) <==>
            !EverythingGranted(sc, verb) && !CoveredIn(sc, verb, ns, columns) && CoveredIn(sc, verb, ALL, columns)
  {
    hide Of, GetNames, IsAggregate, LetThrough, Names;
    OneNamespaceExact(sc, verb, ns, parts, passthrough, columns);
    AllowedByEntry(sc, verb, ns, columns[NAME]);
    assert InNamespaceHolds(columns, ns);
    if EverythingGranted(sc, verb) {
      EverythingNames(sc, verb);
    }
  }

  /** The only access is to one name in all namespaces: a list in a namespace misses the object. */
  lemma MissedByName(parts: seq<Partition>, passthrough: bool)
    requires IsAggregate(Scope(map["list" := [Access(ALL, "x")]], true), "list", "n", parts, passthrough)
    ensures var columns := map[NAME := "x", NAMESPACE := "n"];
            && Allowed(map["list" := [Access(ALL, "x")]], "list", "n", "x")
            && !LetThrough(columns, Chosen(parts, passthrough), "n")
  {
    hide IsAggregate, LetThrough;
    var sc := Scope(map["list" := [Access(ALL, "x")]], true);
    assert Access(ALL, "x") in Of(sc.acc, "list");
    OneNamespaceExact(sc, "list", "n", parts, passthrough, map[NAME := "x", NAMESPACE := "n"]);
  }

  // ----- One object -----

  /** The partitions for watching one object; none when it is not granted. The namespace in the id comes first, and
      that of the request counts only when the id has none. */
  method GeneratePartitionsById(sc: Scope, verb: string, apiNs: string, idNs: string, name: string)
    returns (parts: seq<Partition>)
    ensures idNs != "" ==> IsById(sc, verb, idNs, name, parts)
    ensures idNs == "" ==> IsById(sc, verb, apiNs, name, parts)
  {
    var resources := Granted(sc.acc, verb);
    var ns := idNs;
    if idNs == "" && apiNs != "" {
      ns := apiNs;
    }
    var k := if ns == "" then ALL else ns;
    assert DescribesAt(resources, Of(sc.acc, verb), GetNames(sc, verb), k);
    AllListed(Of(sc.acc, verb), GetNames(sc, verb), k);
    hide Names, Of, GetNames, Describes;
    var all := AllGranted(Of(sc.acc, verb));
    if all {
      return [Partition(false, ns, false, {name})];
    }
    if ns != "" {
      if At(resources, ns).all {
        return [Partition(false, ns, false, {name})];
      }
    }
    if k in resources && name in resources[k].names {
      return [Partition(false, ns, false, {name})];
    }
    return [];
  }

  /** The partitions for one object. */
  ghost predicate IsById(sc: Scope, verb: string, ns: string, name: string, parts: seq<Partition>) {
    var k := if ns == "" then ALL else ns;
    var listed, named := Of(sc.acc, verb), GetNames(sc, verb);
    parts == if EverythingGranted(sc, verb) || Names(listed, named, k, ALL) || Names(listed, named, k, name)
             then [Partition(false, ns, false, {name})]
             else []
  }

  /** They let through the object asked for exactly when an access covers it in its namespace, in all
      namespaces for a request without one, or everything is granted. */
  lemma ByIdExact(sc: Scope, verb: string, ns: string, name: string, parts: seq<Partition>, columns: Columns)
    requires IsById(sc, verb, ns, name, parts) && NAME in columns
    ensures PartitionsHold(columns, parts) <==>
            && columns[NAME] == name && InNamespaceHolds(columns, ns)
            && (EverythingGranted(sc, verb) || CoveredIn(sc, verb, if ns == "" then ALL else ns, columns))
  {
    hide Of, GetNames, Names, EverythingGranted;
    var k := if ns == "" then ALL else ns;
    var listed, named := Of(sc.acc, verb), GetNames(sc, verb);
    OnePartition(columns, Partition(false, ns, false, {name}));
    if columns[NAME] == name && InNamespaceHolds(columns, ns) {
      assert Access(k, ALL).Grants(NamespaceOf(columns), name) && Access(k, name).Grants(NamespaceOf(columns), name);
      assert CoveredIn(sc, verb, k, columns) <==> Names(listed, named, k, ALL) || Names(listed, named, k, name);
    }
  }

  /** So what they let through is granted. */
  lemma ByIdSound(sc: Scope, verb: string, ns: string, name: string, parts: seq<Partition>, columns: Columns)
    requires IsById(sc, verb, ns, name, parts) && NAME in columns && PartitionsHold(columns, parts)
    ensures columns[NAME] == name && InNamespaceHolds(columns, ns)
    ensures Allowed(sc.acc, verb, NamespaceOf(columns), name)
  {
    hide Of, GetNames, Names, IsById, PartitionsHold;
    ByIdExact(sc, verb, ns, name, parts, columns);
    AllowedByEntry(sc, verb, NamespaceOf(columns), name);
    if EverythingGranted(sc, verb) {
      EverythingNames(sc, verb);
      assert Access(ALL, ALL).Grants(NamespaceOf(columns), name);
    }
  }

  /** A request in a namespace misses the granted object exactly when it is granted only by name in all
      namespaces. */
  lemma ByIdMisses(sc: Scope, verb: string, ns: string, name: string, parts: seq<Partition>, columns: Columns)
    requires IsById(sc, verb, ns, name, parts) && NamesOne(ns)
    requires NAME in columns && columns[NAME] == name && NamespaceOf(columns) == ns
    ensures Allowed(sc.acc, verb, ns, name) && !PartitionsHold(columns, parts) <==>
            !EverythingGranted(sc, verb) && !CoveredIn(sc, verb, ns, columns) && CoveredIn(sc, verb, ALL, columns)
  {
    hide Of, GetNames, Names, IsById, PartitionsHold;
    ByIdExact(sc, verb, ns, name, parts, columns);
    AllowedByEntry(sc, verb, ns, name);
    assert InNamespaceHolds(columns, ns);
    if EverythingGranted(sc, verb) {
      EverythingNames(sc, verb);
    }
  }

  // ----- From rules to lists -----

  /** What AccessListFor returns, trimmed for a cluster-scoped kind. */
  ghost predicate ListFor(pairs: set<Pair>, verb: string, group: string, resource: string, namespaced: bool,
                          list: seq<Access>)
  {
    forall a :: a in list <==>
      && (exists k :: KeyMatches(k, verb, group, resource) && (k, a) in pairs)
      && (!namespaced ==> a.namespace == ALL)
  }

  /** A list over all namespaces shows exactly the objects that a rule of the user allows to list or, by an
      explicit name, to get; for a cluster-scoped kind only access to all namespaces counts. */
  lemma ListShowsWhatRulesAllow(u: UserGrants, group: string, resource: string, sc: Scope, parts: seq<Partition>,
                                passthrough: bool, columns: Columns)
    requires Wf(sc) && IsAggregate(sc, "list", "", parts, passthrough) && NAME in columns
    requires ListFor(UserPairs(u), "list", group, resource, sc.namespaced, Of(sc.acc, "list"))
    requires ListFor(UserPairs(u), "get", group, resource, sc.namespaced, Of(sc.acc, "get"))
    ensures var ns, name := NamespaceOf(columns), columns[NAME];
            LetThrough(columns, Chosen(parts, passthrough), "") <==>
              || UserAllowsBy(u, Request("list", group, resource, ns, name), Which(false, !sc.namespaced))
              || UserAllowsBy(u, Request("get", group, resource, ns, name), Which(true, !sc.namespaced))
  {
    hide Wf, IsAggregate, LetThrough, UserPairs, UserAllowsBy, KeyMatches, ListFor;
    var ns, name := NamespaceOf(columns), columns[NAME];
    AllNamespacesExact(sc, "list", parts, passthrough, columns);
    ListMeansRules(u, Request("list", group, resource, ns, name), sc.namespaced, false, Of(sc.acc, "list"));
    ListMeansRules(u, Request("get", group, resource, ns, name), sc.namespaced, true, Of(sc.acc, "get"));
  }

  lemma ListMeansRules(u: UserGrants, q: Request, namespaced: bool, named: bool, list: seq<Access>)
    requires ListFor(UserPairs(u), q.verb, q.group, q.resource, namespaced, list)
    ensures UserAllowsBy(u, q, Which(named, !namespaced)) <==>
            exists a :: a in list && (named ==> Explicit(a.name)) && a.Grants(q.namespace, q.name)
  {
    hide UserPairs, UserAllowsBy, KeyMatches, Explicit;
    var w := Which(named, !namespaced);
    UserAgreesBy(u, q, w);
    if GrantedBy(UserPairs(u), q, w) {
      var p :| p in UserPairs(u) && KeyMatches(p.0, q.verb, q.group, q.resource) && p.1.Grants(q.namespace, q.name)
        && Counts(p.1, w);
      assert (p.0, p.1) in UserPairs(u);
      assert p.1 in list;
    }
    if a :| a in list && (named ==> Explicit(a.name)) && a.Grants(q.namespace, q.name) {
      var k :| KeyMatches(k, q.verb, q.group, q.resource) && (k, a) in UserPairs(u);
      assert Counts((k, a).1, w) && (k, a).1.Grants(q.namespace, q.name);
    }
  }
}
