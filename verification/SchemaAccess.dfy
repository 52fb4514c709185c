/**
 The access lists of a schema (`schemasForSubject` in pkg/schema/factory.go) and what a list of the
 schema's objects shows. A user without any access to core namespaces gets access by name to the
 namespaces in which something may be read.
 */
module SchemaAccess {
  import opened Prelude
  import opened AccessControl
  import opened ListOptions
  import opened Sql
  import opened Partitioner

  /** A schema: what it stands for and the verbs it supports. */
  datatype Kind = Kind(group: string, resource: string, namespaced: bool, verbs: seq<string>)

  predicate CoreNamespaces(kind: Kind) { kind.group == "" && kind.resource == "namespaces" }

  predicate Reads(verb: string) { verb == "get" || verb == "list" }

  /** An access for get or list is limited to the namespace. */
  ghost predicate Reached(pairs: set<Pair>, ns: string) {
    ns != ALL && exists p :: p in pairs && Reads(p.0.verb) && p.1.namespace == ns
  }

  // ----- The access lists -----

  /** The namespaces reached under the first keys. */
  ghost predicate ReachedUnder(pairs: set<Pair>, keys: seq<Key>, ns: string) {
    ns != ALL && exists k, a :: k in keys && (k, a) in pairs && Reads(k.verb) && a.namespace == ns
  }

  ghost predicate ReachedBy(accesses: seq<Access>, ns: string) {
    ns != ALL && exists a :: a in accesses && a.namespace == ns
  }

  lemma NextKey(pairs: set<Pair>, keys: seq<Key>, i: nat, accesses: seq<Access>, ns: string)
    requires i < |keys| && forall a :: a in accesses <==> (keys[i], a) in pairs
    ensures ReachedUnder(pairs, keys[..i + 1], ns) <==>
            ReachedUnder(pairs, keys[..i], ns) || (Reads(keys[i].verb) && ReachedBy(accesses, ns))
  {
    assert keys[..i + 1] == keys[..i] + [keys[i]];
    if ReachedUnder(pairs, keys[..i + 1], ns) {
      var k, a :| k in keys[..i + 1] && (k, a) in pairs && Reads(k.verb) && a.namespace == ns;
      if k == keys[i] {
        assert a in accesses;
      }
    }
  }

  lemma NextAccess(accesses: seq<Access>, i: nat, ns: string)
    requires i < |accesses|
    ensures ReachedBy(accesses[..i + 1], ns) <==>
            ReachedBy(accesses[..i], ns) || (ns != ALL && accesses[i].namespace == ns)
  {
    assert accesses[..i + 1] == accesses[..i] + [accesses[i]];
    assert accesses[i] in accesses[..i + 1];
  }

  /** The namespaces that occur in accesses for get or list, each once. */
  method Namespaces(access: AccessSet) returns (result: seq<string>)
    requires access.Valid()
    ensures forall ns :: ns in result <==> Reached(access.Pairs(), ns)
    ensures forall i, j :: 0 <= i < j < |result| ==> result[i] != result[j]
  {
    hide AccessSet.Pairs, ReachedUnder, ReachedBy;
    ghost var pairs := access.Pairs();
    var found: set<string> := {};
    var keys := Listed(access.byKey.Keys);
    NoKeys(pairs);
    for i := 0 to |keys|
      invariant forall ns :: ns in found <==> ReachedUnder(pairs, keys[..i], ns)
    {
      var k := keys[i];
      assert k in keys;
      access.PairAt(k);
      var accesses := Listed(access.byKey[k].entries);
      ghost var before := found;
      if Reads(k.verb) {
        NoAccesses();
        for j := 0 to |accesses|
          invariant forall ns :: ns in found <==> ns in before || ReachedBy(accesses[..j], ns)
        {
          forall ns ensures ReachedBy(accesses[..j + 1], ns) <==>
                            ReachedBy(accesses[..j], ns) || (ns != ALL && accesses[j].namespace == ns)
          {
            NextAccess(accesses, j, ns);
          }
          if accesses[j].namespace != ALL {
            found := found + {accesses[j].namespace};
          }
        }
        assert accesses[..|accesses|] == accesses;
      }
      forall ns ensures ReachedUnder(pairs, keys[..i + 1], ns) <==>
                        ReachedUnder(pairs, keys[..i], ns) || (Reads(k.verb) && ReachedBy(accesses, ns))
      {
        NextKey(pairs, keys, i, accesses, ns);
      }
    }
    assert keys[..|keys|] == keys;
    access.PairKeys();
    forall ns ensures ReachedUnder(pairs, keys, ns) <==> Reached(pairs, ns) {
      EveryKey(pairs, keys, ns);
    }
    result := Listed(found);
  }

  lemma NoKeys(pairs: set<Pair>)
    ensures forall ns :: !ReachedUnder(pairs, [], ns)
  {
  }

  lemma NoAccesses()
    ensures forall ns :: !ReachedBy([], ns)
  {
  }

  lemma EveryKey(pairs: set<Pair>, keys: seq<Key>, ns: string)
    requires forall p :: p in pairs ==> p.0 in keys
    ensures ReachedUnder(pairs, keys, ns) <==> Reached(pairs, ns)
  {
    if Reached(pairs, ns) {
      var p :| p in pairs && Reads(p.0.verb) && p.1.namespace == ns;
      assert (p.0, p.1) in pairs;
    }
    if ReachedUnder(pairs, keys, ns) {
      var k, a :| k in keys && (k, a) in pairs && Reads(k.verb) && a.namespace == ns;
      assert Reads((k, a).0.verb) && (k, a).1.namespace == ns;
    }
  }

  /** The list of a verb for the kind. */
  ghost predicate VerbList(pairs: set<Pair>, kind: Kind, verb: string, list: seq<Access>) {
    ListFor(pairs, verb, kind.group, kind.resource, kind.namespaced, list)
  }

  /** No verb of the kind has an access. */
  ghost predicate Inaccessible(pairs: set<Pair>, kind: Kind) {
    forall v :: v in kind.verbs ==> VerbList(pairs, kind, v, [])
  }

  ghost predicate NamespaceAccess(pairs: set<Pair>, acc: AccessByVerb) {
    && acc.Keys == {"get", "watch"} && acc["get"] == acc["watch"]
    && forall a :: a in acc["get"] <==> a.namespace == ALL && Reached(pairs, a.name)
  }

  /** What the schema of a kind says about access. */
  ghost predicate AccessFor(pairs: set<Pair>, kind: Kind, acc: AccessByVerb) {
    if CoreNamespaces(kind) && Inaccessible(pairs, kind) then NamespaceAccess(pairs, acc)
    else VerbsListed(pairs, kind, kind.verbs, acc)
  }

  /** Each of the verbs has its list, unless that is empty. */
  ghost predicate VerbsListed(pairs: set<Pair>, kind: Kind, verbs: seq<string>, acc: AccessByVerb) {
    && (forall v :: v in acc ==> v in verbs && acc[v] != [])
    && (forall v :: v in verbs ==> VerbList(pairs, kind, v, Of(acc, v)))
  }

  method AccessLists(access: AccessSet, kind: Kind) returns (verbAccess: AccessByVerb)
    requires access.Valid()
    ensures AccessFor(access.Pairs(), kind, verbAccess)
  {
    hide AccessSet.Pairs, VerbList;
    ghost var pairs := access.Pairs();
    verbAccess := map[];
    for i := 0 to |kind.verbs|
      invariant VerbsListed(pairs, kind, kind.verbs[..i], verbAccess)
    {
      var verb := kind.verbs[i];
      var list := access.AccessListFor(verb, kind.group, kind.resource);
      if !kind.namespaced {
        list := Trim(list);
      }
      assert VerbList(pairs, kind, verb, list) by {
        IsVerbList(pairs, kind, verb, list);
      }
      ghost var before := verbAccess;
      if |list| > 0 {
        verbAccess := verbAccess[verb := list];
      }
      VerbNext(pairs, kind, i, before, verbAccess, list);
    }
    assert kind.verbs[..|kind.verbs|] == kind.verbs;
    InaccessibleIff(pairs, kind, verbAccess);
    if |verbAccess| == 0 {
      if kind.group == "" && kind.resource == "namespaces" {
        var namespaces := Namespaces(access);
        var accessList: seq<Access> := [];
        for i := 0 to |namespaces|
          invariant forall a :: a in accessList <==> a.namespace == ALL && a.name in namespaces[..i]
        {
          accessList := accessList + [Access(ALL, namespaces[i])];
          assert namespaces[..i + 1] == namespaces[..i] + [namespaces[i]];
        }
        assert namespaces[..|namespaces|] == namespaces;
        verbAccess := verbAccess["get" := accessList]["watch" := accessList];
      }
    }
  }

  lemma IsVerbList(pairs: set<Pair>, kind: Kind, verb: string, list: seq<Access>)
    requires forall a :: a in list <==>
               && (exists k :: KeyMatches(k, verb, kind.group, kind.resource) && (k, a) in pairs)
               && (!kind.namespaced ==> a.namespace == ALL)
    ensures VerbList(pairs, kind, verb, list)
  {
  }

  /** Two lists of a verb have the same members. */
  lemma SameList(pairs: set<Pair>, kind: Kind, verb: string, l1: seq<Access>, l2: seq<Access>)
    requires VerbList(pairs, kind, verb, l1) && VerbList(pairs, kind, verb, l2)
    ensures l1 == [] <==> l2 == []
  {
    if l1 != [] {
      assert l1[0] in l1;
    }
    if l2 != [] {
      assert l2[0] in l2;
    }
  }

  lemma VerbNext(pairs: set<Pair>, kind: Kind, i: nat, acc: AccessByVerb, acc': AccessByVerb, list: seq<Access>)
    requires i < |kind.verbs| && VerbsListed(pairs, kind, kind.verbs[..i], acc)
    requires VerbList(pairs, kind, kind.verbs[i], list)
    requires acc' == if |list| > 0 then acc[kind.verbs[i] := list] else acc
    ensures VerbsListed(pairs, kind, kind.verbs[..i + 1], acc')
  {
    hide VerbList;
    var verb := kind.verbs[i];
    assert kind.verbs[..i + 1] == kind.verbs[..i] + [verb];
    if list == [] && verb in kind.verbs[..i] {
      SameList(pairs, kind, verb, list, Of(acc, verb));
    }
  }

  lemma InaccessibleIff(pairs: set<Pair>, kind: Kind, acc: AccessByVerb)
    requires VerbsListed(pairs, kind, kind.verbs, acc)
    ensures Inaccessible(pairs, kind) <==> acc == map[]
  {
    hide VerbList;
    if Inaccessible(pairs, kind) {
      forall v | v in acc ensures false {
        SameList(pairs, kind, v, [], acc[v]);
      }
    }
  }

  // ----- Reaching a namespace, by the rules -----

  /** The rule, bound in the namespace, lets something be read there that is not the namespace itself. */
  ghost predicate RuleReaches(bound: string, rule: Rule, ns: string) {
    && bound == ns && ns != ALL
    && exists v, g, r, n ::
         && v in rule.verbs && g in rule.groups && r in rule.resources && n in NamesOf(rule)
         && (v == "get" || v == "list") && !(r == "namespaces" && g == "" && (n == "*" || n == ns))
  }

  ghost predicate RulesReach(bound: string, rules: seq<Rule>, ns: string) {
    exists i :: 0 <= i < |rules| && RuleReaches(bound, rules[i], ns)
  }

  ghost predicate SubjectReaches(s: SubjectGrants, ns: string) {
    exists i :: 0 <= i < |s.roleBindings| && RulesReach(s.roleBindings[i].namespace, s.roleBindings[i].rules, ns)
  }

  /** Some role binding of the user or of one of the groups does. */
  ghost predicate UserReaches(u: UserGrants, ns: string) {
    SubjectReaches(u.user, ns) || exists i :: 0 <= i < |u.groups| && SubjectReaches(u.groups[i], ns)
  }

  lemma ReachedUnion(a: set<Pair>, b: set<Pair>, ns: string)
    ensures Reached(a + b, ns) <==> Reached(a, ns) || Reached(b, ns)
    ensures !Reached({}, ns)
  {
  }

  lemma RuleReachedIff(bound: string, rule: Rule, ns: string)
    ensures Reached(RulePairs(bound, rule), ns) <==> RuleReaches(bound, rule, ns)
  {
    if Reached(RulePairs(bound, rule), ns) {
      var p :| p in RulePairs(bound, rule) && Reads(p.0.verb) && p.1.namespace == ns;
      var v, g, r, n :| g in rule.groups && r in rule.resources && n in NamesOf(rule) && v in rule.verbs
        && p == (Key(v, g, r), AccessOf(bound, g, r, n));
      assert Reads(v);
    }
    if RuleReaches(bound, rule, ns) {
      var v, g, r, n :| v in rule.verbs && g in rule.groups && r in rule.resources && n in NamesOf(rule)
        && (v == "get" || v == "list") && !(r == "namespaces" && g == "" && (n == "*" || n == ns));
      var p := (Key(v, g, r), AccessOf(bound, g, r, n));
      assert p in RulePairs(bound, rule) && Reads(p.0.verb) && p.1.namespace == ns;
    }
  }

  lemma {:induction false} RulesReachedIff(bound: string, rules: seq<Rule>, ns: string)
    ensures Reached(RulesPairs(bound, rules), ns) <==> RulesReach(bound, rules, ns)
  {
    hide RulePairs, Reached, RuleReaches;
    ReachedUnion({}, {}, ns);
    if rules != [] {
      var n := |rules| - 1;
      RulesReachedIff(bound, rules[..n], ns);
      RuleReachedIff(bound, rules[n], ns);
      ReachedUnion(RulesPairs(bound, rules[..n]), RulePairs(bound, rules[n]), ns);
    }
  }

  lemma {:induction false} RolesReachedIff(roles: seq<RoleRef>, ns: string)
    ensures Reached(RolesPairs(roles), ns) <==>
            exists i :: 0 <= i < |roles| && RulesReach(roles[i].namespace, roles[i].rules, ns)
  {
    hide RulesPairs, Reached, RulesReach;
    ReachedUnion({}, {}, ns);
    if roles != [] {
      var n := |roles| - 1;
      RolesReachedIff(roles[..n], ns);
      RulesReachedIff(roles[n].namespace, roles[n].rules, ns);
      ReachedUnion(RolesPairs(roles[..n]), RulesPairs(roles[n].namespace, roles[n].rules), ns);
    }
  }

  /** Cluster role bindings reach no single namespace. */
  lemma {:induction false} ClusterReachesNone(roles: seq<RoleRef>, ns: string)
    ensures !Reached(ClusterPairs(roles), ns)
  {
    hide RulesPairs, Reached;
    ReachedUnion({}, {}, ns);
    if roles != [] {
      var n := |roles| - 1;
      ClusterReachesNone(roles[..n], ns);
      RulesReachedIff(ALL, roles[n].rules, ns);
      ReachedUnion(ClusterPairs(roles[..n]), RulesPairs(ALL, roles[n].rules), ns);
    }
  }

  lemma SubjectReachedIff(s: SubjectGrants, ns: string)
    ensures Reached(SubjectPairs(s), ns) <==> SubjectReaches(s, ns)
  {
    hide Reached, RulesReach, RolesPairs, ClusterPairs;
    RolesReachedIff(s.roleBindings, ns);
    ClusterReachesNone(s.clusterRoleBindings, ns);
    ReachedUnion(RolesPairs(s.roleBindings), ClusterPairs(s.clusterRoleBindings), ns);
  }

  lemma {:induction false} GroupsReachedIff(groups: seq<SubjectGrants>, ns: string)
    ensures Reached(GroupsPairs(groups), ns) <==> exists i :: 0 <= i < |groups| && SubjectReaches(groups[i], ns)
  {
    hide Reached, SubjectPairs, SubjectReaches;
    ReachedUnion({}, {}, ns);
    if groups != [] {
      var n := |groups| - 1;
      GroupsReachedIff(groups[..n], ns);
      SubjectReachedIff(groups[n], ns);
      ReachedUnion(GroupsPairs(groups[..n]), SubjectPairs(groups[n]), ns);
    }
  }

  /** The namespaces in a user's access set are those that role bindings reach. */
  lemma UserReachedIff(u: UserGrants, ns: string)
    ensures Reached(UserPairs(u), ns) <==> UserReaches(u, ns)
  {
    hide Reached, SubjectPairs, SubjectReaches, GroupsPairs;
    SubjectReachedIff(u.user, ns);
    GroupsReachedIff(u.groups, ns);
    ReachedUnion(SubjectPairs(u.user), GroupsPairs(u.groups), ns);
  }

  // ----- What a list shows -----

  /** No rule allows any verb of the kind for any object. */
  ghost predicate NothingAllowed(u: UserGrants, kind: Kind) {
    forall v, ns, name :: v in kind.verbs ==>
      !UserAllowsBy(u, Request(v, kind.group, kind.resource, ns, name), Which(false, !kind.namespaced))
  }

  lemma NothingAllowedIff(u: UserGrants, kind: Kind)
    ensures NothingAllowed(u, kind) <==> Inaccessible(UserPairs(u), kind)
  {
    hide UserPairs, UserAllowsBy, KeyMatches;
    if Inaccessible(UserPairs(u), kind) {
      forall v, ns, name | v in kind.verbs
        ensures !UserAllowsBy(u, Request(v, kind.group, kind.resource, ns, name), Which(false, !kind.namespaced))
      {
        assert VerbList(UserPairs(u), kind, v, []);
        ListMeansRules(u, Request(v, kind.group, kind.resource, ns, name), kind.namespaced, false, []);
      }
    } else {
      var v :| v in kind.verbs && !VerbList(UserPairs(u), kind, v, []);
      var a := AccessAllows(u, kind, v);
      assert UserAllowsBy(u, Request(v, kind.group, kind.resource, a.namespace, a.name), Which(false, !kind.namespaced));
    }
  }

  lemma AccessAllows(u: UserGrants, kind: Kind, v: string) returns (a: Access)
    requires !VerbList(UserPairs(u), kind, v, [])
    ensures UserAllowsBy(u, Request(v, kind.group, kind.resource, a.namespace, a.name), Which(false, !kind.namespaced))
  {
    hide UserPairs, UserAllowsBy, KeyMatches;
    var k;
    a, k :| KeyMatches(k, v, kind.group, kind.resource) && (k, a) in UserPairs(u) && (!kind.namespaced ==> a.namespace == ALL);
    var q, w := Request(v, kind.group, kind.resource, a.namespace, a.name), Which(false, !kind.namespaced);
    assert Counts((k, a).1, w) && (k, a).1.Grants(q.namespace, q.name);
    UserAgreesBy(u, q, w);
  }

  /** What the rules let the user see of a kind's objects: those that a rule allows to list or, by an explicit
      name, to get; or, for core namespaces of which no rule allows anything, those that are reached. */
  ghost predicate MaySee(u: UserGrants, kind: Kind, ns: string, name: string) {
    if kind.group == "" && kind.resource == "namespaces" && NothingAllowed(u, kind) then name != "" && UserReaches(u, name)
    else
      || ("list" in kind.verbs
          && UserAllowsBy(u, Request("list", kind.group, kind.resource, ns, name), Which(false, !kind.namespaced)))
      || ("get" in kind.verbs
          && UserAllowsBy(u, Request("get", kind.group, kind.resource, ns, name), Which(true, !kind.namespaced)))
  }

  lemma AllowedIff(u: UserGrants, kind: Kind, acc: AccessByVerb, ns: string, name: string)
    requires AccessFor(UserPairs(u), kind, acc)
    ensures Allowed(acc, "list", ns, name) <==> MaySee(u, kind, ns, name)
  {
    hide UserPairs, UserAllowsBy, Reached, UserReaches, Inaccessible, NothingAllowed;
    NothingAllowedIff(u, kind);
    if CoreNamespaces(kind) && NothingAllowed(u, kind) {
      UserReachedIff(u, name);
      NotAll(UserPairs(u), name);
      if MaySee(u, kind, ns, name) {
        assert Access(ALL, name) in acc["get"] && Access(ALL, name).Grants(ns, name);
      }
    } else {
      ListedMeans(u, kind, acc, "list", ns, name, false);
      ListedMeans(u, kind, acc, "get", ns, name, true);
    }
  }

  lemma NotAll(pairs: set<Pair>, ns: string)
    ensures Reached(pairs, ns) ==> ns != ALL
    ensures !Reached(pairs, ALL)
  {
  }

  lemma ListedMeans(u: UserGrants, kind: Kind, acc: AccessByVerb, verb: string, ns: string, name: string, named: bool)
    requires VerbsListed(UserPairs(u), kind, kind.verbs, acc)
    ensures (exists a :: a in Of(acc, verb) && (named ==> Explicit(a.name)) && a.Grants(ns, name)) <==>
            verb in kind.verbs
            && UserAllowsBy(u, Request(verb, kind.group, kind.resource, ns, name), Which(named, !kind.namespaced))
  {
    hide UserPairs, UserAllowsBy, KeyMatches;
    if verb in kind.verbs {
      assert VerbList(UserPairs(u), kind, verb, Of(acc, verb));
      ListMeansRules(u, Request(verb, kind.group, kind.resource, ns, name), kind.namespaced, named, Of(acc, verb));
    }
  }

  /** From rules to lists: a list over all namespaces shows exactly what the user may see. */
  lemma ListShowsIff(u: UserGrants, kind: Kind, acc: AccessByVerb, parts: seq<Partition>, passthrough: bool, columns: Columns)
    requires AccessFor(UserPairs(u), kind, acc) && Wf(Scope(acc, kind.namespaced))
    requires IsAggregate(Scope(acc, kind.namespaced), "list", "", parts, passthrough) && NAME in columns
    ensures LetThrough(columns, Chosen(parts, passthrough), "") <==>
            MaySee(u, kind, NamespaceOf(columns), columns[NAME])
  {
    hide AccessFor, Wf, IsAggregate, LetThrough, Allowed, MaySee, UserPairs;
    AllNamespacesExact(Scope(acc, kind.namespaced), "list", parts, passthrough, columns);
    AllowedIff(u, kind, acc, NamespaceOf(columns), columns[NAME]);
  }

  /** A role that only lets pods be listed in a namespace shows that namespace, though no rule allows it. */
  lemma ReachedIsShown(verbs: seq<string>)
    requires "list" in verbs
    ensures var kind := Kind("", "namespaces", false, verbs);
            var u := UserGrants(SubjectGrants([RoleRef("n", false, [Rule(["list"], [""], ["pods"], [])])], []), []);
            NothingAllowed(u, kind) && MaySee(u, kind, "", "n")
  {
    var kind := Kind("", "namespaces", false, verbs);
    var rule := Rule(["list"], [""], ["pods"], []);
    var role := RoleRef("n", false, [rule]);
    var u := UserGrants(SubjectGrants([role], []), []);
    assert RuleReaches("n", rule, "n") by {
      assert "list" in rule.verbs && "" in rule.groups && "pods" in rule.resources && ALL in NamesOf(rule);
    }
    assert role.rules[0] == rule && u.user.roleBindings[0] == role;
    forall v, ns, name ensures !UserAllowsBy(u, Request(v, "", "namespaces", ns, name), Which(false, true)) {
      PodsOnly(rule, Request(v, "", "namespaces", ns, name), Which(false, true));
    }
  }

  lemma PodsOnly(rule: Rule, q: Request, w: Which)
    requires rule.resources == ["pods"] && q.resource == "namespaces"
    ensures !Allows("n", rule, q, w)
  {
  }
}
