/**
 Access sets: RBAC rules indexed by verb, group and resource (pkg/accesscontrol/access_set.go,
 policy_rule_index.go, user_grants.go, access_store.go). Rules for non-resource URLs are not part of
 this model.
 */
module AccessControl {
  import opened Prelude

  const ALL := "*"

  datatype Key = Key(verb: string, group: string, resource: string)

  datatype Access = Access(namespace: string, name: string) {
    predicate Grants(ns: string, n: string) {
      (namespace == ALL || namespace == ns) && (name == ALL || name == n)
    }
  }

  type Pair = (Key, Access)

  /** What a request asks for. */
  datatype Request = Request(verb: string, group: string, resource: string, namespace: string, name: string)

  predicate Matches(pattern: string, s: string) { pattern == "*" || pattern == s }

  predicate KeyMatches(k: Key, verb: string, group: string, resource: string) {
    Matches(k.verb, verb) && Matches(k.group, group) && Matches(k.resource, resource)
  }

  /** Some pair grants the request. */
  ghost predicate Granted(pairs: set<Pair>, q: Request) {
    exists p :: p in pairs && KeyMatches(p.0, q.verb, q.group, q.resource) && p.1.Grants(q.namespace, q.name)
  }

  /** Which accesses count: all, only those to a name, only those to all namespaces. */
  datatype Which = Which(named: bool, everywhere: bool)

  const ANY_ACCESS := Which(false, false)

  predicate Explicit(name: string) { name != ALL && name != "" }

  predicate Counts(a: Access, w: Which) { (w.named ==> Explicit(a.name)) && (w.everywhere ==> a.namespace == ALL) }

  /** Some pair that counts grants the request. */
  ghost predicate GrantedBy(pairs: set<Pair>, q: Request, w: Which) {
    exists p :: p in pairs && KeyMatches(p.0, q.verb, q.group, q.resource) && p.1.Grants(q.namespace, q.name) && Counts(p.1, w)
  }

  lemma GrantedByAny(pairs: set<Pair>, q: Request)
    ensures GrantedBy(pairs, q, ANY_ACCESS) <==> Granted(pairs, q)
  {
    hide KeyMatches;
    if Granted(pairs, q) {
      var p :| p in pairs && KeyMatches(p.0, q.verb, q.group, q.resource) && p.1.Grants(q.namespace, q.name);
      assert Counts(p.1, ANY_ACCESS);
    }
  }

  // ----- Rules -----

  datatype Rule = Rule(verbs: seq<string>, groups: seq<string>, resources: seq<string>, names: seq<string>)

  /** `cluster` tells a ClusterRole from a Role. */
  datatype RoleRef = RoleRef(namespace: string, cluster: bool, rules: seq<Rule>)

  datatype SubjectGrants = SubjectGrants(roleBindings: seq<RoleRef>, clusterRoleBindings: seq<RoleRef>)

  datatype UserGrants = UserGrants(user: SubjectGrants, groups: seq<SubjectGrants>)

  /** A rule without names covers all names. */
  function NamesOf(rule: Rule): seq<string> { if rule.names == [] then [ALL] else rule.names }

  /** Whether a name of a rule bound in `ns` covers an object. A RoleBinding's rule on core namespaces that names
      all or its own namespace covers that Namespace object, and nothing else. */
  predicate NameCovers(ns: string, group: string, resource: string, name: string, q: Request, w: Which) {
    if ns != ALL && resource == "namespaces" && group == "" && (name == ALL || name == ns) then
      q.name == ns && (w.named ==> ns != "")
    else
      && Matches(ns, q.namespace) && Matches(name, q.name)
      && (w.named ==> Explicit(name)) && (w.everywhere ==> ns == ALL)
  }

  /** The rule, bound in `ns`, allows the request: a direct scan of its lists. */
  ghost predicate Allows(ns: string, rule: Rule, q: Request, w: Which) {
    exists v, g, r, n ::
      && v in rule.verbs && g in rule.groups && r in rule.resources && n in NamesOf(rule)
      && Matches(v, q.verb) && Matches(g, q.group) && Matches(r, q.resource)
      && NameCovers(ns, g, r, n, q, w)
  }

  ghost predicate RoleAllows(ns: string, role: RoleRef, q: Request, w: Which) {
    exists i :: 0 <= i < |role.rules| && Allows(ns, role.rules[i], q, w)
  }

  ghost predicate SubjectAllows(s: SubjectGrants, q: Request, w: Which) {
    || (exists i :: 0 <= i < |s.roleBindings| && RoleAllows(s.roleBindings[i].namespace, s.roleBindings[i], q, w))
    || (exists i :: 0 <= i < |s.clusterRoleBindings| && RoleAllows(ALL, s.clusterRoleBindings[i], q, w))
  }

  /** Some rule of some binding of the user or of one of the groups allows the request, by an access that counts. */
  ghost predicate UserAllowsBy(u: UserGrants, q: Request, w: Which) {
    SubjectAllows(u.user, q, w) || exists i :: 0 <= i < |u.groups| && SubjectAllows(u.groups[i], q, w)
  }

  ghost predicate UserAllows(u: UserGrants, q: Request) { UserAllowsBy(u, q, ANY_ACCESS) }

  // ----- The pairs that rules stand for -----

  function AccessOf(ns: string, group: string, resource: string, name: string): Access {
    if ns != ALL && resource == "namespaces" && group == "" && (name == ALL || name == ns) then Access(ALL, ns)
    else Access(ns, name)
  }

  ghost function ListPairs(ns: string, gs: seq<string>, rs: seq<string>, names: seq<string>, vs: seq<string>): set<Pair> {
    set g, r, n, v | g in gs && r in rs && n in names && v in vs :: (Key(v, g, r), AccessOf(ns, g, r, n))
  }

  ghost function RulePairs(ns: string, rule: Rule): set<Pair> {
    ListPairs(ns, rule.groups, rule.resources, NamesOf(rule), rule.verbs)
  }

  ghost function RulesPairs(ns: string, rules: seq<Rule>): set<Pair> {
    if rules == [] then {} else RulesPairs(ns, rules[..|rules| - 1]) + RulePairs(ns, rules[|rules| - 1])
  }

  ghost function RolesPairs(roles: seq<RoleRef>): set<Pair> {
    if roles == [] then {}
    else
      var role := roles[|roles| - 1];
      RolesPairs(roles[..|roles| - 1]) + RulesPairs(role.namespace, role.rules)
  }

  ghost function ClusterPairs(roles: seq<RoleRef>): set<Pair> {
    if roles == [] then {}
    else ClusterPairs(roles[..|roles| - 1]) + RulesPairs(ALL, roles[|roles| - 1].rules)
  }

  ghost function SubjectPairs(s: SubjectGrants): set<Pair> {
    RolesPairs(s.roleBindings) + ClusterPairs(s.clusterRoleBindings)
  }

  ghost function GroupsPairs(groups: seq<SubjectGrants>): set<Pair> {
    if groups == [] then {} else GroupsPairs(groups[..|groups| - 1]) + SubjectPairs(groups[|groups| - 1])
  }

  ghost function UserPairs(u: UserGrants): set<Pair> { SubjectPairs(u.user) + GroupsPairs(u.groups) }

  // ----- Pairs and rules agree -----

  lemma GrantedUnion(a: set<Pair>, b: set<Pair>, q: Request, w: Which)
    ensures GrantedBy(a + b, q, w) <==> GrantedBy(a, q, w) || GrantedBy(b, q, w)
  {
  }

  lemma RuleAgrees(ns: string, rule: Rule, q: Request, w: Which)
    ensures GrantedBy(RulePairs(ns, rule), q, w) <==> Allows(ns, rule, q, w)
  {
    if GrantedBy(RulePairs(ns, rule), q, w) {
      var p :| p in RulePairs(ns, rule) && KeyMatches(p.0, q.verb, q.group, q.resource) && p.1.Grants(q.namespace, q.name) && Counts(p.1, w);
      var v, g, r, n :| g in rule.groups && r in rule.resources && n in NamesOf(rule) && v in rule.verbs
        && p == (Key(v, g, r), AccessOf(ns, g, r, n));
      assert NameCovers(ns, g, r, n, q, w);
    }
    if Allows(ns, rule, q, w) {
      var v, g, r, n :| v in rule.verbs && g in rule.groups && r in rule.resources && n in NamesOf(rule)
        && Matches(v, q.verb) && Matches(g, q.group) && Matches(r, q.resource) && NameCovers(ns, g, r, n, q, w);
      assert (Key(v, g, r), AccessOf(ns, g, r, n)) in RulePairs(ns, rule);
    }
  }

  lemma {:induction false} RulesAgree(ns: string, rules: seq<Rule>, q: Request, w: Which)
    ensures GrantedBy(RulesPairs(ns, rules), q, w) <==> exists i :: 0 <= i < |rules| && Allows(ns, rules[i], q, w)
  {
    hide RulePairs, GrantedBy, Allows;
    if rules == [] {
      NothingGranted(q, w);
    } else {
      var n := |rules| - 1;
      RulesAgree(ns, rules[..n], q, w);
      RuleAgrees(ns, rules[n], q, w);
      GrantedUnion(RulesPairs(ns, rules[..n]), RulePairs(ns, rules[n]), q, w);
    }
  }

  lemma NothingGranted(q: Request, w: Which)
    ensures !GrantedBy({}, q, w)
  {
  }

  lemma {:induction false} RolesAgree(roles: seq<RoleRef>, q: Request, w: Which)
    ensures GrantedBy(RolesPairs(roles), q, w) <==>
            exists i :: 0 <= i < |roles| && RoleAllows(roles[i].namespace, roles[i], q, w)
  {
    hide RulesPairs, GrantedBy, Allows;
    if roles == [] {
      NothingGranted(q, w);
    } else {
      var n := |roles| - 1;
      RolesAgree(roles[..n], q, w);
      RulesAgree(roles[n].namespace, roles[n].rules, q, w);
      GrantedUnion(RolesPairs(roles[..n]), RulesPairs(roles[n].namespace, roles[n].rules), q, w);
    }
  }

  lemma {:induction false} ClusterAgrees(roles: seq<RoleRef>, q: Request, w: Which)
    ensures GrantedBy(ClusterPairs(roles), q, w) <==> exists i :: 0 <= i < |roles| && RoleAllows(ALL, roles[i], q, w)
  {
    hide RulesPairs, GrantedBy, Allows;
    if roles == [] {
      NothingGranted(q, w);
    } else {
      var n := |roles| - 1;
      ClusterAgrees(roles[..n], q, w);
      RulesAgree(ALL, roles[n].rules, q, w);
      GrantedUnion(ClusterPairs(roles[..n]), RulesPairs(ALL, roles[n].rules), q, w);
    }
  }

  lemma SubjectAgrees(s: SubjectGrants, q: Request, w: Which)
    ensures GrantedBy(SubjectPairs(s), q, w) <==> SubjectAllows(s, q, w)
  {
    hide GrantedBy, RoleAllows, RolesPairs, ClusterPairs;
    RolesAgree(s.roleBindings, q, w);
    ClusterAgrees(s.clusterRoleBindings, q, w);
    GrantedUnion(RolesPairs(s.roleBindings), ClusterPairs(s.clusterRoleBindings), q, w);
  }

  lemma {:induction false} GroupsAgree(groups: seq<SubjectGrants>, q: Request, w: Which)
    ensures GrantedBy(GroupsPairs(groups), q, w) <==> exists i :: 0 <= i < |groups| && SubjectAllows(groups[i], q, w)
  {
    hide GrantedBy, SubjectPairs, SubjectAllows;
    if groups == [] {
      NothingGranted(q, w);
    } else {
      var n := |groups| - 1;
      GroupsAgree(groups[..n], q, w);
      SubjectAgrees(groups[n], q, w);
      GrantedUnion(GroupsPairs(groups[..n]), SubjectPairs(groups[n]), q, w);
    }
  }

  /** The indexed pairs of a user grant a request exactly when a direct scan of the rules allows it, for all
      accesses or only some kinds of them. */
  lemma UserAgreesBy(u: UserGrants, q: Request, w: Which)
    ensures GrantedBy(UserPairs(u), q, w) <==> UserAllowsBy(u, q, w)
  {
    hide GrantedBy, SubjectPairs, SubjectAllows, GroupsPairs;
    SubjectAgrees(u.user, q, w);
    GroupsAgree(u.groups, q, w);
    GrantedUnion(SubjectPairs(u.user), GroupsPairs(u.groups), q, w);
  }

  lemma UserAgrees(u: UserGrants, q: Request)
    ensures Granted(UserPairs(u), q) <==> UserAllows(u, q)
  {
    hide GrantedBy, UserPairs, UserAllowsBy, Granted;
    UserAgreesBy(u, q, ANY_ACCESS);
    GrantedByAny(UserPairs(u), q);
  }

  lemma {:induction false} GroupsPairsMember(groups: seq<SubjectGrants>, p: Pair)
    ensures p in GroupsPairs(groups) <==> exists i :: 0 <= i < |groups| && p in SubjectPairs(groups[i])
  {
    hide SubjectPairs;
    if groups != [] {
      GroupsPairsMember(groups[..|groups| - 1], p);
    }
  }

  /** Neither the order of the groups nor repeating one changes the pairs. */
  lemma GroupOrder(user: SubjectGrants, groups: seq<SubjectGrants>, groups': seq<SubjectGrants>)
    requires forall g :: g in groups <==> g in groups'
    ensures UserPairs(UserGrants(user, groups)) == UserPairs(UserGrants(user, groups'))
  {
    hide SubjectPairs;
    forall p ensures p in GroupsPairs(groups) <==> p in GroupsPairs(groups') {
      GroupsPairsMember(groups, p);
      GroupsPairsMember(groups', p);
      if p in GroupsPairs(groups) {
        var i :| 0 <= i < |groups| && p in SubjectPairs(groups[i]);
        assert groups[i] in groups';
      }
      if p in GroupsPairs(groups') {
        var i :| 0 <= i < |groups'| && p in SubjectPairs(groups'[i]);
        assert groups'[i] in groups;
      }
    }
    assert GroupsPairs(groups) == GroupsPairs(groups');
  }

  // ----- Access sets -----

  ghost function KeyPairs(k: Key, q: seq<Access>): set<Pair> { set a | a in q :: (k, a) }

  lemma KeyPairsNext(before: set<Pair>, k: Key, q: seq<Access>, i: nat)
    requires i < |q|
    ensures before + KeyPairs(k, q[..i]) + {(k, q[i])} == before + KeyPairs(k, q[..i + 1])
  {
    assert q[..i + 1] == q[..i] + [q[i]];
    assert KeyPairs(k, q[..i + 1]) == KeyPairs(k, q[..i]) + {(k, q[i])};
  }

  lemma KeyPairsBounds(before: set<Pair>, k: Key, q: seq<Access>)
    ensures before + KeyPairs(k, q[..0]) == before && q[..|q|] == q
  {
  }

  /** The pairs whose key is listed. */
  ghost function Restrict(pairs: set<Pair>, keys: seq<Key>): set<Pair> { set p | p in pairs && p.0 in keys }

  /** One key's part of the pairs. */
  ghost function Slice(pairs: set<Pair>, k: Key): set<Pair> { set p | p in pairs && p.0 == k }

  lemma RestrictNext(before: set<Pair>, pairs: set<Pair>, keys: seq<Key>, i: nat)
    requires i < |keys|
    ensures before + Restrict(pairs, keys[..i]) + Slice(pairs, keys[i]) == before + Restrict(pairs, keys[..i + 1])
  {
    assert keys[..i + 1] == keys[..i] + [keys[i]];
    assert Restrict(pairs, keys[..i + 1]) == Restrict(pairs, keys[..i]) + Slice(pairs, keys[i]);
  }

  lemma RestrictBounds(before: set<Pair>, pairs: set<Pair>, keys: seq<Key>)
    requires forall p :: p in pairs ==> p.0 in keys
    ensures before + Restrict(pairs, keys[..0]) == before
    ensures before + Restrict(pairs, keys[..|keys|]) == before + pairs
  {
    assert keys[..|keys|] == keys;
    assert Restrict(pairs, keys) == pairs;
  }

  lemma SliceIs(pairs: set<Pair>, k: Key, q: seq<Access>)
    requires forall a :: (k, a) in pairs <==> a in q
    ensures Slice(pairs, k) == KeyPairs(k, q) && pairs + Slice(pairs, k) == pairs
  {
    forall p | p in Slice(pairs, k) ensures p in KeyPairs(k, q) {
      assert p == (k, p.1);
    }
  }

  /** A Go map, shared by reference. */
  class ResourceAccess {
    var entries: set<Access>

    constructor ()
      ensures entries == {}
    {
      entries := {};
    }
  }

  class AccessSet {
    var byKey: map<Key, ResourceAccess>
    ghost var repr: set<object>

    constructor ()
      ensures byKey == map[] && Valid() && fresh(repr) && Pairs() == {}
    {
      byKey := map[];
      repr := {this};
    }

    /** No two keys share a map. */
    ghost predicate Valid()
      reads this
    {
      && this in repr
      && (forall k :: k in byKey ==> byKey[k] in repr)
      && (forall j, k :: j in byKey && k in byKey && byKey[j] == byKey[k] ==> j == k)
    }

    ghost function Pairs(): set<Pair>
      requires Valid()
      reads this, repr
    {
      set k, a | k in byKey && a in byKey[k].entries :: (k, a)
    }

    lemma PairAt(k: Key)
      requires Valid() && k in byKey
      ensures forall a :: (k, a) in Pairs() <==> a in byKey[k].entries
    {
    }

    lemma PairKeys()
      requires Valid()
      ensures forall p :: p in Pairs() ==> p.0 in byKey.Keys
    {
    }

    method Put(k: Key, a: Access)
      requires Valid() && k in byKey
      modifies byKey[k]
      ensures Valid() && byKey == old(byKey) && repr == old(repr)
      ensures Pairs() == old(Pairs()) + {(k, a)}
    {
      var m := byKey[k];
      m.entries := m.entries + {a};
    }

    /** Makes sure the key has a map, a new one if need be. */
    method Reserve(k: Key)
      requires Valid()
      modifies this
      ensures Valid() && k in byKey && byKey[k] in repr && fresh(repr - old(repr)) && Pairs() == old(Pairs())
      ensures k in old(byKey) ==> byKey == old(byKey)
    {
      if k !in byKey {
        var empty := new ResourceAccess();
        byKey := byKey[k := empty];
        repr := repr + {empty};
      }
    }

    method Add(verb: string, group: string, resource: string, access: Access)
      requires Valid()
      modifies repr
      ensures Valid() && fresh(repr - old(repr))
      ensures Pairs() == old(Pairs()) + {(Key(verb, group, resource), access)}
    {
      hide Pairs;
      var k := Key(verb, group, resource);
      Reserve(k);
      Put(k, access);
    }

    /** Adds accesses under a key. */
    method PutAll(k: Key, q: seq<Access>)
      requires Valid()
      modifies repr
      ensures Valid() && fresh(repr - old(repr)) && (k in old(byKey) ==> byKey == old(byKey))
      ensures Pairs() == old(Pairs()) + KeyPairs(k, q)
    {
      assert this in repr;
      hide Pairs, KeyPairs, Valid;
      ghost var before := Pairs();
      Reserve(k);
      ghost var table, frame := byKey, repr;
      KeyPairsBounds(before, k, q);
      for i := 0 to |q|
        invariant byKey == table && repr == frame && Valid()
        invariant Pairs() == before + KeyPairs(k, q[..i])
      {
        Put(k, q[i]);
        KeyPairsNext(before, k, q, i);
      }
    }

    /** The two share nothing. */
    ghost predicate Apart(right: AccessSet)
      reads this, right
    {
      repr !! right.repr
    }

    method MergeKey(k: Key, right: AccessSet)
      requires Valid() && right.Valid() && (right == this || Apart(right)) && k in right.byKey
      modifies repr
      ensures Valid() && fresh(repr - old(repr))
      ensures right.Valid() && right.byKey == old(right.byKey) && right.Pairs() == old(right.Pairs())
      ensures right == this || Apart(right)
      ensures Pairs() == old(Pairs()) + Slice(old(right.Pairs()), k)
    {
      hide Pairs, KeyPairs, Slice;
      var q := Listed(right.byKey[k].entries);
      right.PairAt(k);
      SliceIs(right.Pairs(), k, q);
      PutAll(k, q);
    }

    /** Copies the entries of `right`, sharing none of its maps. */
    method Merge(right: AccessSet)
      requires Valid() && right.Valid() && (right == this || Apart(right))
      modifies repr
      ensures Valid() && fresh(repr - old(repr))
      ensures Pairs() == old(Pairs()) + old(right.Pairs())
      ensures right != this ==>
                && right.Valid() && right.Pairs() == old(right.Pairs())
                && right.byKey == old(right.byKey) && Apart(right)
    {
      hide Slice, Restrict, Pairs, Valid, Apart;
      ghost var before, start := Pairs(), right.Pairs();
      var keys := Listed(right.byKey.Keys);
      right.PairKeys();
      RestrictBounds(before, start, keys);
      for i := 0 to |keys|
        invariant right.byKey == old(right.byKey)
        invariant Valid() && fresh(repr - old(repr))
        invariant right == this || Apart(right)
        invariant right.Valid() && right.Pairs() == start
        invariant Pairs() == before + Restrict(start, keys[..i])
      {
        assert keys[i] in keys;
        MergeKey(keys[i], right);
        RestrictNext(before, start, keys, i);
      }
    }

    ghost predicate GrantsAt(k: Key, q: Request)
      requires Valid()
      reads this, repr
    {
      exists a :: (k, a) in Pairs() && a.Grants(q.namespace, q.name)
    }

    lemma GrantsSomewhere(q: Request)
      requires Valid()
      ensures Granted(Pairs(), q) <==> exists k :: KeyMatches(k, q.verb, q.group, q.resource) && GrantsAt(k, q)
    {
      hide Pairs, KeyMatches;
      if Granted(Pairs(), q) {
        var p :| p in Pairs() && KeyMatches(p.0, q.verb, q.group, q.resource) && p.1.Grants(q.namespace, q.name);
        assert p == (p.0, p.1);
        assert GrantsAt(p.0, q);
      }
      if k :| KeyMatches(k, q.verb, q.group, q.resource) && GrantsAt(k, q) {
        var a :| (k, a) in Pairs() && a.Grants(q.namespace, q.name);
        assert Granted(Pairs(), q);
      }
    }

    method GrantsUnder(k: Key, q: Request) returns (r: bool)
      requires Valid()
      ensures r <==> GrantsAt(k, q)
    {
      if k !in byKey {
        PairKeys();
        return false;
      }
      PairAt(k);
      var accesses := Listed(byKey[k].entries);
      for i := 0 to |accesses|
        invariant forall j :: 0 <= j < i ==> !accesses[j].Grants(q.namespace, q.name)
      {
        if accesses[i].Grants(q.namespace, q.name) {
          assert accesses[i] in accesses;
          return true;
        }
      }
      return false;
    }

    /** Looks the request up under the eight keys it can match. */
    method Grants(q: Request) returns (r: bool)
      requires Valid()
      ensures r <==> Granted(Pairs(), q)
    {
      hide GrantsAt, Pairs, Granted;
      GrantsSomewhere(q);
      var vs, gs, rs := [ALL, q.verb], [ALL, q.group], [ALL, q.resource];
      for i := 0 to 2
        invariant forall k: Key :: k.verb in vs[..i] && k.group in gs && k.resource in rs ==> !GrantsAt(k, q)
      {
        for j := 0 to 2
          invariant forall k: Key :: k.verb == vs[i] && k.group in gs[..j] && k.resource in rs ==> !GrantsAt(k, q)
        {
          for l := 0 to 2
            invariant forall k: Key :: k.verb == vs[i] && k.group == gs[j] && k.resource in rs[..l] ==> !GrantsAt(k, q)
          {
            r := GrantsUnder(Key(vs[i], gs[j], rs[l]), q);
            if r {
              return;
            }
            assert rs[..l + 1] == rs[..l] + [rs[l]];
          }
          assert rs[..2] == rs && gs[..j + 1] == gs[..j] + [gs[j]];
        }
        assert gs[..2] == gs && vs[..i + 1] == vs[..i] + [vs[i]];
      }
      assert vs[..2] == vs;
      r := false;
    }

    /** The accesses under the eight keys, each once, in any order. */
    method AccessListFor(verb: string, group: string, resource: string) returns (result: seq<Access>)
      requires Valid()
      ensures forall a :: a in result <==> exists k :: KeyMatches(k, verb, group, resource) && (k, a) in Pairs()
      ensures forall i, j :: 0 <= i < j < |result| ==> result[i] != result[j]
    {
      hide Pairs, Under, KeyMatches;
      ghost var pairs := Pairs();
      var dedup: set<Access> := {};
      var vs, gs, rs := [ALL, verb], [ALL, group], [ALL, resource];
      WholeList(vs);
      NothingUnder(pairs, {}, vs[..0], gs, rs);
      for i := 0 to 2
        invariant dedup == {} + Under(pairs, vs[..i], gs, rs)
      {
        ghost var d1 := dedup;
        WholeList(gs);
        NothingUnder(pairs, d1, [vs[i]], gs[..0], rs);
        for j := 0 to 2
          invariant dedup == d1 + Under(pairs, [vs[i]], gs[..j], rs)
        {
          ghost var d2 := dedup;
          WholeList(rs);
          NothingUnder(pairs, d2, [vs[i]], [gs[j]], rs[..0]);
          for l := 0 to 2
            invariant dedup == d2 + Under(pairs, [vs[i]], [gs[j]], rs[..l])
          {
            var k := Key(vs[i], gs[j], rs[l]);
            if k in byKey {
              PairAt(k);
              UnderKey(pairs, k, byKey[k].entries);
              dedup := dedup + byKey[k].entries;
            } else {
              PairKeys();
              UnderKey(pairs, k, {});
            }
            UnderResource(pairs, d2, vs[i], gs[j], rs, l);
          }
          UnderGroup(pairs, d1, vs[i], gs, rs, j);
        }
        UnderVerb(pairs, {}, vs, gs, rs, i);
      }
      KeysListed(pairs, verb, group, resource);
      result := Listed(dedup);
    }
  }

  /** The accesses under the keys that the lists spell out. */
  ghost function Under(pairs: set<Pair>, vs: seq<string>, gs: seq<string>, rs: seq<string>): set<Access> {
    set p | p in pairs && p.0.verb in vs && p.0.group in gs && p.0.resource in rs :: p.1
  }

  lemma NothingUnder(pairs: set<Pair>, before: set<Access>, vs: seq<string>, gs: seq<string>, rs: seq<string>)
    requires vs == [] || gs == [] || rs == []
    ensures before + Under(pairs, vs, gs, rs) == before
  {
  }

  lemma UnderKey(pairs: set<Pair>, k: Key, entries: set<Access>)
    requires forall a :: (k, a) in pairs <==> a in entries
    ensures Under(pairs, [k.verb], [k.group], [k.resource]) == entries
  {
    forall a | a in entries ensures a in Under(pairs, [k.verb], [k.group], [k.resource]) {
      assert (k, a) in pairs;
      assert (k, a).1 == a;
    }
    forall p | p in pairs && p.0.verb in [k.verb] && p.0.group in [k.group] && p.0.resource in [k.resource]
      ensures p.1 in entries
    {
      assert p == (k, p.1);
    }
  }

  lemma UnderResource(pairs: set<Pair>, before: set<Access>, v: string, g: string, rs: seq<string>, i: nat)
    requires i < |rs|
    ensures before + Under(pairs, [v], [g], rs[..i]) + Under(pairs, [v], [g], [rs[i]]) ==
            before + Under(pairs, [v], [g], rs[..i + 1])
  {
    assert rs[..i + 1] == rs[..i] + [rs[i]];
    assert Under(pairs, [v], [g], rs[..i + 1]) == Under(pairs, [v], [g], rs[..i]) + Under(pairs, [v], [g], [rs[i]]);
  }

  lemma UnderGroup(pairs: set<Pair>, before: set<Access>, v: string, gs: seq<string>, rs: seq<string>, i: nat)
    requires i < |gs|
    ensures before + Under(pairs, [v], gs[..i], rs) + Under(pairs, [v], [gs[i]], rs) ==
            before + Under(pairs, [v], gs[..i + 1], rs)
  {
    assert gs[..i + 1] == gs[..i] + [gs[i]];
    assert Under(pairs, [v], gs[..i + 1], rs) == Under(pairs, [v], gs[..i], rs) + Under(pairs, [v], [gs[i]], rs);
  }

  lemma UnderVerb(pairs: set<Pair>, before: set<Access>, vs: seq<string>, gs: seq<string>, rs: seq<string>, i: nat)
    requires i < |vs|
    ensures before + Under(pairs, vs[..i], gs, rs) + Under(pairs, [vs[i]], gs, rs) == before + Under(pairs, vs[..i + 1], gs, rs)
  {
    assert vs[..i + 1] == vs[..i] + [vs[i]];
    assert Under(pairs, vs[..i + 1], gs, rs) == Under(pairs, vs[..i], gs, rs) + Under(pairs, [vs[i]], gs, rs);
  }

  lemma KeysListed(pairs: set<Pair>, verb: string, group: string, resource: string)
    ensures forall a :: a in Under(pairs, [ALL, verb], [ALL, group], [ALL, resource]) <==>
                        exists k :: KeyMatches(k, verb, group, resource) && (k, a) in pairs
  {
    var vs, gs, rs := [ALL, verb], [ALL, group], [ALL, resource];
    forall a ensures a in Under(pairs, vs, gs, rs) <==> exists k :: KeyMatches(k, verb, group, resource) && (k, a) in pairs {
      if a in Under(pairs, vs, gs, rs) {
        var p :| p in pairs && p.0.verb in vs && p.0.group in gs && p.0.resource in rs && p.1 == a;
        assert KeyMatches(p.0, verb, group, resource) && (p.0, a) in pairs;
      }
      if k :| KeyMatches(k, verb, group, resource) && (k, a) in pairs {
        assert (k, a).0.verb in vs && (k, a).0.group in gs && (k, a).0.resource in rs && (k, a).1 == a;
      }
    }
  }

  predicate ListGrants(list: seq<Access>, ns: string, name: string) {
    exists i :: 0 <= i < |list| && list[i].Grants(ns, name)
  }

  /** Looking a request up and searching the list for its verb and resource give the same answer. */
  lemma ListAgrees(pairs: set<Pair>, list: seq<Access>, q: Request)
    requires forall a :: a in list <==> exists k :: KeyMatches(k, q.verb, q.group, q.resource) && (k, a) in pairs
    ensures ListGrants(list, q.namespace, q.name) <==> Granted(pairs, q)
  {
    hide KeyMatches;
    if ListGrants(list, q.namespace, q.name) {
      var i :| 0 <= i < |list| && list[i].Grants(q.namespace, q.name);
      assert list[i] in list;
      var k :| KeyMatches(k, q.verb, q.group, q.resource) && (k, list[i]) in pairs;
      assert (k, list[i]).1.Grants(q.namespace, q.name);
    }
    if Granted(pairs, q) {
      var p :| p in pairs && KeyMatches(p.0, q.verb, q.group, q.resource) && p.1.Grants(q.namespace, q.name);
      assert (p.0, p.1) in pairs;
      assert p.1 in list;
    }
  }

  // ----- Filling access sets -----

  lemma VerbNext(before: set<Pair>, ns: string, g: string, r: string, n: string, vs: seq<string>, i: nat)
    requires i < |vs|
    ensures before + ListPairs(ns, [g], [r], [n], vs[..i]) + {(Key(vs[i], g, r), AccessOf(ns, g, r, n))} ==
            before + ListPairs(ns, [g], [r], [n], vs[..i + 1])
  {
    hide AccessOf;
    assert vs[..i + 1] == vs[..i] + [vs[i]];
    assert ListPairs(ns, [g], [r], [n], vs[..i + 1]) ==
           ListPairs(ns, [g], [r], [n], vs[..i]) + {(Key(vs[i], g, r), AccessOf(ns, g, r, n))};
  }

  lemma NameNext(before: set<Pair>, ns: string, g: string, r: string, names: seq<string>, vs: seq<string>, i: nat)
    requires i < |names|
    ensures before + ListPairs(ns, [g], [r], names[..i], vs) + ListPairs(ns, [g], [r], [names[i]], vs) ==
            before + ListPairs(ns, [g], [r], names[..i + 1], vs)
  {
    hide AccessOf;
    assert names[..i + 1] == names[..i] + [names[i]];
    assert ListPairs(ns, [g], [r], names[..i + 1], vs) ==
           ListPairs(ns, [g], [r], names[..i], vs) + ListPairs(ns, [g], [r], [names[i]], vs);
  }

  lemma ResourceNext(before: set<Pair>, ns: string, g: string, rs: seq<string>, names: seq<string>, vs: seq<string>, i: nat)
    requires i < |rs|
    ensures before + ListPairs(ns, [g], rs[..i], names, vs) + ListPairs(ns, [g], [rs[i]], names, vs) ==
            before + ListPairs(ns, [g], rs[..i + 1], names, vs)
  {
    hide AccessOf;
    assert rs[..i + 1] == rs[..i] + [rs[i]];
    assert ListPairs(ns, [g], rs[..i + 1], names, vs) ==
           ListPairs(ns, [g], rs[..i], names, vs) + ListPairs(ns, [g], [rs[i]], names, vs);
  }

  lemma GroupNext(before: set<Pair>, ns: string, gs: seq<string>, rs: seq<string>, names: seq<string>, vs: seq<string>, i: nat)
    requires i < |gs|
    ensures before + ListPairs(ns, gs[..i], rs, names, vs) + ListPairs(ns, [gs[i]], rs, names, vs) ==
            before + ListPairs(ns, gs[..i + 1], rs, names, vs)
  {
    hide AccessOf;
    assert gs[..i + 1] == gs[..i] + [gs[i]];
    assert ListPairs(ns, gs[..i + 1], rs, names, vs) ==
           ListPairs(ns, gs[..i], rs, names, vs) + ListPairs(ns, [gs[i]], rs, names, vs);
  }

  lemma NoPairs(before: set<Pair>, ns: string, gs: seq<string>, rs: seq<string>, names: seq<string>, vs: seq<string>)
    requires gs == [] || rs == [] || names == [] || vs == []
    ensures before + ListPairs(ns, gs, rs, names, vs) == before
  {
  }

  lemma WholeList(xs: seq<string>)
    ensures xs[..|xs|] == xs && xs[..0] == []
  {
  }

  method AddResourceAccess(accessSet: AccessSet, namespace: string, rule: Rule)
    requires accessSet.Valid()
    modifies accessSet.repr
    ensures accessSet.Valid() && fresh(accessSet.repr - old(accessSet.repr))
    ensures accessSet.Pairs() == old(accessSet.Pairs()) + RulePairs(namespace, rule)
  {
    hide ListPairs, AccessSet.Pairs, AccessSet.Valid;
    var gs, rs, vs := rule.groups, rule.resources, rule.verbs;
    ghost var ns := NamesOf(rule);
    ghost var b0 := accessSet.Pairs();
    WholeList(gs);
    NoPairs(b0, namespace, gs[..0], rs, ns, vs);
    for i := 0 to |gs|
      invariant accessSet.Valid() && fresh(accessSet.repr - old(accessSet.repr))
      invariant accessSet.Pairs() == b0 + ListPairs(namespace, gs[..i], rs, ns, vs)
    {
      ghost var b1 := accessSet.Pairs();
      WholeList(rs);
      NoPairs(b1, namespace, [gs[i]], rs[..0], ns, vs);
      for j := 0 to |rs|
        invariant accessSet.Valid() && fresh(accessSet.repr - old(accessSet.repr))
        invariant accessSet.Pairs() == b1 + ListPairs(namespace, [gs[i]], rs[..j], ns, vs)
      {
        var names := rule.names;
        if |names| == 0 {
          names := [ALL];
        }
        ghost var b2 := accessSet.Pairs();
        WholeList(names);
        NoPairs(b2, namespace, [gs[i]], [rs[j]], names[..0], vs);
        for k := 0 to |names|
          invariant accessSet.Valid() && fresh(accessSet.repr - old(accessSet.repr))
          invariant accessSet.Pairs() == b2 + ListPairs(namespace, [gs[i]], [rs[j]], names[..k], vs)
        {
          ghost var b3 := accessSet.Pairs();
          WholeList(vs);
          NoPairs(b3, namespace, [gs[i]], [rs[j]], [names[k]], vs[..0]);
          for l := 0 to |vs|
            invariant accessSet.Valid() && fresh(accessSet.repr - old(accessSet.repr))
            invariant accessSet.Pairs() == b3 + ListPairs(namespace, [gs[i]], [rs[j]], [names[k]], vs[..l])
          {
            var access := Access(namespace, names[k]);
            if namespace != ALL && rs[j] == "namespaces" && gs[i] == "" && (names[k] == ALL || names[k] == namespace) {
              access := Access(ALL, namespace);
            }
            accessSet.Add(vs[l], gs[i], rs[j], access);
            VerbNext(b3, namespace, gs[i], rs[j], names[k], vs, l);
          }
          NameNext(b2, namespace, gs[i], rs[j], names, vs, k);
        }
        ResourceNext(b1, namespace, gs[i], rs, ns, vs, j);
      }
      GroupNext(b0, namespace, gs, rs, ns, vs, i);
    }
  }

  lemma NoResources(ns: string, rule: Rule)
    requires rule.resources == []
    ensures RulePairs(ns, rule) == {}
  {
  }

  lemma RulesNext(before: set<Pair>, ns: string, rules: seq<Rule>, i: nat)
    requires i < |rules|
    ensures before + RulesPairs(ns, rules[..i]) + RulePairs(ns, rules[i]) == before + RulesPairs(ns, rules[..i + 1])
  {
    hide RulePairs;
    assert rules[..i + 1][..i] == rules[..i];
  }

  method AddAccess(accessSet: AccessSet, namespace: string, role: RoleRef)
    requires accessSet.Valid()
    modifies accessSet.repr
    ensures accessSet.Valid() && fresh(accessSet.repr - old(accessSet.repr))
    ensures accessSet.Pairs() == old(accessSet.Pairs()) + RulesPairs(namespace, role.rules)
  {
    hide AccessSet.Pairs, AccessSet.Valid, RulePairs;
    ghost var before := accessSet.Pairs();
    for i := 0 to |role.rules|
      invariant accessSet.Valid() && fresh(accessSet.repr - old(accessSet.repr))
      invariant accessSet.Pairs() == before + RulesPairs(namespace, role.rules[..i])
    {
      var rule := role.rules[i];
      if |rule.resources| > 0 {
        AddResourceAccess(accessSet, namespace, rule);
      } else {
        NoResources(namespace, rule);
      }
      RulesNext(before, namespace, role.rules, i);
    }
    assert role.rules[..|role.rules|] == role.rules;
  }

  method ToAccessSet(s: SubjectGrants) returns (result: AccessSet)
    ensures result.Valid() && fresh(result.repr) && result.Pairs() == SubjectPairs(s)
  {
    hide AccessSet.Pairs, AccessSet.Valid, RulesPairs;
    result := new AccessSet();
    for i := 0 to |s.roleBindings|
      invariant result.Valid() && fresh(result.repr)
      invariant result.Pairs() == RolesPairs(s.roleBindings[..i])
    {
      AddAccess(result, s.roleBindings[i].namespace, s.roleBindings[i]);
      assert s.roleBindings[..i + 1][..i] == s.roleBindings[..i];
    }
    assert s.roleBindings[..|s.roleBindings|] == s.roleBindings;
    ghost var roles := RolesPairs(s.roleBindings);
    for i := 0 to |s.clusterRoleBindings|
      invariant result.Valid() && fresh(result.repr)
      invariant result.Pairs() == roles + ClusterPairs(s.clusterRoleBindings[..i])
    {
      AddAccess(result, ALL, s.clusterRoleBindings[i]);
      assert s.clusterRoleBindings[..i + 1][..i] == s.clusterRoleBindings[..i];
    }
    assert s.clusterRoleBindings[..|s.clusterRoleBindings|] == s.clusterRoleBindings;
  }

  /** A user's access set; it grants exactly what the rules allow. */
  method NewAccessSet(info: UserGrants) returns (result: AccessSet)
    ensures result.Valid() && fresh(result.repr) && result.Pairs() == UserPairs(info)
    ensures forall q :: Granted(result.Pairs(), q) <==> UserAllows(info, q)
  {
    hide AccessSet.Pairs, AccessSet.Valid, SubjectPairs, Granted, UserAllows;
    result := ToAccessSet(info.user);
    ghost var user := result.Pairs();
    for i := 0 to |info.groups|
      invariant result.Valid() && fresh(result.repr)
      invariant result.Pairs() == user + GroupsPairs(info.groups[..i])
    {
      var group := ToAccessSet(info.groups[i]);
      result.Merge(group);
      assert info.groups[..i + 1][..i] == info.groups[..i];
    }
    assert info.groups[..|info.groups|] == info.groups;
    forall q ensures Granted(result.Pairs(), q) <==> UserAllows(info, q) {
      UserAgrees(info, q);
    }
  }
}
