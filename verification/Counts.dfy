/**
 Counts of objects by state and namespace, as values (pkg/resources/counts/counts.go), and why
 keeping them up to date event by event gives the same as recounting.
 */
module Counts {
  import opened Prelude

  /** What counts about an object. */
  datatype Info = Info(error: bool, transitioning: bool)

  datatype Obj = Obj(namespace: string, info: Info)

  datatype SummaryValue = SummaryValue(count: int, states: map<string, int>, error: int, transitioning: int)

  const NO_SUMMARY := SummaryValue(0, map[], 0, 0)

  datatype ItemValue = ItemValue(summary: SummaryValue, namespaces: map<string, SummaryValue>, revision: int)

  function SimpleState(s: Info): string { if s.error then "error" else if s.transitioning then "in-progress" else "" }

  function StateCount(states: map<string, int>, state: string): int { if state in states then states[state] else 0 }

  function BoolInt(b: bool): int { if b then 1 else 0 }

  /** The summary with an object more (sign 1) or less (sign -1). */
  function Changed(v: SummaryValue, s: Info, sign: int): SummaryValue {
    var state := SimpleState(s);
    SummaryValue(
      v.count + sign,
      if state == "" then v.states else v.states[state := StateCount(v.states, state) + sign],
      v.error + sign * BoolInt(s.error),
      v.transitioning + sign * BoolInt(s.transitioning))
  }

  function NamespaceAt(v: ItemValue, ns: string): SummaryValue { if ns in v.namespaces then v.namespaces[ns] else NO_SUMMARY }

  function ItemChanged(v: ItemValue, ns: string, s: Info, sign: int): ItemValue {
    v.(summary := Changed(v.summary, s, sign),
       namespaces := if ns == "" then v.namespaces else v.namespaces[ns := Changed(NamespaceAt(v, ns), s, sign)])
  }

  /** `was` is the object's previous state, for changes. */
  datatype Event = Event(add: bool, key: string, obj: Obj, revision: int, was: Option<Info>)

  predicate SameInfo(a: Info, b: Info) {
    a.transitioning == b.transitioning && a.error == b.error && SimpleState(a) == SimpleState(b)
  }

  /** Whether the event is counted. */
  predicate Counted(v: ItemValue, e: Event) {
    e.revision > v.revision && !(e.was.Some? && SameInfo(e.was.value, e.obj.info))
  }

  function Step(v: ItemValue, e: Event): ItemValue {
    if !Counted(v, e) then v
    else if e.was.Some? then ItemChanged(ItemChanged(v, e.obj.namespace, e.was.value, -1), e.obj.namespace, e.obj.info, 1)
    else ItemChanged(v, e.obj.namespace, e.obj.info, if e.add then 1 else -1)
  }

  // ----- Recounting -----

  type Objects = map<string, Obj>

  /** Which objects a number counts: all or those in a namespace, in whatever or a given state. */
  datatype Scope = Everywhere | In(namespace: string)

  datatype What = Any | Erring | Transitioning | InState(state: string)

  predicate Within(o: Obj, scope: Scope) { scope.In? ==> o.namespace == scope.namespace }

  predicate Passes(o: Obj, scope: Scope, what: What) {
    && Within(o, scope)
    && match what
       case Any => true
       case Erring => o.info.error
       case Transitioning => o.info.transitioning
       case InState(state) =>
         (state == "error" && o.info.error) || (state == "in-progress" && !o.info.error && o.info.transitioning)
  }

  function Keys(objs: Objects, scope: Scope, what: What): set<string> { set k | k in objs && Passes(objs[k], scope, what) }

  /** The summary counts the objects within the scope; missing states count as zero. */
  ghost predicate Counts(v: SummaryValue, objs: Objects, scope: Scope) {
    && v.count == |Keys(objs, scope, Any)|
    && v.error == |Keys(objs, scope, Erring)|
    && v.transitioning == |Keys(objs, scope, Transitioning)|
    && forall st :: StateCount(v.states, st) == |Keys(objs, scope, InState(st))|
  }

  /** The counts are those of the objects, all of them and by namespace. */
  ghost predicate Recounts(v: ItemValue, objs: Objects) {
    && Counts(v.summary, objs, Everywhere)
    && forall ns :: ns != "" ==> Counts(NamespaceAt(v, ns), objs, In(ns))
  }

  lemma KeysGrow(objs: Objects, k: string, o: Obj, scope: Scope, what: What)
    requires k !in objs
    ensures k !in Keys(objs, scope, what)
    ensures Keys(objs[k := o], scope, what) == Keys(objs, scope, what) + if Passes(o, scope, what) then {k} else {}
  {
    hide Passes;
    var objs' := objs[k := o];
    forall j ensures j in objs' && Passes(objs'[j], scope, what) <==>
                     (j in objs && Passes(objs[j], scope, what)) || (j == k && Passes(o, scope, what))
    {
    }
  }

  lemma KeysAdd(objs: Objects, k: string, o: Obj, scope: Scope, what: What)
    requires k !in objs
    ensures |Keys(objs[k := o], scope, what)| == |Keys(objs, scope, what)| + BoolInt(Passes(o, scope, what))
  {
    hide Passes, Keys;
    KeysGrow(objs, k, o, scope, what);
    if !Passes(o, scope, what) {
      assert Keys(objs, scope, what) + {} == Keys(objs, scope, what);
    }
  }

  lemma KeysRemove(objs: Objects, k: string, scope: Scope, what: What)
    requires k in objs
    ensures |Keys(objs - {k}, scope, what)| == |Keys(objs, scope, what)| - BoolInt(Passes(objs[k], scope, what))
  {
    assert objs == (objs - {k})[k := objs[k]];
    KeysAdd(objs - {k}, k, objs[k], scope, what);
  }

  /** Counting one object more keeps a summary right. */
  lemma CountsAdd(v: SummaryValue, objs: Objects, k: string, o: Obj, scope: Scope)
    requires Counts(v, objs, scope) && k !in objs
    ensures Counts(if Within(o, scope) then Changed(v, o.info, 1) else v, objs[k := o], scope)
  {
    hide Keys;
    KeysAdd(objs, k, o, scope, Any);
    KeysAdd(objs, k, o, scope, Erring);
    KeysAdd(objs, k, o, scope, Transitioning);
    forall st
      ensures |Keys(objs[k := o], scope, InState(st))| ==
              |Keys(objs, scope, InState(st))| + BoolInt(Within(o, scope) && st != "" && SimpleState(o.info) == st)
    {
      KeysAdd(objs, k, o, scope, InState(st));
    }
  }

  lemma CountsRemove(v: SummaryValue, objs: Objects, k: string, scope: Scope)
    requires Counts(v, objs, scope) && k in objs
    ensures Counts(if Within(objs[k], scope) then Changed(v, objs[k].info, -1) else v, objs - {k}, scope)
  {
    hide Keys;
    KeysRemove(objs, k, scope, Any);
    KeysRemove(objs, k, scope, Erring);
    KeysRemove(objs, k, scope, Transitioning);
    forall st
      ensures |Keys(objs - {k}, scope, InState(st))| ==
              |Keys(objs, scope, InState(st))| - BoolInt(Within(objs[k], scope) && st != "" && SimpleState(objs[k].info) == st)
    {
      KeysRemove(objs, k, scope, InState(st));
    }
  }

  lemma RecountsAdd(v: ItemValue, objs: Objects, k: string, o: Obj)
    requires Recounts(v, objs) && k !in objs
    ensures Recounts(ItemChanged(v, o.namespace, o.info, 1), objs[k := o])
  {
    hide Counts, Changed;
    var v' := ItemChanged(v, o.namespace, o.info, 1);
    CountsAdd(v.summary, objs, k, o, Everywhere);
    forall ns | ns != "" ensures Counts(NamespaceAt(v', ns), objs[k := o], In(ns)) {
      CountsAdd(NamespaceAt(v, ns), objs, k, o, In(ns));
    }
  }

  lemma RecountsRemove(v: ItemValue, objs: Objects, k: string)
    requires Recounts(v, objs) && k in objs
    ensures Recounts(ItemChanged(v, objs[k].namespace, objs[k].info, -1), objs - {k})
  {
    hide Counts, Changed;
    var v' := ItemChanged(v, objs[k].namespace, objs[k].info, -1);
    CountsRemove(v.summary, objs, k, Everywhere);
    forall ns | ns != "" ensures Counts(NamespaceAt(v', ns), objs - {k}, In(ns)) {
      CountsRemove(NamespaceAt(v, ns), objs, k, In(ns));
    }
  }

  // ----- Runs -----

  /** The event fits the objects: additions are new, changes and removals report the state last seen, and
      an object stays in its namespace. */
  predicate Legal(objs: Objects, e: Event) {
    if e.was.Some? then
      e.key in objs && objs[e.key].info == e.was.value && objs[e.key].namespace == e.obj.namespace
    else if e.add then e.key !in objs
    else e.key in objs && objs[e.key] == e.obj
  }

  function Apply(objs: Objects, e: Event): Objects {
    if e.was.None? && !e.add then objs - {e.key} else objs[e.key := e.obj]
  }

  lemma SameInfoIsSame(a: Info, b: Info)
    ensures SameInfo(a, b) <==> a == b
  {
  }

  /** Each event keeps the counts right. */
  lemma StepRecounts(v: ItemValue, objs: Objects, e: Event)
    requires Recounts(v, objs) && Legal(objs, e) && e.revision > v.revision
    ensures Recounts(Step(v, e), Apply(objs, e)) && Step(v, e).revision == v.revision
  {
    hide Recounts, ItemChanged;
    RevisionKept(v, e);
    if e.was.Some? {
      SameInfoIsSame(e.was.value, e.obj.info);
      if e.was.value == e.obj.info {
        assert objs[e.key := e.obj] == objs;
      } else {
        RecountsRemove(v, objs, e.key);
        RecountsAdd(ItemChanged(v, e.obj.namespace, e.was.value, -1), objs - {e.key}, e.key, e.obj);
        assert (objs - {e.key})[e.key := e.obj] == objs[e.key := e.obj];
      }
    } else if e.add {
      RecountsAdd(v, objs, e.key, e.obj);
    } else {
      RecountsRemove(v, objs, e.key);
    }
  }

  lemma RevisionKept(v: ItemValue, e: Event)
    ensures Step(v, e).revision == v.revision
  {
  }

  function Run(v: ItemValue, es: seq<Event>): ItemValue {
    if es == [] then v else Step(Run(v, es[..|es| - 1]), es[|es| - 1])
  }

  function RunObjects(objs: Objects, es: seq<Event>): Objects {
    if es == [] then objs else Apply(RunObjects(objs, es[..|es| - 1]), es[|es| - 1])
  }

  ghost predicate LegalRun(objs: Objects, revision: int, es: seq<Event>) {
    forall i :: 0 <= i < |es| ==> Legal(RunObjects(objs, es[..i]), es[i]) && es[i].revision > revision
  }

  lemma {:induction false} RunRecounts(v: ItemValue, objs: Objects, es: seq<Event>)
    requires Recounts(v, objs) && LegalRun(objs, v.revision, es)
    ensures Recounts(Run(v, es), RunObjects(objs, es)) && Run(v, es).revision == v.revision
  {
    hide Recounts, Step, Apply, Legal;
    if es != [] {
      var n := |es| - 1;
      assert forall i :: 0 <= i < n ==> es[..n][..i] == es[..i];
      RunRecounts(v, objs, es[..n]);
      StepRecounts(Run(v, es[..n]), RunObjects(objs, es[..n]), es[n]);
    }
  }

  /** After every legal run the counts are a recount of the current objects, so none is negative. */
  lemma NeverNegative(v: ItemValue, objs: Objects, es: seq<Event>, ns: string, st: string)
    requires Recounts(v, objs) && LegalRun(objs, v.revision, es) && st != ""
    ensures var r := Run(v, es);
            && r.summary.count == |RunObjects(objs, es)|
            && r.summary.error >= 0 && r.summary.transitioning >= 0 && StateCount(r.summary.states, st) >= 0
            && (ns != "" ==> NamespaceAt(r, ns).count >= 0 && NamespaceAt(r, ns).error >= 0
                             && NamespaceAt(r, ns).transitioning >= 0 && StateCount(NamespaceAt(r, ns).states, st) >= 0)
  {
    hide Run, LegalRun;
    RunRecounts(v, objs, es);
    assert Keys(RunObjects(objs, es), Everywhere, Any) == RunObjects(objs, es).Keys;
  }

  // ----- Exactly the legal events keep the counts right -----

  /** The numbers that tell two recounts apart. */
  ghost predicate SameNumbers(a: SummaryValue, b: SummaryValue) {
    a.count == b.count && a.error == b.error && a.transitioning == b.transitioning
  }

  lemma RecountUnique(v: ItemValue, v': ItemValue, objs: Objects, ns: string)
    requires Recounts(v, objs) && Recounts(v', objs)
    ensures SameNumbers(v.summary, v'.summary)
    ensures ns != "" ==> SameNumbers(NamespaceAt(v, ns), NamespaceAt(v', ns))
  {
    hide Keys;
  }

  /** What the counts of the objects after the event are, starting from right ones. */
  function Truth(v: ItemValue, objs: Objects, e: Event): ItemValue {
    var without := if e.key in objs then ItemChanged(v, objs[e.key].namespace, objs[e.key].info, -1) else v;
    if e.was.None? && !e.add then without else ItemChanged(without, e.obj.namespace, e.obj.info, 1)
  }

  lemma TruthRecounts(v: ItemValue, objs: Objects, e: Event)
    requires Recounts(v, objs)
    ensures Recounts(Truth(v, objs, e), Apply(objs, e))
  {
    hide Recounts, ItemChanged;
    var rest := objs - {e.key};
    var without := if e.key in objs then ItemChanged(v, objs[e.key].namespace, objs[e.key].info, -1) else v;
    if e.key in objs {
      RecountsRemove(v, objs, e.key);
    } else {
      assert rest == objs;
    }
    if e.was.Some? || e.add {
      RecountsAdd(without, rest, e.key, e.obj);
      assert rest[e.key := e.obj] == objs[e.key := e.obj];
    }
  }

  /** An event that is counted keeps the counts a recount if and only if it is legal. */
  lemma StepRecountsIff(v: ItemValue, objs: Objects, e: Event)
    requires Recounts(v, objs) && e.revision > v.revision
    ensures Recounts(Step(v, e), Apply(objs, e)) <==> Legal(objs, e)
  {
    hide Recounts;
    if Legal(objs, e) {
      StepRecounts(v, objs, e);
    } else if Recounts(Step(v, e), Apply(objs, e)) {
      TruthRecounts(v, objs, e);
      RecountUnique(Step(v, e), Truth(v, objs, e), Apply(objs, e), e.obj.namespace);
      if e.key in objs {
        RecountUnique(Step(v, e), Truth(v, objs, e), Apply(objs, e), objs[e.key].namespace);
      }
      IllegalNumbers(v, objs, e);
    }
  }

  /** An illegal event gives wrong numbers somewhere. */
  lemma IllegalNumbers(v: ItemValue, objs: Objects, e: Event)
    requires !Legal(objs, e) && e.revision > v.revision
    ensures var s, t := Step(v, e), Truth(v, objs, e);
            || !SameNumbers(s.summary, t.summary)
            || (e.obj.namespace != "" && !SameNumbers(NamespaceAt(s, e.obj.namespace), NamespaceAt(t, e.obj.namespace)))
            || (e.key in objs && objs[e.key].namespace != ""
                && !SameNumbers(NamespaceAt(s, objs[e.key].namespace), NamespaceAt(t, objs[e.key].namespace)))
  {
    if e.was.Some? {
      SameInfoIsSame(e.was.value, e.obj.info);
    }
  }

  /** An event that is not counted, because of its revision, keeps the counts a recount if and only if
      it changes nothing. */
  lemma IgnoredRecountsIff(v: ItemValue, objs: Objects, e: Event)
    requires Recounts(v, objs) && e.revision <= v.revision
    ensures Recounts(Step(v, e), Apply(objs, e)) <==> Apply(objs, e) == objs
  {
    hide Recounts;
    if Apply(objs, e) != objs && Recounts(v, Apply(objs, e)) {
      TruthRecounts(v, objs, e);
      RecountUnique(v, Truth(v, objs, e), Apply(objs, e), e.obj.namespace);
      if e.key in objs {
        RecountUnique(v, Truth(v, objs, e), Apply(objs, e), objs[e.key].namespace);
      }
      ChangeShows(v, objs, e);
    }
  }

  lemma ChangeShows(v: ItemValue, objs: Objects, e: Event)
    requires Apply(objs, e) != objs
    ensures var t := Truth(v, objs, e);
            || !SameNumbers(v.summary, t.summary)
            || (e.obj.namespace != "" && !SameNumbers(NamespaceAt(v, e.obj.namespace), NamespaceAt(t, e.obj.namespace)))
            || (e.key in objs && objs[e.key].namespace != ""
                && !SameNumbers(NamespaceAt(v, objs[e.key].namespace), NamespaceAt(t, objs[e.key].namespace)))
  {
    if e.key in objs {
      assert objs[e.key := objs[e.key]] == objs;
    } else {
      assert objs - {e.key} == objs;
    }
  }

  /** The counts are a recount all along a run of events with newer revisions if and only if every event
      is legal. */
  lemma RunRecountsIff(v: ItemValue, objs: Objects, es: seq<Event>)
    requires Recounts(v, objs) && forall i :: 0 <= i < |es| ==> es[i].revision > v.revision
    ensures (forall i :: 0 <= i <= |es| ==> Recounts(Run(v, es[..i]), RunObjects(objs, es[..i]))) <==>
            LegalRun(objs, v.revision, es)
  {
    hide Recounts, Step, Apply, Legal;
    if LegalRun(objs, v.revision, es) {
      forall i | 0 <= i <= |es| ensures Recounts(Run(v, es[..i]), RunObjects(objs, es[..i])) {
        assert forall j :: 0 <= j < i ==> es[..i][..j] == es[..j];
        RunRecounts(v, objs, es[..i]);
      }
    }
    if forall i :: 0 <= i <= |es| ==> Recounts(Run(v, es[..i]), RunObjects(objs, es[..i])) {
      forall i | 0 <= i < |es| ensures Legal(RunObjects(objs, es[..i]), es[i]) {
        assert es[..i + 1][..i] == es[..i];
        assert Recounts(Run(v, es[..i]), RunObjects(objs, es[..i]));
        assert Recounts(Run(v, es[..i + 1]), RunObjects(objs, es[..i + 1]));
        RunRevision(v, es[..i]);
        StepRecountsIff(Run(v, es[..i]), RunObjects(objs, es[..i]), es[i]);
      }
    }
  }

  lemma {:induction false} RunRevision(v: ItemValue, es: seq<Event>)
    ensures Run(v, es).revision == v.revision
  {
    hide Step;
    if es != [] {
      RunRevision(v, es[..|es| - 1]);
      RevisionKept(Run(v, es[..|es| - 1]), es[|es| - 1]);
    }
  }

  /** An object reported as removed in another state than the one counted drives a count below zero. */
  lemma WrongRemoval()
    ensures var objs := map["a" := Obj("", Info(true, false))];
            var v := ItemValue(SummaryValue(1, map["error" := 1], 1, 0), map[], 0);
            var e := Event(false, "a", Obj("", Info(false, true)), 1, None);
            Recounts(v, objs) && !Legal(objs, e) && Step(v, e).summary.transitioning == -1
  {
    var o := Obj("", Info(true, false));
    var v := ItemValue(SummaryValue(1, map["error" := 1], 1, 0), map[], 0);
    NothingCounted();
    RecountsAdd(ItemValue(NO_SUMMARY, map[], 0), map[], "a", o);
    assert ItemChanged(ItemValue(NO_SUMMARY, map[], 0), "", o.info, 1) == v;
    assert map[]["a" := o] == map["a" := o];
  }

  lemma NothingCounted()
    ensures Recounts(ItemValue(NO_SUMMARY, map[], 0), map[])
  {
    forall scope, what ensures Keys(map[], scope, what) == {} {
    }
  }

  // ----- The first count -----

  /** A listed object; None when it cannot be read. `granted` is what the access lists say. */
  datatype Entry = Entry(key: string, obj: Option<Obj>, revision: int, granted: bool)

  predicate Visible(e: Entry) { e.obj.Some? && e.granted }

  function Tally(entries: seq<Entry>): ItemValue {
    if entries == [] then ItemValue(NO_SUMMARY, map[], 0)
    else
      var e, before := entries[|entries| - 1], Tally(entries[..|entries| - 1]);
      if !Visible(e) then before
      else ItemChanged(before, e.obj.value.namespace, e.obj.value.info, 1)
           .(revision := if e.revision > before.revision then e.revision else before.revision)
  }

  function ObjectsOf(entries: seq<Entry>): Objects {
    if entries == [] then map[]
    else
      var e, before := entries[|entries| - 1], ObjectsOf(entries[..|entries| - 1]);
      if Visible(e) then before[e.key := e.obj.value] else before
  }

  lemma {:induction false} ObjectsFrom(entries: seq<Entry>, k: string)
    ensures k in ObjectsOf(entries) ==> exists i :: 0 <= i < |entries| && entries[i].key == k
  {
    if entries != [] {
      ObjectsFrom(entries[..|entries| - 1], k);
    }
  }

  /** The objects that are counted first: those that can be read and are granted. */
  lemma {:induction false} ObjectsAre(entries: seq<Entry>, k: string, o: Obj)
    requires forall i, j :: 0 <= i < j < |entries| ==> entries[i].key != entries[j].key
    ensures k in ObjectsOf(entries) && ObjectsOf(entries)[k] == o <==>
            exists i :: 0 <= i < |entries| && entries[i].key == k && entries[i].obj == Some(o) && entries[i].granted
  {
    if entries != [] {
      var n := |entries| - 1;
      ObjectsAre(entries[..n], k, o);
      if entries[n].key == k && Visible(entries[n]) {
        assert ObjectsOf(entries)[k] == entries[n].obj.value;
      }
    }
  }

  /** The first count is a recount of them, and its revision is the newest of theirs. */
  lemma {:induction false} TallyRecounts(entries: seq<Entry>)
    requires forall i, j :: 0 <= i < j < |entries| ==> entries[i].key != entries[j].key
    ensures Recounts(Tally(entries), ObjectsOf(entries))
    ensures forall i :: 0 <= i < |entries| && entries[i].obj.Some? && entries[i].granted ==>
              entries[i].revision <= Tally(entries).revision
    ensures Tally(entries).revision == 0
            || exists i :: 0 <= i < |entries| && entries[i].obj.Some? && entries[i].granted
                           && entries[i].revision == Tally(entries).revision
  {
    hide Recounts, ItemChanged;
    if entries == [] {
      NothingCounted();
    } else {
      var n := |entries| - 1;
      var e := entries[n];
      TallyRecounts(entries[..n]);
      if Visible(e) {
        ObjectsFrom(entries[..n], e.key);
        RecountsAdd(Tally(entries[..n]), ObjectsOf(entries[..n]), e.key, e.obj.value);
        var v := ItemChanged(Tally(entries[..n]), e.obj.value.namespace, e.obj.value.info, 1);
        RevisionIgnored(v, Tally(entries).revision, ObjectsOf(entries));
        assert Tally(entries).revision >= Tally(entries[..n]).revision;
      }
    }
  }

  lemma RevisionIgnored(v: ItemValue, revision: int, objs: Objects)
    requires Recounts(v, objs)
    ensures Recounts(v.(revision := revision), objs)
  {
    hide Counts;
    var v' := v.(revision := revision);
    forall ns | ns != "" ensures Counts(NamespaceAt(v', ns), objs, In(ns)) {
      assert NamespaceAt(v', ns) == NamespaceAt(v, ns);
    }
  }
}
