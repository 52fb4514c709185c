/**
 The watch on counts (pkg/resources/counts/counts.go). Go maps are shared by reference: the counts
 kept between events are updated in place, while what is sent is a deep copy.
 */
module CountsWatch {
  import opened Prelude
  import opened Counts

  class StateMap {
    var m: map<string, int>

    constructor (m: map<string, int>)
      ensures this.m == m
    {
      this.m := m;
    }
  }

  /** A nil map of states is null. */
  datatype Summary = Summary(count: int, states: StateMap?, error: int, transitioning: int)

  const ZERO := Summary(0, null, 0, 0)

  class NamespaceMap {
    var m: map<string, Summary>

    constructor ()
      ensures m == map[]
    {
      m := map[];
    }
  }

  datatype ItemCount = ItemCount(summary: Summary, namespaces: NamespaceMap, revision: int)

  // ----- What the maps hold -----

  ghost function SummaryOf(s: Summary): SummaryValue
    reads s.states
  {
    SummaryValue(s.count, if s.states == null then map[] else s.states.m, s.error, s.transitioning)
  }

  /** The maps of an item lie in `repr`, and no two summaries share theirs. */
  ghost predicate ItemOk(i: ItemCount, repr: set<object>)
    reads repr
  {
    && i.namespaces in repr
    && var m := i.namespaces.m;
    && (i.summary.states != null ==> i.summary.states in repr)
    && (forall n :: n in m && m[n].states != null ==> m[n].states in repr && m[n].states != i.summary.states)
    && (forall j, n :: j in m && n in m && j != n && m[j].states != null ==> m[j].states != m[n].states)
  }

  ghost function ItemOf(i: ItemCount, repr: set<object>): ItemValue
    requires ItemOk(i, repr)
    reads repr
  {
    ItemValue(SummaryOf(i.summary), map n | n in i.namespaces.m :: SummaryOf(i.namespaces.m[n]), i.revision)
  }

  // ----- Adding and removing -----

  method AddSummary(counts: Summary, s: Info) returns (r: Summary)
    modifies counts.states
    ensures SummaryOf(r) == Changed(old(SummaryOf(counts)), s, 1)
    ensures r.states == counts.states || (counts.states == null && fresh(r.states))
  {
    r := counts.(count := counts.count + 1);
    if s.transitioning {
      r := r.(transitioning := r.transitioning + 1);
    }
    if s.error {
      r := r.(error := r.error + 1);
    }
    if SimpleState(s) != "" {
      if r.states == null {
        var states := new StateMap(map[]);
        r := r.(states := states);
      }
      r.states.m := r.states.m[SimpleState(s) := StateCount(r.states.m, SimpleState(s)) + 1];
    }
  }

  method RemoveSummary(counts: Summary, s: Info) returns (r: Summary)
    modifies counts.states
    ensures SummaryOf(r) == Changed(old(SummaryOf(counts)), s, -1)
    ensures r.states == counts.states || (counts.states == null && fresh(r.states))
  {
    r := counts.(count := counts.count - 1);
    if s.transitioning {
      r := r.(transitioning := r.transitioning - 1);
    }
    if s.error {
      r := r.(error := r.error - 1);
    }
    if SimpleState(s) != "" {
      if r.states == null {
        var states := new StateMap(map[]);
        r := r.(states := states);
      }
      r.states.m := r.states.m[SimpleState(s) := StateCount(r.states.m, SimpleState(s)) - 1];
    }
  }

  ghost function Grown(repr: set<object>, s: Summary): set<object> {
    repr + if s.states == null then {} else {s.states}
  }

  function At(m: map<string, Summary>, ns: string): Summary { if ns in m then m[ns] else ZERO }

  lemma ZeroValue()
    ensures SummaryOf(ZERO) == NO_SUMMARY
  {
  }

  /** Writes one namespace's summary, whose states are the ones it had or new. */
  method SetNamespace(item: ItemCount, ns: string, one: Summary, ghost repr: set<object>)
    requires ItemOk(item, repr)
    requires one.states == At(item.namespaces.m, ns).states || one.states !in repr
    modifies item.namespaces
    ensures ItemOk(item, Grown(repr, one))
    ensures var v := old(ItemOf(item, repr));
            ItemOf(item, Grown(repr, one)) == v.(namespaces := v.namespaces[ns := SummaryOf(one)])
  {
    hide SummaryOf;
    item.namespaces.m := item.namespaces.m[ns := one];
  }

  method AddOverall(item: ItemCount, s: Info, ghost repr: set<object>) returns (r: ItemCount, ghost grown: set<object>)
    requires ItemOk(item, repr)
    modifies item.summary.states
    ensures repr <= grown && fresh(grown - repr) && ItemOk(r, grown)
    ensures var v := old(ItemOf(item, repr)); ItemOf(r, grown) == v.(summary := Changed(v.summary, s, 1))
  {
    hide Changed, SummaryOf;
    var sum := AddSummary(item.summary, s);
    assert forall n :: n in item.namespaces.m ==>
             SummaryOf(item.namespaces.m[n]) == old(SummaryOf(item.namespaces.m[n]));
    r, grown := item.(summary := sum), Grown(repr, sum);
  }

  method AddNamespace(item: ItemCount, ns: string, s: Info, ghost repr: set<object>) returns (ghost grown: set<object>)
    requires ItemOk(item, repr)
    modifies item.namespaces, At(item.namespaces.m, ns).states
    ensures repr <= grown && fresh(grown - repr) && ItemOk(item, grown)
    ensures var v := old(ItemOf(item, repr));
            ItemOf(item, grown) == v.(namespaces := v.namespaces[ns := Changed(NamespaceAt(v, ns), s, 1)])
  {
    hide Changed, SummaryOf;
    ZeroValue();
    assert SummaryOf(At(item.namespaces.m, ns)) == NamespaceAt(ItemOf(item, repr), ns);
    ghost var v := ItemOf(item, repr);
    var one := AddSummary(At(item.namespaces.m, ns), s);
    assert forall n :: n in item.namespaces.m && n != ns ==>
             SummaryOf(item.namespaces.m[n]) == old(SummaryOf(item.namespaces.m[n]));
    assert SummaryOf(item.summary) == old(SummaryOf(item.summary));
    assert ItemOf(item, repr).namespaces[ns := SummaryOf(one)] == v.namespaces[ns := SummaryOf(one)];
    SetNamespace(item, ns, one, repr);
    grown := Grown(repr, one);
  }

  method AddCounts(item: ItemCount, ns: string, s: Info, ghost repr: set<object>) returns (r: ItemCount, ghost grown: set<object>)
    requires ItemOk(item, repr)
    modifies repr
    ensures repr <= grown && fresh(grown - repr) && ItemOk(r, grown)
    ensures ItemOf(r, grown) == ItemChanged(old(ItemOf(item, repr)), ns, s, 1)
  {
    hide Changed, ItemOf;
    r, grown := AddOverall(item, s, repr);
    if ns != "" {
      grown := AddNamespace(r, ns, s, grown);
    }
  }

  method RemoveOverall(item: ItemCount, s: Info, ghost repr: set<object>) returns (r: ItemCount, ghost grown: set<object>)
    requires ItemOk(item, repr)
    modifies item.summary.states
    ensures repr <= grown && fresh(grown - repr) && ItemOk(r, grown)
    ensures var v := old(ItemOf(item, repr)); ItemOf(r, grown) == v.(summary := Changed(v.summary, s, -1))
  {
    hide Changed, SummaryOf;
    var sum := RemoveSummary(item.summary, s);
    assert forall n :: n in item.namespaces.m ==>
             SummaryOf(item.namespaces.m[n]) == old(SummaryOf(item.namespaces.m[n]));
    r, grown := item.(summary := sum), Grown(repr, sum);
  }

  method RemoveNamespace(item: ItemCount, ns: string, s: Info, ghost repr: set<object>) returns (ghost grown: set<object>)
    requires ItemOk(item, repr)
    modifies item.namespaces, At(item.namespaces.m, ns).states
    ensures repr <= grown && fresh(grown - repr) && ItemOk(item, grown)
    ensures var v := old(ItemOf(item, repr));
            ItemOf(item, grown) == v.(namespaces := v.namespaces[ns := Changed(NamespaceAt(v, ns), s, -1)])
  {
    hide Changed, SummaryOf;
    ZeroValue();
    assert SummaryOf(At(item.namespaces.m, ns)) == NamespaceAt(ItemOf(item, repr), ns);
    ghost var v := ItemOf(item, repr);
    var one := RemoveSummary(At(item.namespaces.m, ns), s);
    assert forall n :: n in item.namespaces.m && n != ns ==>
             SummaryOf(item.namespaces.m[n]) == old(SummaryOf(item.namespaces.m[n]));
    assert SummaryOf(item.summary) == old(SummaryOf(item.summary));
    assert ItemOf(item, repr).namespaces[ns := SummaryOf(one)] == v.namespaces[ns := SummaryOf(one)];
    SetNamespace(item, ns, one, repr);
    grown := Grown(repr, one);
  }

  method RemoveCounts(item: ItemCount, ns: string, s: Info, ghost repr: set<object>) returns (r: ItemCount, ghost grown: set<object>)
    requires ItemOk(item, repr)
    modifies repr
    ensures repr <= grown && fresh(grown - repr) && ItemOk(r, grown)
    ensures ItemOf(r, grown) == ItemChanged(old(ItemOf(item, repr)), ns, s, -1)
  {
    hide Changed, ItemOf;
    r, grown := RemoveOverall(item, s, repr);
    if ns != "" {
      grown := RemoveNamespace(r, ns, s, grown);
    }
  }

  // ----- Deep copies -----

  method CopySummary(s: Summary) returns (r: Summary)
    ensures SummaryOf(r) == SummaryOf(s) && (r.states != null ==> fresh(r.states))
  {
    r := s;
    if r.states != null {
      var states := new StateMap(map[]);
      var names := Listed(s.states.m.Keys);
      for i := 0 to |names|
        invariant fresh(states) && s.states.m == old(s.states.m)
        invariant forall k :: k in states.m <==> k in names[..i]
        invariant forall k :: k in states.m ==> k in s.states.m && states.m[k] == s.states.m[k]
      {
        assert names[i] in names;
        states.m := states.m[names[i] := s.states.m[names[i]]];
        assert names[..i + 1] == names[..i] + [names[i]];
      }
      assert names[..|names|] == names;
      assert states.m == s.states.m;
      r := r.(states := states);
    }
  }

  /** Adds a copy of a summary under a namespace that has none. */
  method PutCopy(item: ItemCount, ns: string, s: Summary, ghost repr: set<object>) returns (ghost grown: set<object>)
    requires ItemOk(item, repr)
    modifies item.namespaces
    ensures repr <= grown && fresh(grown - repr) && ItemOk(item, grown)
    ensures var v := old(ItemOf(item, repr));
            ItemOf(item, grown) == v.(namespaces := v.namespaces[ns := old(SummaryOf(s))])
  {
    hide SummaryOf;
    var one := CopySummary(s);
    SetNamespace(item, ns, one, repr);
    grown := Grown(repr, one);
  }

  ghost function Part(m: map<string, SummaryValue>, names: seq<string>): map<string, SummaryValue> {
    map n | n in m && n in names :: m[n]
  }

  lemma PartNext(m: map<string, SummaryValue>, names: seq<string>, i: nat)
    requires i < |names| && names[i] in m
    ensures Part(m, names[..i + 1]) == Part(m, names[..i])[names[i] := m[names[i]]]
  {
    assert names[..i + 1] == names[..i] + [names[i]];
  }

  lemma PartBounds(m: map<string, SummaryValue>, names: seq<string>)
    requires forall n :: n in names <==> n in m
    ensures Part(m, names[..0]) == map[] && Part(m, names[..|names|]) == m
  {
    assert names[..|names|] == names;
  }

  /** A copy without the namespaces. */
  method CopyHead(item: ItemCount, ghost repr: set<object>) returns (r: ItemCount, ghost copied: set<object>)
    requires ItemOk(item, repr)
    ensures fresh(copied) && r.namespaces in copied && ItemOk(r, copied)
    ensures ItemOf(r, copied) == ItemOf(item, repr).(namespaces := map[])
  {
    var sum := CopySummary(item.summary);
    var namespaces := new NamespaceMap();
    r := ItemCount(sum, namespaces, item.revision);
    copied := Grown({namespaces}, sum);
  }

  lemma ItemParts(item: ItemCount, repr: set<object>)
    requires ItemOk(item, repr)
    ensures ItemOf(item, repr).namespaces.Keys == item.namespaces.m.Keys
    ensures forall n :: n in item.namespaces.m ==> SummaryOf(item.namespaces.m[n]) == ItemOf(item, repr).namespaces[n]
  {
  }

  /** Copies all maps of an item. */
  method CopyItem(item: ItemCount, ghost repr: set<object>) returns (r: ItemCount, ghost copied: set<object>)
    requires ItemOk(item, repr)
    ensures fresh(copied) && ItemOk(r, copied) && ItemOf(r, copied) == ItemOf(item, repr)
  {
    hide SummaryOf, Part, ItemOf, ItemOk;
    ghost var v := ItemOf(item, repr);
    ItemParts(item, repr);
    r, copied := CopyHead(item, repr);
    var namespaces := item.namespaces.m;
    var names := Listed(namespaces.Keys);
    PartBounds(v.namespaces, names);
    for i := 0 to |names|
      invariant fresh(copied) && r.namespaces in copied && ItemOk(r, copied)
      invariant ItemOf(r, copied) == v.(namespaces := Part(v.namespaces, names[..i]))
      invariant ItemOk(item, repr) && ItemOf(item, repr) == v && item.namespaces.m == namespaces
    {
      assert names[i] in names;
      ItemParts(item, repr);
      PartNext(v.namespaces, names, i);
      copied := PutCopy(r, names[i], namespaces[names[i]], copied);
    }
  }

  // ----- The first count -----

  /** Counts the listed objects of one kind. */
  method CountObjects(entries: seq<Entry>) returns (item: ItemCount, ghost repr: set<object>)
    ensures fresh(repr) && ItemOk(item, repr) && ItemOf(item, repr) == Tally(entries)
  {
    hide ItemChanged;
    var rev := 0;
    var namespaces := new NamespaceMap();
    item, repr := ItemCount(ZERO, namespaces, 0), {namespaces};
    for i := 0 to |entries|
      invariant fresh(repr) && ItemOk(item, repr)
      invariant ItemOf(item, repr) == Tally(entries[..i]).(revision := 0) && rev == Tally(entries[..i]).revision
    {
      assert entries[..i + 1][..i] == entries[..i];
      var e := entries[i];
      if e.obj.None? {
        continue;
      }
      if !e.granted {
        continue;
      }
      if e.revision > rev {
        rev := e.revision;
      }
      ChangeRevision(Tally(entries[..i]), e.obj.value.namespace, e.obj.value.info);
      item, repr := AddCounts(item, e.obj.value.namespace, e.obj.value.info, repr);
    }
    assert entries[..|entries|] == entries;
    item := item.(revision := rev);
  }

  lemma ChangeRevision(v: ItemValue, ns: string, s: Info)
    ensures ItemChanged(v.(revision := 0), ns, s, 1) == ItemChanged(v, ns, s, 1).(revision := 0)
    ensures ItemChanged(v, ns, s, 1).revision == v.revision
  {
  }

  // ----- The watch -----

  /** What is known of an object's previous state. */
  datatype Before = Nothing | Unreadable | Was(info: Info)

  datatype Message = Message(id: string, item: ItemCount)

  /** Takes a counted event into an item. */
  method StepItem(item: ItemCount, e: Event, ghost repr: set<object>) returns (r: ItemCount, ghost grown: set<object>)
    requires ItemOk(item, repr) && Counted(ItemOf(item, repr), e)
    modifies repr
    ensures repr <= grown && fresh(grown - repr) && ItemOk(r, grown)
    ensures ItemOf(r, grown) == Step(old(ItemOf(item, repr)), e)
  {
    hide ItemOk, ItemOf, ItemChanged;
    var ns, info := e.obj.namespace, e.obj.info;
    if e.was.Some? {
      r, grown := RemoveCounts(item, ns, e.was.value, repr);
      r, grown := AddCounts(r, ns, info, grown);
    } else if e.add {
      r, grown := AddCounts(item, ns, info, repr);
    } else {
      r, grown := RemoveCounts(item, ns, info, repr);
    }
  }

  type Kinds = map<string, ItemCount>

  /** Each kind has maps of its own. */
  ghost predicate KindsOk(counts: Kinds, live: map<string, set<object>>, all: set<object>)
    reads all
  {
    && live.Keys == counts.Keys
    && (forall id :: id in live ==> live[id] <= all && ItemOk(counts[id], live[id]))
    && (forall id, j :: id in live && j in live && id != j ==> live[id] !! live[j])
  }

  ghost function ValuesOf(counts: Kinds, live: map<string, set<object>>, all: set<object>): map<string, ItemValue>
    requires KindsOk(counts, live, all)
    reads all
  {
    map id | id in counts :: ItemOf(counts[id], live[id])
  }

  lemma NoKinds()
    ensures KindsOk(map[], map[], {}) && ValuesOf(map[], map[], {}) == map[]
  {
  }

  /** A kind apart from the others. */
  lemma TakeOut(counts: Kinds, live: map<string, set<object>>, all: set<object>, id: string)
    requires KindsOk(counts, live, all) && id in counts
    ensures id in live && ItemOk(counts[id], live[id]) && live[id] <= all && KindsOk(counts - {id}, live - {id}, all - live[id])
    ensures ValuesOf(counts, live, all) ==
            ValuesOf(counts - {id}, live - {id}, all - live[id])[id := ItemOf(counts[id], live[id])]
  {
    hide ItemOk, ItemOf;
    assert forall j :: j in live && j != id ==> live[j] <= all - live[id];
  }

  lemma PutIn(counts: Kinds, live: map<string, set<object>>, all: set<object>, id: string, item: ItemCount, repr: set<object>)
    requires KindsOk(counts, live, all) && ItemOk(item, repr) && repr !! all && id !in counts
    ensures KindsOk(counts[id := item], live[id := repr], all + repr)
    ensures ValuesOf(counts[id := item], live[id := repr], all + repr) ==
            ValuesOf(counts, live, all)[id := ItemOf(item, repr)]
  {
    hide ItemOk, ItemOf;
    assert forall j :: j in live ==> live[j] !! repr;
  }

  /** Messages say what they said when they were sent. */
  ghost predicate SentOk(sent: seq<Message>, shown: seq<ItemValue>, frozen: set<object>)
    reads frozen
  {
    && |sent| == |shown|
    && forall i :: 0 <= i < |sent| ==> ItemOk(sent[i].item, frozen) && ItemOf(sent[i].item, frozen) == shown[i]
  }

  lemma OneMoreSent(sent: seq<Message>, shown: seq<ItemValue>, frozen: set<object>, m: Message, copied: set<object>)
    requires SentOk(sent, shown, frozen) && ItemOk(m.item, copied)
    ensures SentOk(sent + [m], shown + [ItemOf(m.item, copied)], frozen + copied)
  {
    forall i | 0 <= i < |sent| + 1
      ensures var item := (sent + [m])[i].item;
              ItemOk(item, frozen + copied)
              && ItemOf(item, frozen + copied) == (shown + [ItemOf(m.item, copied)])[i]
    {
      if i < |sent| {
        MoreMaps(sent[i].item, frozen, frozen + copied);
      } else {
        MoreMaps(m.item, copied, frozen + copied);
      }
    }
  }

  lemma MoreMaps(item: ItemCount, repr: set<object>, more: set<object>)
    requires ItemOk(item, repr) && repr <= more
    ensures ItemOk(item, more) && ItemOf(item, more) == ItemOf(item, repr)
  {
  }

  lemma NoneSent()
    ensures SentOk([], [], {})
  {
  }

  function Tallies(lists: map<string, seq<Entry>>, ids: seq<string>): map<string, ItemValue> {
    map id | id in lists && id in ids :: Tally(lists[id])
  }

  lemma TalliesNext(lists: map<string, seq<Entry>>, ids: seq<string>, i: nat)
    requires i < |ids| && ids[i] in lists && ids[i] !in ids[..i]
    ensures Tallies(lists, ids[..i + 1]) == Tallies(lists, ids[..i])[ids[i] := Tally(lists[ids[i]])]
    ensures ids[i] !in Tallies(lists, ids[..i])
  {
    hide Tally;
    assert ids[..i + 1] == ids[..i] + [ids[i]];
  }

  lemma TalliesAll(lists: map<string, seq<Entry>>, ids: seq<string>)
    requires forall id :: id in ids <==> id in lists
    ensures Tallies(lists, ids[..|ids|]) == map id | id in lists :: Tally(lists[id])
    ensures Tallies(lists, ids[..0]) == map[]
  {
    hide Tally;
    assert ids[..|ids|] == ids;
  }

  class Watch {
    /** The counts by schema, updated in place. */
    var counts: Kinds
    var sent: seq<Message>
    var closed: bool
    /** The maps of each kind, all of these, and those of the messages. */
    ghost var live: map<string, set<object>>
    ghost var all: set<object>
    ghost var frozen: set<object>
    /** What each message said when it was sent. */
    ghost var shown: seq<ItemValue>

    /** Messages still say what they said, and share no map with the counts. */
    ghost predicate Valid()
      reads this, all, frozen
    {
      && this !in all && this !in frozen && all !! frozen
      && KindsOk(counts, live, all) && SentOk(sent, shown, frozen)
    }

    ghost function Values(): map<string, ItemValue>
      requires Valid()
      reads this, all, frozen
    {
      ValuesOf(counts, live, all)
    }

    /** Counts every kind anew. */
    constructor (lists: map<string, seq<Entry>>)
      ensures Valid() && sent == [] && !closed && fresh(all) && frozen == {}
      ensures Values() == map id | id in lists :: Tally(lists[id])
    {
      counts, live, sent, all, frozen, shown, closed := map[], map[], [], {}, {}, [], false;
      new;
      hide KindsOk, ValuesOf, Tally, SentOk;
      NoKinds();
      NoneSent();
      var ids := Listed(lists.Keys);
      TalliesAll(lists, ids);
      for i := 0 to |ids|
        invariant Valid() && frozen == {} && sent == [] && !closed && fresh(all)
        invariant Values() == Tallies(lists, ids[..i])
      {
        assert ids[i] in ids && ids[i] !in ids[..i];
        TalliesNext(lists, ids, i);
        Count(ids[i], lists[ids[i]]);
      }
    }

    method Count(id: string, entries: seq<Entry>)
      requires Valid() && id !in Values()
      modifies this`counts, this`live, this`all
      ensures Valid() && fresh(all - old(all)) && Values() == old(Values())[id := Tally(entries)]
    {
      hide KindsOk, ValuesOf, SentOk, ItemOk, ItemOf, Tally;
      KindsCounted(counts, live, all);
      var item, repr := CountObjects(entries);
      PutIn(counts, live, all, id, item, repr);
      counts, live, all := counts[id := item], live[id := repr], all + repr;
    }

    /** The context is done: nothing is sent any more. */
    method Close()
      requires Valid()
      modifies this`closed
      ensures Valid() && closed
    {
      closed := true;
    }

    /** Takes an event into account. */
    method Take(id: string, e: Event)
      requires Valid() && id in counts && id in Values() && Counted(Values()[id], e)
      modifies this`counts, this`live, this`all, all
      ensures Valid() && fresh(all - old(all)) && counts.Keys == old(counts).Keys
      ensures Values() == old(Values())[id := Step(old(Values())[id], e)]
    {
      hide KindsOk, ValuesOf, SentOk, ItemOk, ItemOf, Step, Counted;
      TakeOut(counts, live, all, id);
      ghost var others, theirs, rest := counts - {id}, live - {id}, all - live[id];
      ghost var values := ValuesOf(others, theirs, rest);
      var item, repr := StepItem(counts[id], e, live[id]);
      PutIn(others, theirs, rest, id, item, repr);
      assert counts[id := item] == others[id := item] && live[id := repr] == theirs[id := repr];
      counts, live, all := counts[id := item], live[id := repr], rest + repr;
      assert Values() == values[id := ItemOf(item, repr)];
    }

    /** Sends a deep copy of a kind's counts. */
    method Send(id: string)
      requires Valid() && id in counts && id in Values()
      modifies this`sent, this`frozen, this`shown
      ensures Valid() && fresh(frozen - old(frozen)) && Values() == old(Values())
      ensures shown == old(shown) + [Values()[id]] && |sent| == |old(sent)| + 1
      ensures sent[..|old(sent)|] == old(sent) && sent[|old(sent)|].id == id
    {
      hide KindsOk, ValuesOf, SentOk, ItemOk, ItemOf;
      TakeOut(counts, live, all, id);
      var copy, copied := CopyItem(counts[id], live[id]);
      OneMoreSent(sent, shown, frozen, Message(id, copy), copied);
      sent, frozen, shown := sent + [Message(id, copy)], frozen + copied, shown + [ItemOf(copy, copied)];
    }

    /** An event about an object of a kind. A counted one changes that kind's counts only, and sends a copy
        of them; what was sent before never changes. */
    method OnChange(add: bool, id: string, key: string, obj: Option<Obj>, revision: int, before: Before)
      requires Valid()
      modifies this, all
      ensures Valid() && closed == old(closed) && fresh(all - old(all)) && fresh(frozen - old(frozen))
      ensures var e := Event(add, key, if obj.Some? then obj.value else Obj("", Info(false, false)), revision,
                             if before.Was? then Some(before.info) else None);
              var values := old(Values());
              if old(closed) || id !in values || obj.None? || before.Unreadable? || !Counted(values[id], e)
              then Values() == values && sent == old(sent) && shown == old(shown)
              else Values() == values[id := Step(values[id], e)] && shown == old(shown) + [Values()[id]]
                   && |sent| == |old(sent)| + 1 && sent[..|old(sent)|] == old(sent) && sent[|old(sent)|].id == id
    {
      hide KindsOk, SentOk, ItemOk, ItemOf, Step, ValuesOf;
      KindsCounted(counts, live, all);
      if closed || id !in counts || obj.None? {
        return;
      }
      if revision <= counts[id].revision {
        return;
      }
      if before.Unreadable? {
        return;
      }
      if before.Was? && SameInfo(before.info, obj.value.info) {
        return;
      }
      Take(id, Event(add, key, obj.value, revision, if before.Was? then Some(before.info) else None));
      KindsCounted(counts, live, all);
      Send(id);
    }
  }

  lemma KindsCounted(counts: Kinds, live: map<string, set<object>>, all: set<object>)
    requires KindsOk(counts, live, all)
    ensures ValuesOf(counts, live, all).Keys == counts.Keys
    ensures forall id :: id in counts ==> ValuesOf(counts, live, all)[id].revision == counts[id].revision
  {
  }
}
