/**
 What a watcher is told, in terms of the objects of the events (`matchFilter` and `matchWatch` in
 pkg/sqlcache/informer/listoption_indexer.go).
 */
module WatchMeaning {
  import opened Prelude
  import opened EventLog
  import opened Watch
  import BP = BackfillProxy

  /** The object has the name, the namespace and the labels that are asked for; what is empty asks for nothing. */
  ghost predicate Concerns(f: WatchFilter, m: Meta) {
    && (f.id != "" ==> m.name == f.id)
    && (f.namespace != "" ==> m.namespace == f.namespace)
    && (match f.selector case None => true case Some(passes) => passes(m.labels))
  }

  /** A live event concerns a watcher by its object or by the object it replaces. */
  ghost predicate ConcernsLive(f: WatchFilter, e: Event) {
    Concerns(f, e.obj) || match e.oldObj case None => false case Some(m) => Concerns(f, m)
  }

  /** The notice tells of the event. */
  predicate Tells(n: Notice, e: Event) { n.kind == e.kind && n.rv == e.rv && n.obj == e.obj }

  /** The notices tell of the events at these places, one by one. */
  ghost predicate TellAll(ns: seq<Notice>, h: seq<Event>, idx: seq<nat>) {
    |ns| == |idx| && forall k :: 0 <= k < |ns| ==> idx[k] < |h| && Tells(ns[k], h[idx[k]])
  }

  lemma MatchConcerns(f: WatchFilter, e: Event)
    ensures MatchFilter(f, e.obj) <==> Concerns(f, e.obj)
    ensures MatchWatch(f, e) <==> ConcernsLive(f, e)
  {
  }

  /** The places of a range whose events a replay sends. */
  lemma {:induction false} ReplayedPlaces(f: WatchFilter, h: seq<Event>, a: nat, b: nat) returns (idx: seq<nat>)
    requires a <= b <= |h|
    ensures Increasing(idx) && forall i :: i in idx <==> a <= i < b && Concerns(f, h[i].obj)
    ensures TellAll(Backlog(f, h[a..b]), h, idx)
    decreases b
  {
    hide MatchFilter, Concerns, Backlog;
    idx := [];
    if a < b {
      idx := ReplayedPlaces(f, h, a, b - 1);
      BacklogNext(f, h, a, b - 1);
      MatchConcerns(f, h[b - 1]);
      if Concerns(f, h[b - 1].obj) {
        idx := idx + [b - 1];
      }
    } else {
      assert h[a..b] == [];
      NoBacklog(f);
    }
  }

  /** The places of a range whose events the fan-out sends. */
  lemma {:induction false} LivePlaces(f: WatchFilter, h: seq<Event>, a: nat, b: nat) returns (idx: seq<nat>)
    requires a <= b <= |h|
    ensures Increasing(idx) && forall i :: i in idx <==> a <= i < b && ConcernsLive(f, h[i])
    ensures TellAll(LiveStream(f, h[a..b]), h, idx)
    decreases b
  {
    hide MatchWatch, ConcernsLive, LiveStream;
    idx := [];
    if a < b {
      idx := LivePlaces(f, h, a, b - 1);
      LiveStreamNext(f, h, a, b - 1);
      MatchConcerns(f, h[b - 1]);
      if ConcernsLive(f, h[b - 1]) {
        idx := idx + [b - 1];
      }
    } else {
      assert h[a..b] == [];
      NoLive(f);
    }
  }

  lemma NoLive(f: WatchFilter)
    ensures LiveStream(f, []) == []
  {
  }

  /** In every state of every run the notices a watcher has received tell, one by one, of events of the history: first
      of those of the replayed range whose object concerns it, then of those since its registration whose object or
      replaced object does, each once and in order; and once nothing is in flight of all of them. */
  lemma DeliveredMeans(run: seq<State>, i: nat, w: nat) returns (replayed: seq<nat>, live: seq<nat>)
    requires Run(run) && i < |run| && w in run[i].watchers && Started(run[i].watchers[w])
    ensures Increasing(replayed) && Increasing(live)
    ensures var h, wt := run[i].history, run[i].watchers[w];
            && wt.from <= wt.to <= |h| && wt.registered <= |h|
            && (forall j :: j in replayed <==> wt.from <= j < wt.to && Concerns(wt.filter, h[j].obj))
            && (forall j :: j in live <==> wt.registered <= j < |h| && ConcernsLive(wt.filter, h[j]))
            && |wt.delivered| <= |replayed + live|
            && TellAll(wt.delivered, h, (replayed + live)[..|wt.delivered|])
            && (Quiescent(run[i], w) ==> |wt.delivered| == |replayed + live|)
  {
    hide Next, Init, Backlog, LiveStream, Concerns, ConcernsLive, Quiescent;
    var h, wt := run[i].history, run[i].watchers[w];
    DeliversStream(run, i, w);
    replayed := ReplayedPlaces(wt.filter, h, wt.from, wt.to);
    live := LivePlaces(wt.filter, h, wt.registered, |h|);
    assert h[wt.registered..] == h[wt.registered..|h|];
    TellBoth(Backlog(wt.filter, h[wt.from..wt.to]), LiveStream(wt.filter, h[wt.registered..]), h, replayed, live);
  }

  lemma TellBoth(a: seq<Notice>, b: seq<Notice>, h: seq<Event>, i: seq<nat>, j: seq<nat>)
    requires TellAll(a, h, i) && TellAll(b, h, j)
    ensures TellAll(a + b, h, i + j)
  {
  }
}
