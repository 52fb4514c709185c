/**
 The watch protocol of the SQL cache (pkg/sqlcache/informer/listoption_indexer.go): `Watch`,
 `notifyEvent`, the event log and its garbage collection.

 The machine interleaves one writer, any number of watchers with their proxies, and the
 collector. A write is not atomic: an event is fanned out under the read lock, the lock is
 released, `latestRV` is published under the write lock, and then either the next event of the same
 transaction is written, or the transaction commits and the log rows become visible to readers.
 */
module Watch {
  import opened Prelude
  import opened EventLog
  import BP = BackfillProxy

  datatype WatchFilter = WatchFilter(id: string, namespace: string, selector: Option<map<string, string> -> bool>)

  function NoticeOf(e: Event): Notice { Notice(e.kind, e.rv, e.obj) }

  predicate MatchFilter(f: WatchFilter, m: Meta) {
    && (f.id == "" || f.id == m.name)
    && (f.namespace == "" || f.namespace == m.namespace)
    && (f.selector.Some? ==> f.selector.value(m.labels))
  }

  predicate MatchWatch(f: WatchFilter, e: Event) {
    (e.oldObj.Some? && MatchFilter(f, e.oldObj.value)) || MatchFilter(f, e.obj)
  }

  // ----- The machine -----

  /** Where a transaction is with its latest event: fanning it out to `pending` watchers under the read
      lock, lock released, `latestRV` published but the transaction still open. */
  datatype Writer = Idle | FanOut(pending: set<nat>) | Unlocked | Published

  datatype Stage = Registered | Replaying(todo: seq<Row>) | Watching | TooOld

  /** A call of `Watch`. `delivered` is what its consumer received. The fields from `inflight` on
      only record what the run fixed, as numbers of events or indices into their history: how many of the
      open transaction were written at registration, how many in all by then, the index of the latest
      published one, how many were committed when the read transaction started, the range it replays and
      how far the replay has come. */
  datatype Watcher = Watcher(
    filter: WatchFilter,
    proxy: BP.Proxy<Notice>,
    stage: Stage,
    latest: string,
    target: string,
    delivered: seq<Notice>,
    inflight: nat,
    registered: nat,
    published: int,
    seen: nat,
    from: nat,
    to: nat,
    pos: nat)

  /** `history` is every event ever written, of which the first `committed` ones are committed. */
  datatype State = State(
    history: seq<Event>,
    committed: nat,
    table: seq<Row>,
    latestRV: string,
    writer: Writer,
    watchers: map<nat, Watcher>)

  const MAX_BUFFER := 100

  /** The index of the event whose revision `latestRV` holds; -1 before the first one. */
  function PublishedIndex(s: State): int {
    if s.writer.Idle? || s.writer.Published? then |s.history| - 1 else |s.history| - 2
  }

  function RvAt(history: seq<Event>, i: int): string {
    if 0 <= i < |history| then history[i].rv else ""
  }

  ghost predicate Init(s: State) {
    s == State([], 0, [], "", Idle, map[])
  }

  /** The first event of a transaction, or the next one. */
  ghost predicate BeginWrite(s: State, s': State, e: Event) {
    && (s.writer.Idle? || s.writer.Published?)
    && e.rv != ""
    && (forall i :: 0 <= i < |s.history| ==> s.history[i].rv != e.rv)
    && s' == s.(history := s.history + [e], writer := FanOut(s.watchers.Keys))
  }

  ghost predicate Notify(s: State, s': State, w: nat) {
    && s.writer.FanOut? && w in s.writer.pending && w in s.watchers && s.history != []
    && var e := s.history[|s.history| - 1];
       var wt := s.watchers[w];
       var rest := FanOut(s.writer.pending - {w});
       if MatchWatch(wt.filter, e) then
         && BP.CanReceive(MAX_BUFFER, wt.proxy)
         && s' == s.(writer := rest, watchers := s.watchers[w := wt.(proxy := BP.Receive(wt.proxy, NoticeOf(e)))])
       else
         s' == s.(writer := rest)
  }

  ghost predicate EndFanOut(s: State, s': State) {
    && s.writer.FanOut? && s.writer.pending == {}
    && s' == s.(writer := Unlocked)
  }

  ghost predicate Publish(s: State, s': State) {
    && s.writer.Unlocked? && s.history != []
    && s' == s.(writer := Published, latestRV := s.history[|s.history| - 1].rv)
  }

  ghost predicate Commit(s: State, s': State) {
    && s.writer.Published? && s.committed <= |s.history|
    && s' == s.(writer := Idle, committed := |s.history|, table := InsertAll(s.table, s.history[s.committed..]))
  }

  ghost predicate RunGC(s: State, s': State, keep: nat) {
    && s.writer.Idle? && keep > 0
    && s' == s.(table := Collect(s.table, keep))
  }

  /** Registration takes the write lock, so it never happens during a fan-out. */
  ghost predicate Register(s: State, s': State, w: nat, f: WatchFilter, rv: string) {
    && !s.writer.FanOut? && s.committed <= |s.history|
    && w !in s.watchers
    && s' == s.(watchers := s.watchers[w :=
         Watcher(f, BP.Fresh(), Registered, s.latestRV, if rv == "" then s.latestRV else rv, [],
                 |s.history| - s.committed, |s.history|, PublishedIndex(s), 0, 0, 0, 0)])
  }

  /** The rows a replay reads before it has seen the revision `latest`: all of them, or up to it. */
  function ReplayLength(todo: seq<Row>, latest: string): (n: nat)
    ensures n <= |todo|
  {
    if todo == [] then 0
    else if todo[0].event.rv == latest then 1
    else 1 + ReplayLength(todo[1..], latest)
  }

  /** The read transaction sees the committed table at one moment. */
  ghost predicate Snapshot(s: State, s': State, w: nat) {
    && w in s.watchers && s.watchers[w].stage.Registered?
    && var wt := s.watchers[w];
       var row := FindRow(s.table, wt.target);
       if row.None? && wt.target != wt.latest then
         s' == s.(watchers := s.watchers[w := wt.(stage := TooOld)])
       else
         var todo := RowsAfter(s.table, if row.Some? then row.value else 0);
         var from := if |todo| <= s.committed then s.committed - |todo| else 0;
         s' == s.(watchers := s.watchers[w := wt.(stage := Replaying(todo), seen := s.committed,
           from := from, pos := from, to := from + ReplayLength(todo, wt.latest))])
  }

  /** One iteration of the backfill loop. */
  ghost predicate Replay(s: State, s': State, w: nat) {
    && w in s.watchers && s.watchers[w].stage.Replaying? && s.watchers[w].stage.todo != []
    && var wt := s.watchers[w];
       var e := wt.stage.todo[0].event;
       s' == s.(watchers := s.watchers[w := wt.(
         stage := Replaying(if e.rv == wt.latest then [] else wt.stage.todo[1..]),
         pos := wt.pos + 1,
         delivered := if MatchFilter(wt.filter, e.obj) then wt.delivered + [NoticeOf(e)] else wt.delivered)])
  }

  ghost predicate BackfillDone(s: State, s': State, w: nat) {
    && w in s.watchers && s.watchers[w].stage == Replaying([])
    && s' == s.(watchers := s.watchers[w :=
         s.watchers[w].(stage := Watching, proxy := BP.Signal(s.watchers[w].proxy))])
  }

  ghost predicate ProxyInternal(s: State, s': State, w: nat) {
    && w in s.watchers
    && exists p :: BP.Internal(MAX_BUFFER, s.watchers[w].proxy, p)
                   && s' == s.(watchers := s.watchers[w := s.watchers[w].(proxy := p)])
  }

  ghost predicate ProxySend(s: State, s': State, w: nat) {
    && w in s.watchers && BP.CanSend(s.watchers[w].proxy)
    && var wt := s.watchers[w];
       s' == s.(watchers := s.watchers[w :=
         wt.(proxy := BP.Send(wt.proxy), delivered := wt.delivered + [BP.Sending(wt.proxy)])])
  }

  ghost predicate Cancel(s: State, s': State, w: nat) {
    && w in s.watchers
    && s' == s.(watchers := s.watchers[w := s.watchers[w].(proxy := BP.Cancel(s.watchers[w].proxy))])
  }

  ghost predicate Remove(s: State, s': State, w: nat) {
    && !s.writer.FanOut?
    && s' == s.(watchers := s.watchers - {w})
  }

  ghost predicate WatcherStep(s: State, s': State, w: nat) {
    || Snapshot(s, s', w) || Replay(s, s', w) || BackfillDone(s, s', w)
    || ProxyInternal(s, s', w) || ProxySend(s, s', w) || Cancel(s, s', w)
  }

  ghost predicate Next(s: State, s': State) {
    || (exists e :: BeginWrite(s, s', e))
    || (exists w :: Notify(s, s', w))
    || EndFanOut(s, s') || Publish(s, s') || Commit(s, s')
    || (exists keep: nat :: RunGC(s, s', keep))
    || (exists w, f, rv :: Register(s, s', w, f, rv))
    || (exists w :: WatcherStep(s, s', w))
    || (exists w :: Remove(s, s', w))
  }

  ghost predicate Run(run: seq<State>) {
    && |run| > 0
    && Init(run[0])
    && forall i :: 0 <= i < |run| - 1 ==> Next(run[i], run[i + 1])
  }

  // ----- What a watcher should receive -----

  /** The notices a replay of `events` sends. */
  function Backlog(f: WatchFilter, events: seq<Event>): seq<Notice> {
    if events == [] then []
    else
      var last := events[|events| - 1];
      Backlog(f, events[..|events| - 1]) + if MatchFilter(f, last.obj) then [NoticeOf(last)] else []
  }

  /** The notices the fan-out of `events` sends. */
  function LiveStream(f: WatchFilter, events: seq<Event>): seq<Notice> {
    if events == [] then []
    else
      var last := events[|events| - 1];
      LiveStream(f, events[..|events| - 1]) + if MatchWatch(f, last) then [NoticeOf(last)] else []
  }

  /** The stream of a watcher that replays [from, to) and then lives on everything written after
      its registration. */
  function Stream(s: State, wt: Watcher): seq<Notice>
    requires wt.from <= wt.to <= |s.history| && wt.registered <= |s.history|
  {
    Backlog(wt.filter, s.history[wt.from..wt.to]) + LiveStream(wt.filter, s.history[wt.registered..])
  }

  // ----- Invariant -----

  /** How many events have been offered to watcher `w`. */
  function Fanned(s: State, w: nat): nat {
    if s.writer.FanOut? && w in s.writer.pending && s.history != [] then |s.history| - 1 else |s.history|
  }

  ghost predicate LogOk(s: State, base: nat) {
    && base <= s.committed <= |s.history| && (s.writer.Idle? <==> s.committed == |s.history|)
    && s.table == Rows(s.history, base, s.committed)
    && (s.committed > 0 ==> base < s.committed)
    && DistinctRvs(s.history)
    && s.latestRV == RvAt(s.history, PublishedIndex(s))
    && (s.writer.FanOut? ==> s.writer.pending <= s.watchers.Keys)
  }

  ghost predicate Started(wt: Watcher) { wt.stage.Replaying? || wt.stage.Watching? }

  /** The range a replay reads: after the row of the target up to the revision that was the latest
      at registration when that row follows, and otherwise to the end of the snapshot. */
  ghost predicate RangeOk(history: seq<Event>, wt: Watcher) {
    && wt.from <= wt.pos <= wt.to <= wt.seen <= |history|
    && wt.registered - wt.inflight <= wt.seen
    && (|| (&& 0 < wt.from && history[wt.from - 1].rv == wt.target
            && wt.to == if wt.from - 1 < wt.published < wt.seen then wt.published + 1 else wt.seen)
        || (wt.target == wt.latest && wt.to == wt.seen))
  }

  ghost predicate TodoOk(history: seq<Event>, wt: Watcher)
    requires wt.stage.Replaying? && wt.pos <= wt.to <= wt.seen <= |history|
  {
    if wt.pos == wt.to then wt.stage.todo == []
    else
      && wt.stage.todo == Rows(history, wt.pos, wt.seen)
      && wt.to - wt.pos == ReplayLength(wt.stage.todo, wt.latest)
  }

  ghost predicate WatcherOk(history: seq<Event>, fanned: nat, committed: nat, wt: Watcher) {
    && wt.registered <= fanned <= |history|
    && committed <= |history| && wt.registered - wt.inflight <= committed
    && (wt.inflight == 0 ==> wt.published == wt.registered - 1)
    && wt.registered - 2 <= wt.published <= wt.registered - 1
    && wt.latest == RvAt(history, wt.published)
    && BP.Inv(MAX_BUFFER, wt.proxy)
    && wt.proxy.received == LiveStream(wt.filter, history[wt.registered..fanned])
    && (wt.proxy.signalled <==> wt.stage.Watching?)
    && (!Started(wt) ==> wt.delivered == [])
    && (Started(wt) ==>
          && RangeOk(history, wt) && wt.seen <= committed
          && wt.delivered == Backlog(wt.filter, history[wt.from..wt.pos]) + wt.proxy.sent)
    && (wt.stage.Replaying? ==> TodoOk(history, wt))
    && (wt.stage.Watching? ==> wt.pos == wt.to)
  }

  ghost predicate WatchersOk(s: State) {
    forall w :: w in s.watchers ==> WatcherOk(s.history, Fanned(s, w), s.committed, s.watchers[w])
  }

  ghost predicate Inv(s: State, base: nat) {
    LogOk(s, base) && WatchersOk(s)
  }

  // ----- Steps of the writer and the collector -----

  lemma WatcherGrows(history: seq<Event>, e: Event, fanned: nat, committed: nat, wt: Watcher)
    requires WatcherOk(history, fanned, committed, wt)
    ensures WatcherOk(history + [e], fanned, committed, wt)
  {
    var more := history + [e];
    assert more[wt.registered..fanned] == history[wt.registered..fanned];
    if Started(wt) {
      assert more[wt.from..wt.pos] == history[wt.from..wt.pos];
      if wt.stage.Replaying? {
        RowsGrow(history, more, wt.pos, wt.seen);
      }
    }
  }

  lemma BeginWriteInv(s: State, s': State, e: Event, base: nat)
    requires Inv(s, base) && BeginWrite(s, s', e)
    ensures Inv(s', base)
  {
    hide WatcherOk, Rows;
    RowsGrow(s.history, s'.history, base, s.committed);
    forall w | w in s'.watchers ensures WatcherOk(s'.history, Fanned(s', w), s'.committed, s'.watchers[w]) {
      WatcherGrows(s.history, e, |s.history|, s.committed, s.watchers[w]);
    }
  }

  lemma LiveStreamNext(f: WatchFilter, history: seq<Event>, a: nat, b: nat)
    requires a <= b < |history|
    ensures LiveStream(f, history[a..b + 1]) ==
            LiveStream(f, history[a..b]) + if MatchWatch(f, history[b]) then [NoticeOf(history[b])] else []
  {
    assert history[a..b + 1][..b - a] == history[a..b];
  }

  lemma NotifyWatcher(history: seq<Event>, committed: nat, wt: Watcher, wt': Watcher)
    requires history != [] && WatcherOk(history, |history| - 1, committed, wt)
    requires var e := history[|history| - 1];
             if MatchWatch(wt.filter, e)
             then BP.CanReceive(MAX_BUFFER, wt.proxy) && wt' == wt.(proxy := BP.Receive(wt.proxy, NoticeOf(e)))
             else wt' == wt
    ensures WatcherOk(history, |history|, committed, wt')
  {
    hide Rows, ReplayLength, Backlog, LiveStream, MatchWatch;
    var e := history[|history| - 1];
    LiveStreamNext(wt.filter, history, wt.registered, |history| - 1);
    if MatchWatch(wt.filter, e) {
      BP.ReceiveInv(MAX_BUFFER, wt.proxy, NoticeOf(e));
    }
  }

  lemma NotifyInv(s: State, s': State, w: nat, base: nat)
    requires Inv(s, base) && Notify(s, s', w)
    ensures Inv(s', base)
  {
    hide WatcherOk, MatchWatch, BP.CanReceive, BP.Receive, Rows;
    var e := s.history[|s.history| - 1];
    var wt := s.watchers[w];
    var wt' := if MatchWatch(wt.filter, e) then wt.(proxy := BP.Receive(wt.proxy, NoticeOf(e))) else wt;
    assert WatcherOk(s.history, |s.history| - 1, s.committed, wt);
    NotifyWatcher(s.history, s.committed, wt, wt');
    assert s'.watchers == s.watchers[w := wt'] by {
      if !MatchWatch(wt.filter, e) {
        assert s.watchers == s.watchers[w := wt];
      }
    }
    NotifyOthers(s, s', w, wt');
  }

  lemma NotifyOthers(s: State, s': State, w: nat, wt': Watcher)
    requires WatchersOk(s) && s.writer.FanOut?
    requires s'.history == s.history && s'.committed == s.committed && s'.writer == FanOut(s.writer.pending - {w})
    requires s'.watchers == s.watchers[w := wt']
    requires WatcherOk(s.history, |s.history|, s.committed, wt')
    ensures WatchersOk(s')
  {
    hide WatcherOk;
    forall v | v in s'.watchers ensures WatcherOk(s'.history, Fanned(s', v), s'.committed, s'.watchers[v]) {
      if v != w {
        assert Fanned(s', v) == Fanned(s, v);
      } else {
        assert Fanned(s', v) == |s.history|;
      }
    }
  }

  lemma CommitInv(s: State, s': State, base: nat)
    requires Inv(s, base) && Commit(s, s')
    ensures Inv(s', base)
  {
    InsertAllRows(s.history, base, s.committed, |s.history|);
    assert s.history[s.committed..] == s.history[s.committed..|s.history|];
  }

  lemma RunGCInv(s: State, s': State, keep: nat, base: nat) returns (base': nat)
    requires Inv(s, base) && RunGC(s, s', keep)
    ensures Inv(s', base')
  {
    CollectRows(s.history, base, s.committed, keep);
    base' := if keep < s.committed - base then s.committed - keep else base;
  }

  // ----- Steps of a watcher -----

  lemma FreshWatcher(s: State, f: WatchFilter, target: string, base: nat)
    requires LogOk(s, base) && !s.writer.FanOut?
    ensures WatcherOk(s.history, |s.history|, s.committed,
              Watcher(f, BP.Fresh(), Registered, s.latestRV, target, [],
                      |s.history| - s.committed, |s.history|, PublishedIndex(s), 0, 0, 0, 0))
  {
    hide Rows, Backlog, ReplayLength;
    assert s.history[|s.history|..|s.history|] == [];
  }

  lemma RegisterInv(s: State, s': State, w: nat, f: WatchFilter, rv: string, base: nat)
    requires Inv(s, base) && Register(s, s', w, f, rv)
    ensures Inv(s', base)
  {
    hide WatcherOk, Rows;
    FreshWatcher(s, f, if rv == "" then s.latestRV else rv, base);
    OthersKeep(s, s', w, s'.watchers[w]);
  }

  lemma {:induction false} ReplayLengthRows(history: seq<Event>, a: nat, b: nat, m: int)
    requires a <= b <= |history| && DistinctRvs(history) && m < |history|
    ensures ReplayLength(Rows(history, a, b), RvAt(history, m)) == if a <= m < b then m + 1 - a else b - a
    decreases b - a
  {
    if a < b {
      ReplayLengthRows(history, a + 1, b, m);
      RowsCons(history, a, b);
    }
  }

  lemma PublishedFacts(s: State, w: nat, base: nat)
    requires Inv(s, base) && w in s.watchers
    ensures var wt := s.watchers[w];
            && wt.published < |s.history| && wt.latest == RvAt(s.history, wt.published)
  {
    assert WatcherOk(s.history, Fanned(s, w), s.committed, s.watchers[w]);
  }

  /** The read transaction of a watcher whose target the log still holds. */
  lemma SnapshotFound(s: State, s': State, w: nat, base: nat, t: nat)
    requires Inv(s, base) && Snapshot(s, s', w)
    requires base <= t < s.committed && s.history[t].rv == s.watchers[w].target
    ensures var wt, wt' := s.watchers[w], s'.watchers[w];
            && wt'.stage == Replaying(Rows(s.history, t + 1, s.committed))
            && wt' == wt.(stage := wt'.stage, seen := s.committed, from := t + 1, pos := t + 1, to := wt'.to)
            && wt'.to == (if t < wt.published < s.committed then wt.published + 1 else s.committed)
            && wt'.to - wt'.pos == ReplayLength(wt'.stage.todo, wt.latest)
  {
    hide WatcherOk, Rows, FindRow, RowsFrom, ReplayLength;
    var wt := s.watchers[w];
    PublishedFacts(s, w, base);
    FindRowRows(s.history, base, s.committed, wt.target);
    RowsFromRows(s.history, base, s.committed, t + 2);
    ReplayLengthRows(s.history, t + 1, s.committed, wt.published);
  }

  /** A target the log does not hold: too old, unless it is the latest revision, in which case the
      whole log is replayed. */
  lemma SnapshotNotFound(s: State, s': State, w: nat, base: nat)
    requires Inv(s, base) && Snapshot(s, s', w)
    requires forall t :: base <= t < s.committed ==> s.history[t].rv != s.watchers[w].target
    ensures var wt, wt' := s.watchers[w], s'.watchers[w];
            if wt.target != wt.latest then wt' == wt.(stage := TooOld)
            else
              && wt'.stage == Replaying(Rows(s.history, base, s.committed))
              && wt' == wt.(stage := wt'.stage, seen := s.committed, from := base, pos := base, to := s.committed)
              && wt'.to - wt'.pos == ReplayLength(wt'.stage.todo, wt.latest)
  {
    hide WatcherOk, Rows, FindRow, RowsFrom, ReplayLength;
    var wt := s.watchers[w];
    PublishedFacts(s, w, base);
    FindRowRows(s.history, base, s.committed, wt.target);
    RowsFromRows(s.history, base, s.committed, 1);
    ReplayLengthRows(s.history, base, s.committed, wt.published);
  }

  lemma AfterSnapshot(history: seq<Event>, fanned: nat, committed: nat, wt: Watcher, wt': Watcher)
    requires WatcherOk(history, fanned, committed, wt) && wt.stage.Registered?
    requires wt'.from == wt'.pos <= wt'.to <= wt'.seen == committed
    requires wt' == wt.(stage := Replaying(Rows(history, wt'.from, committed)),
                        seen := committed, from := wt'.from, pos := wt'.from, to := wt'.to)
    requires wt'.to - wt'.from == ReplayLength(wt'.stage.todo, wt.latest)
    requires RangeOk(history, wt')
    ensures WatcherOk(history, fanned, committed, wt')
  {
    hide LiveStream, RangeOk;
    assert history[wt'.from..wt'.pos] == [];
    assert wt.proxy.sent == [];
  }

  lemma SnapshotWatcher(s: State, s': State, w: nat, base: nat)
    requires Inv(s, base) && Snapshot(s, s', w)
    ensures WatcherOk(s.history, Fanned(s, w), s.committed, s'.watchers[w])
  {
    hide WatcherOk, Rows, Snapshot, ReplayLength;
    SnapshotStage(s, s', w);
    var wt, wt' := s.watchers[w], s'.watchers[w];
    var fanned, committed := Fanned(s, w), s.committed;
    assert WatcherOk(s.history, fanned, committed, wt);
    if t :| base <= t < committed && s.history[t].rv == wt.target {
      SnapshotFound(s, s', w, base, t);
      SnapshotRange(s.history, fanned, committed, wt, wt');
      AfterSnapshot(s.history, fanned, committed, wt, wt');
    } else {
      SnapshotNotFound(s, s', w, base);
      if wt.target == wt.latest {
        SnapshotRange(s.history, fanned, committed, wt, wt');
        AfterSnapshot(s.history, fanned, committed, wt, wt');
      } else {
        RefusedWatcher(s.history, fanned, committed, wt);
      }
    }
  }

  lemma SnapshotStage(s: State, s': State, w: nat)
    requires Snapshot(s, s', w)
    ensures w in s.watchers && w in s'.watchers && s.watchers[w].stage.Registered?
  {
  }

  lemma RefusedWatcher(history: seq<Event>, fanned: nat, committed: nat, wt: Watcher)
    requires WatcherOk(history, fanned, committed, wt) && wt.stage.Registered?
    ensures WatcherOk(history, fanned, committed, wt.(stage := TooOld))
  {
    hide LiveStream, Backlog, BP.Inv;
  }

  lemma SnapshotRange(history: seq<Event>, fanned: nat, committed: nat, wt: Watcher, wt': Watcher)
    requires WatcherOk(history, fanned, committed, wt)
    requires wt' == wt.(stage := wt'.stage, seen := committed, from := wt'.from, pos := wt'.from, to := wt'.to)
    requires wt'.from <= wt'.to <= committed
    requires || (&& 0 < wt'.from && history[wt'.from - 1].rv == wt.target
                 && wt'.to == if wt'.from - 1 < wt.published < committed then wt.published + 1 else committed)
             || (wt.target == wt.latest && wt'.to == committed)
    ensures RangeOk(history, wt')
  {
    hide LiveStream, Backlog, BP.Inv, TodoOk;
  }

  lemma BacklogNext(f: WatchFilter, history: seq<Event>, a: nat, b: nat)
    requires a <= b < |history|
    ensures Backlog(f, history[a..b + 1]) ==
            Backlog(f, history[a..b]) + if MatchFilter(f, history[b].obj) then [NoticeOf(history[b])] else []
  {
    assert history[a..b + 1][..b - a] == history[a..b];
  }

  lemma ReplayTodo(history: seq<Event>, wt: Watcher, wt': Watcher)
    requires wt.stage.Replaying? && wt.stage.todo != [] && wt.pos <= wt.to <= wt.seen <= |history|
    requires TodoOk(history, wt)
    requires wt'.stage == Replaying(if wt.stage.todo[0].event.rv == wt.latest then [] else wt.stage.todo[1..])
    requires wt'.pos == wt.pos + 1 && wt'.to == wt.to && wt'.seen == wt.seen && wt'.latest == wt.latest
    ensures wt.pos < wt.to && wt.stage.todo[0].event == history[wt.pos]
    ensures TodoOk(history, wt')
  {
    var todo' := wt.stage.todo[1..];
    assert todo' == Rows(history, wt.pos + 1, wt.seen);
    if history[wt.pos].rv != wt.latest {
      assert ReplayLength(wt.stage.todo, wt.latest) == 1 + ReplayLength(todo', wt.latest);
    }
  }

  lemma ReplayWatcher(history: seq<Event>, fanned: nat, committed: nat, wt: Watcher, wt': Watcher)
    requires WatcherOk(history, fanned, committed, wt) && wt.stage.Replaying? && wt.stage.todo != []
    requires var e := wt.stage.todo[0].event;
             wt' == wt.(
               stage := Replaying(if e.rv == wt.latest then [] else wt.stage.todo[1..]),
               pos := wt.pos + 1,
               delivered := if MatchFilter(wt.filter, e.obj) then wt.delivered + [NoticeOf(e)] else wt.delivered)
    ensures WatcherOk(history, fanned, committed, wt')
  {
    hide TodoOk, LiveStream, Backlog, Rows, ReplayLength;
    ReplayTodo(history, wt, wt');
    BacklogNext(wt.filter, history, wt.from, wt.pos);
    assert wt.proxy.sent == [];
  }

  lemma DoneWatcher(history: seq<Event>, fanned: nat, committed: nat, wt: Watcher)
    requires WatcherOk(history, fanned, committed, wt) && wt.stage == Replaying([])
    ensures WatcherOk(history, fanned, committed, wt.(stage := Watching, proxy := BP.Signal(wt.proxy)))
  {
  }

  lemma SendWatcher(history: seq<Event>, fanned: nat, committed: nat, wt: Watcher)
    requires WatcherOk(history, fanned, committed, wt) && BP.CanSend(wt.proxy)
    ensures WatcherOk(history, fanned, committed,
                      wt.(proxy := BP.Send(wt.proxy), delivered := wt.delivered + [BP.Sending(wt.proxy)]))
  {
    hide LiveStream, Backlog, Rows, ReplayLength;
    BP.SendInv(MAX_BUFFER, wt.proxy);
    assert wt.stage.Watching?;
    var backlog := Backlog(wt.filter, history[wt.from..wt.pos]);
    assert (backlog + wt.proxy.sent) + [BP.Sending(wt.proxy)] == backlog + (wt.proxy.sent + [BP.Sending(wt.proxy)]);
  }

  lemma ProxyWatcher(history: seq<Event>, fanned: nat, committed: nat, wt: Watcher, p: BP.Proxy<Notice>)
    requires WatcherOk(history, fanned, committed, wt)
    requires BP.Internal(MAX_BUFFER, wt.proxy, p) || p == BP.Cancel(wt.proxy)
    ensures WatcherOk(history, fanned, committed, wt.(proxy := p))
  {
    hide LiveStream, Backlog, Rows, ReplayLength;
  }

  lemma OthersKeep(s: State, s': State, w: nat, wt': Watcher)
    requires WatchersOk(s)
    requires s' == s.(watchers := s.watchers[w := wt'])
    requires WatcherOk(s.history, Fanned(s, w), s.committed, wt')
    ensures WatchersOk(s')
  {
    hide WatcherOk;
  }

  lemma WatcherStepInv(s: State, s': State, w: nat, base: nat)
    requires Inv(s, base) && WatcherStep(s, s', w)
    ensures Inv(s', base)
  {
    hide WatcherOk, Rows, FindRow, RowsFrom, ReplayLength, MatchFilter;
    var wt := s.watchers[w];
    var wt' := s'.watchers[w];
    assert WatcherOk(s.history, Fanned(s, w), s.committed, wt);
    if Snapshot(s, s', w) {
      SnapshotWatcher(s, s', w, base);
    } else if Replay(s, s', w) {
      ReplayWatcher(s.history, Fanned(s, w), s.committed, wt, wt');
    } else if BackfillDone(s, s', w) {
      DoneWatcher(s.history, Fanned(s, w), s.committed, wt);
    } else if ProxySend(s, s', w) {
      SendWatcher(s.history, Fanned(s, w), s.committed, wt);
    } else {
      ProxyWatcher(s.history, Fanned(s, w), s.committed, wt, wt'.proxy);
    }
    OthersKeep(s, s', w, wt');
  }

  lemma NextInv(s: State, s': State, base: nat) returns (base': nat)
    requires Inv(s, base) && Next(s, s')
    ensures Inv(s', base')
  {
    hide WatcherOk, Rows, BeginWrite, Notify, Commit, RunGC, Register, WatcherStep;
    base' := base;
    if e :| BeginWrite(s, s', e) {
      BeginWriteInv(s, s', e, base);
    } else if w :| Notify(s, s', w) {
      NotifyInv(s, s', w, base);
    } else if Commit(s, s') {
      CommitInv(s, s', base);
    } else if keep: nat :| RunGC(s, s', keep) {
      base' := RunGCInv(s, s', keep, base);
    } else if w, f, rv :| Register(s, s', w, f, rv) {
      RegisterInv(s, s', w, f, rv, base);
    } else if w :| WatcherStep(s, s', w) {
      WatcherStepInv(s, s', w, base);
    }
  }

  lemma {:induction false} RunInv(run: seq<State>, i: nat) returns (base: nat)
    requires Run(run) && i < |run|
    ensures Inv(run[i], base)
  {
    if i == 0 {
      base := 0;
    } else {
      var base0 := RunInv(run, i - 1);
      base := NextInv(run[i - 1], run[i], base0);
    }
  }

  // ----- Main results -----

  /** Everything offered to the watcher has been delivered. */
  ghost predicate Quiescent(s: State, w: nat)
    requires w in s.watchers
  {
    var wt := s.watchers[w];
    && wt.stage.Watching?
    && wt.proxy.queue == [] && wt.proxy.hand.None?
    && !(s.writer.FanOut? && w in s.writer.pending)
  }

  lemma {:induction false} LiveStreamPrefix(f: WatchFilter, history: seq<Event>, a: nat, b: nat, c: nat)
    requires a <= b <= c <= |history|
    ensures LiveStream(f, history[a..b]) <= LiveStream(f, history[a..c])
    decreases c
  {
    if b < c {
      LiveStreamPrefix(f, history, a, b, c - 1);
      LiveStreamNext(f, history, a, c - 1);
    }
  }

  lemma {:induction false} BacklogSplit(f: WatchFilter, history: seq<Event>, a: nat, b: nat, c: nat)
    requires a <= b <= c <= |history|
    ensures Backlog(f, history[a..c]) == Backlog(f, history[a..b]) + Backlog(f, history[b..c])
    decreases c
  {
    hide Backlog, MatchFilter;
    if b < c {
      BacklogSplit(f, history, a, b, c - 1);
      BacklogNext(f, history, a, c - 1);
      BacklogNext(f, history, b, c - 1);
    } else {
      assert history[b..c] == [];
      NoBacklog(f);
    }
  }

  lemma NoBacklog(f: WatchFilter)
    ensures Backlog(f, []) == []
  {
  }

  /** In every state of every run, a watcher has received a prefix of its stream, and all of it once
      nothing is in flight: the replayed range in log order and filtered by `matchFilter`, then the
      events written since its registration, filtered by `matchWatch`. */
  lemma DeliversStream(run: seq<State>, i: nat, w: nat)
    requires Run(run) && i < |run| && w in run[i].watchers && Started(run[i].watchers[w])
    ensures var s, wt := run[i], run[i].watchers[w];
            && wt.from <= wt.to <= |s.history| && wt.registered <= |s.history|
            && wt.delivered <= Stream(s, wt)
            && (Quiescent(s, w) ==> wt.delivered == Stream(s, wt))
  {
    var base := RunInv(run, i);
    StreamOk(run[i].history, Fanned(run[i], w), run[i].committed, run[i].watchers[w]);
  }

  lemma StreamOk(history: seq<Event>, fanned: nat, committed: nat, wt: Watcher)
    requires WatcherOk(history, fanned, committed, wt) && Started(wt)
    ensures wt.delivered <= Backlog(wt.filter, history[wt.from..wt.to]) + LiveStream(wt.filter, history[wt.registered..])
    ensures wt.stage.Watching? && wt.proxy.queue == [] && wt.proxy.hand.None? && fanned == |history| ==>
              wt.delivered == Backlog(wt.filter, history[wt.from..wt.to]) + LiveStream(wt.filter, history[wt.registered..])
  {
    BacklogSplit(wt.filter, history, wt.from, wt.pos, wt.to);
    LiveStreamPrefix(wt.filter, history, wt.registered, fanned, |history|);
    assert history[wt.registered..] == history[wt.registered..|history|];
  }

  /** A watcher that was refused has received nothing. */
  lemma TooOldDeliversNothing(run: seq<State>, i: nat, w: nat)
    requires Run(run) && i < |run| && w in run[i].watchers && run[i].watchers[w].stage.TooOld?
    ensures run[i].watchers[w].delivered == []
  {
    var base := RunInv(run, i);
    assert WatcherOk(run[i].history, Fanned(run[i], w), run[i].committed, run[i].watchers[w]);
  }

  /** The read transaction refuses a target exactly when the log no longer (or never) holds it and it
      is not the latest revision; it never starts a stream with a gap after the target. */
  lemma RefusedIffCollected(run: seq<State>, i: nat, w: nat)
    requires Run(run) && i + 1 < |run| && Snapshot(run[i], run[i + 1], w)
    ensures var s, wt' := run[i], run[i + 1].watchers[w];
            && (wt'.stage.TooOld? <==> wt'.target != wt'.latest && !Holds(s.table, wt'.target))
            && (wt'.target != wt'.latest && Started(wt') ==>
                  0 < wt'.from <= |s.history| && s.history[wt'.from - 1].rv == wt'.target)
  {
    hide WatcherOk, Rows, Snapshot, Next, FindRow, Holds, ReplayLength;
    var s := run[i];
    SnapshotStage(s, run[i + 1], w);
    var base := RunInv(run, i);
    var c := s.committed;
    var target := s.watchers[w].target;
    HoldsRows(s.history, base, c, target);
    if t :| base <= t < c && s.history[t].rv == target {
      SnapshotFound(s, run[i + 1], w, base, t);
    } else {
      SnapshotNotFound(s, run[i + 1], w, base);
    }
  }

  /** The target is in the log, before the revision that was the latest at registration. */
  ghost predicate OlderTarget(wt: Watcher) { wt.target != wt.latest && wt.from - 1 < wt.published }

  /** When is the stream exact, that is, when does the replay end where the live events begin?
      For a target older than the latest revision: if and only if the watcher did not register
      between the release of the read lock and the publication of `latestRV`, and everything written
      by then was committed before the read transaction began. For any other target: if and only if
      as many events were committed when the read transaction began as were written when the watcher
      registered; if more were, those are both replayed and live. Otherwise the events between the end
      of the replay and the registration are missing, at most as many as the open transaction had
      written at registration. */
  lemma ExactIff(run: seq<State>, i: nat, w: nat)
    requires Run(run) && i < |run| && w in run[i].watchers && Started(run[i].watchers[w])
    ensures var wt := run[i].watchers[w];
            && (wt.to == wt.registered <==>
                  if OlderTarget(wt) then wt.published == wt.registered - 1 && wt.registered <= wt.seen
                  else wt.seen == wt.registered)
            && wt.to == (if OlderTarget(wt) && wt.published < wt.seen then wt.published + 1 else wt.seen)
            && wt.registered - wt.inflight <= wt.to
            && (OlderTarget(wt) ==> wt.to <= wt.registered)
  {
    hide Run, Init, Next;
    RangeFixed(run, i, w);
  }

  lemma RangeFixed(run: seq<State>, i: nat, w: nat)
    requires Run(run) && i < |run| && w in run[i].watchers && Started(run[i].watchers[w])
    ensures var wt := run[i].watchers[w];
            && RangeOk(run[i].history, wt)
            && DistinctRvs(run[i].history) && wt.latest == RvAt(run[i].history, wt.published)
            && wt.registered - 2 <= wt.published <= wt.registered - 1
            && (wt.inflight == 0 ==> wt.published == wt.registered - 1)
  {
    hide Init, Next, RangeOk, DistinctRvs, Rows, Backlog, LiveStream, BP.Inv, TodoOk;
    var base := RunInv(run, i);
    assert WatcherOk(run[i].history, Fanned(run[i], w), run[i].committed, run[i].watchers[w]);
  }

  /** A watcher that registers while no write is under way, with a retained target older than the
      latest revision, receives every event after the target once and in log order. */
  lemma QuietWatcherExact(run: seq<State>, i: nat, w: nat)
    requires Run(run) && i < |run| && w in run[i].watchers && Started(run[i].watchers[w])
    requires var wt := run[i].watchers[w]; wt.inflight == 0 && OlderTarget(wt)
    ensures var s, wt := run[i], run[i].watchers[w];
            && 0 < wt.from <= wt.registered <= |s.history|
            && s.history[wt.from - 1].rv == wt.target
            && var expected := Backlog(wt.filter, s.history[wt.from..wt.registered])
                               + LiveStream(wt.filter, s.history[wt.registered..]);
               wt.delivered <= expected && (Quiescent(s, w) ==> wt.delivered == expected)
  {
    hide Backlog, LiveStream, Quiescent, Next, Init;
    ExactIff(run, i, w);
    RangeFixed(run, i, w);
    DeliversStream(run, i, w);
  }

  /** A watcher that starts at the latest revision, or at a later one, replays whatever had been
      committed when its read transaction began. The events written since its registration and
      committed by then come twice; and if events that had been written at its registration were not
      committed by then, those never come. */
  lemma LateTargetRepeats(run: seq<State>, i: nat, w: nat)
    requires Run(run) && i < |run| && w in run[i].watchers && Started(run[i].watchers[w])
    requires !OlderTarget(run[i].watchers[w]) && Quiescent(run[i], w)
    ensures var s, wt := run[i], run[i].watchers[w];
            && wt.from <= wt.seen <= |s.history| && wt.registered <= |s.history|
            && var live := LiveStream(wt.filter, s.history[wt.registered..]);
               if wt.registered <= wt.seen then
                 var twice := if wt.from <= wt.registered then wt.registered else wt.from;
                 wt.delivered == Backlog(wt.filter, s.history[wt.from..twice])
                                 + Backlog(wt.filter, s.history[twice..wt.seen]) + live
               else
                 && wt.registered - wt.inflight <= wt.seen
                 && wt.delivered == Backlog(wt.filter, s.history[wt.from..wt.seen]) + live
  {
    hide Backlog, LiveStream, Quiescent, Next, Init, WatcherOk;
    ExactIff(run, i, w);
    DeliversStream(run, i, w);
    var s, wt := run[i], run[i].watchers[w];
    if wt.registered <= wt.seen {
      var twice := if wt.from <= wt.registered then wt.registered else wt.from;
      BacklogSplit(wt.filter, s.history, wt.from, twice, wt.seen);
    }
  }

  // ----- Two runs that show the exceptions -----

  lemma Extend(run: seq<State>, s: State) returns (more: seq<State>)
    requires Run(run) && Next(run[|run| - 1], s)
    ensures Run(more) && more == run + [s]
  {
    hide Next, Init;
    more := run + [s];
    forall i | 0 <= i < |more| - 1 ensures Next(more[i], more[i + 1]) {
      if i < |run| - 1 {
        assert Next(run[i], run[i + 1]);
      }
    }
  }

  const ANY_FILTER := WatchFilter("", "", None)

  function SampleEvent(rv: string): Event {
    Event(Added, rv, Meta("a", "", map[]), None)
  }

  lemma TwoRows(e1: Event, e2: Event)
    ensures RowsAfter([Row(1, e1), Row(2, e2)], 1) == [Row(2, e2)]
    ensures FindRow([Row(1, e1), Row(2, e2)], e1.rv) == Some(1)
  {
    var table := [Row(1, e1), Row(2, e2)];
    assert table[1..] == [Row(2, e2)] && table[1..][1..] == [];
    assert RowsFrom(table[1..], 2) == [Row(2, e2)] + RowsFrom([], 2);
  }

  /** The steps of a write after its fan-out. */
  lemma FinishWrite(run: seq<State>) returns (more: seq<State>)
    requires Run(run)
    requires var s := run[|run| - 1]; s.writer == FanOut({}) && s.history != [] && s.committed == |s.history| - 1
    ensures Run(more)
    ensures var s := run[|run| - 1];
            var e := s.history[|s.history| - 1];
            more[|more| - 1] ==
              s.(table := Insert(s.table, e), committed := |s.history|, latestRV := e.rv, writer := Idle)
  {
    var s := run[|run| - 1];
    var e := s.history[|s.history| - 1];
    more := Extend(run, s.(writer := Unlocked));
    more := Extend(more, s.(writer := Published, latestRV := e.rv));
    InsertOne(s.table, s.history);
    more := Extend(more, s.(table := Insert(s.table, e), committed := |s.history|, latestRV := e.rv, writer := Idle));
  }

  /** A complete write while nobody watches. */
  lemma WriteAlone(run: seq<State>, rv: string) returns (more: seq<State>)
    requires Run(run) && rv != ""
    requires var s := run[|run| - 1];
             && s.writer.Idle? && s.committed == |s.history| && s.watchers == map[]
             && forall i :: 0 <= i < |s.history| ==> s.history[i].rv != rv
    ensures Run(more)
    ensures var s, e := run[|run| - 1], SampleEvent(rv);
            more[|more| - 1] == State(s.history + [e], s.committed + 1, Insert(s.table, e), rv, Idle, map[])
  {
    var s, e := run[|run| - 1], SampleEvent(rv);
    var s1 := s.(history := s.history + [e], writer := FanOut({}));
    assert s.watchers.Keys == {};
    assert BeginWrite(s, s1, e);
    more := Extend(run, s1);
    more := FinishWrite(more);
  }

  /** Two events written, the third fanned out and its lock released, but not published. */
  lemma ThirdEventUnlocked() returns (run: seq<State>)
    ensures Run(run)
    ensures var e1, e2, e3 := SampleEvent("1"), SampleEvent("2"), SampleEvent("3");
            run[|run| - 1] == State([e1, e2, e3], 2, [Row(1, e1), Row(2, e2)], "2", Unlocked, map[])
  {
    var e1, e2, e3 := SampleEvent("1"), SampleEvent("2"), SampleEvent("3");
    run := WriteAlone([State([], 0, [], "", Idle, map[])], "1");
    run := WriteAlone(run, "2");
    var s := run[|run| - 1];
    assert s.history == [e1, e2] && s.table == [Row(1, e1), Row(2, e2)];
    var s1 := s.(history := [e1, e2, e3], writer := FanOut({}));
    assert s.watchers.Keys == {} && s1.history == s.history + [e3];
    assert BeginWrite(s, s1, e3);
    run := Extend(run, s1);
    run := Extend(run, s1.(writer := Unlocked));
  }

  /** A step of the only watcher. */
  lemma Drive(run: seq<State>, wt: Watcher) returns (more: seq<State>)
    requires Run(run)
    requires var s := run[|run| - 1]; WatcherStep(s, s.(watchers := map[0 := wt]), 0)
    ensures Run(more) && more[|more| - 1] == run[|run| - 1].(watchers := map[0 := wt])
  {
    hide WatcherStep;
    more := Extend(run, run[|run| - 1].(watchers := map[0 := wt]));
  }

  /** Replaying the only row left, and signalling that the backfill is done. */
  lemma ReplayLast(run: seq<State>, wt: Watcher, e: Event, row: nat) returns (more: seq<State>)
    requires Run(run) && run[|run| - 1].watchers == map[0 := wt]
    requires wt.stage == Replaying([Row(row, e)]) && wt.filter == ANY_FILTER && wt.delivered == []
    ensures Run(more)
    ensures var wt' := wt.(stage := Watching, pos := wt.pos + 1, delivered := [NoticeOf(e)], proxy := BP.Signal(wt.proxy));
            more[|more| - 1] == run[|run| - 1].(watchers := map[0 := wt'])
  {
    var s := run[|run| - 1];
    var w1 := wt.(stage := Replaying([]), pos := wt.pos + 1, delivered := [NoticeOf(e)]);
    var s1 := s.(watchers := map[0 := w1]);
    assert wt.stage.todo[1..] == [] && wt.delivered + [NoticeOf(e)] == [NoticeOf(e)];
    assert s1.watchers == s.watchers[0 := w1];
    assert Replay(s, s1, 0);
    more := Drive(run, w1);
    var w2 := w1.(stage := Watching, proxy := BP.Signal(w1.proxy));
    assert s1.watchers[0 := w2] == map[0 := w2];
    assert BackfillDone(s1, s.(watchers := map[0 := w2]), 0);
    more := Drive(more, w2);
  }

  /** Registering between the release of the lock and the publication loses the third event: when all is
      written and delivered, the watcher has received the second event only. */
  lemma EventLost() returns (run: seq<State>)
    ensures Run(run)
    ensures var s := run[|run| - 1];
            && 0 in s.watchers && Quiescent(s, 0) && s.writer.Idle? && |s.history| == 3
            && var wt := s.watchers[0];
               && wt.filter == ANY_FILTER && wt.target == s.history[0].rv
               && wt.delivered == [NoticeOf(s.history[1])]
  {
    var e1, e2 := SampleEvent("1"), SampleEvent("2");
    run := ThirdEventUnlocked();
    var s := run[|run| - 1];
    var w1 := Watcher(ANY_FILTER, BP.Fresh(), Registered, "2", "1", [], 1, 3, 1, 0, 0, 0, 0);
    var s1 := s.(watchers := map[0 := w1]);
    assert Register(s, s1, 0, ANY_FILTER, "1");
    run := Extend(run, s1);
    TwoRows(e1, e2);
    var w2 := w1.(stage := Replaying([Row(2, e2)]), seen := 2, from := 1, pos := 1, to := 2);
    var s2 := s1.(watchers := map[0 := w2]);
    assert WatcherStep(s1, s2, 0) by {
      assert Snapshot(s1, s2, 0);
    }
    run := Extend(run, s2);
    run := ReplayLast(run, w2, e2, 2);
    var s3 := run[|run| - 1];
    run := Extend(run, s3.(writer := Published, latestRV := "3"));
    InsertOne(s3.table, s3.history);
    run := Extend(run, s3.(writer := Idle, latestRV := "3", committed := 3, table := Insert(s3.table, s3.history[2])));
  }

  /** Starting at the latest revision repeats the second event: it is replayed, and then delivered live. */
  lemma EventRepeated() returns (run: seq<State>)
    ensures Run(run)
    ensures var s := run[|run| - 1];
            && 0 in s.watchers && Quiescent(s, 0) && |s.history| == 2
            && var wt := s.watchers[0];
               && wt.inflight == 0 && wt.filter == ANY_FILTER && wt.target == s.history[0].rv
               && wt.delivered == [NoticeOf(s.history[1]), NoticeOf(s.history[1])]
  {
    hide Run;
    var e1, e2 := SampleEvent("1"), SampleEvent("2");
    var w2 := Watcher(ANY_FILTER, BP.Receive(BP.Fresh(), NoticeOf(e2)), Registered, "1", "1", [], 0, 1, 0, 0, 0, 0, 0);
    run := RepeatNotified(w2, e1, e2);
    run := RepeatSnapshot(run, w2, e1, e2);
    var w3 := w2.(stage := Replaying([Row(2, e2)]), seen := 2, from := 1, pos := 1, to := 2);
    run := ReplayLast(run, w3, e2, 2);
    var w4 := w3.(stage := Watching, pos := 2, delivered := [NoticeOf(e2)], proxy := BP.Signal(w3.proxy));
    run := FlushOne(run, w4, NoticeOf(e2));
  }

  /** The second event is written after the watcher registered, and before it reads the log. */
  lemma RepeatNotified(w2: Watcher, e1: Event, e2: Event) returns (run: seq<State>)
    requires e1 == SampleEvent("1") && e2 == SampleEvent("2")
    requires w2 == Watcher(ANY_FILTER, BP.Receive(BP.Fresh(), NoticeOf(e2)), Registered, "1", "1", [], 0, 1, 0, 0, 0, 0, 0)
    ensures Run(run)
    ensures run[|run| - 1] == State([e1, e2], 2, [Row(1, e1), Row(2, e2)], "2", Idle, map[0 := w2])
  {
    var w1 := w2.(proxy := BP.Fresh());
    run := WriteAlone([State([], 0, [], "", Idle, map[])], "1");
    var s1 := State([e1], 1, [Row(1, e1)], "1", Idle, map[0 := w1]);
    assert Register(run[|run| - 1], s1, 0, ANY_FILTER, "");
    run := Extend(run, s1);
    var s2 := s1.(history := [e1, e2], writer := FanOut({0}));
    assert s1.watchers.Keys == {0} && s2.history == s1.history + [e2];
    assert BeginWrite(s1, s2, e2);
    run := Extend(run, s2);
    var s3 := s2.(writer := FanOut({}), watchers := map[0 := w2]);
    assert {0} - {0} == {} && s3.watchers == s2.watchers[0 := w2];
    assert Notify(s2, s3, 0);
    run := Extend(run, s3);
    run := FinishWrite(run);
  }

  /** A signalled proxy flushes the one event it has queued. */
  lemma FlushOne(run: seq<State>, wt: Watcher, n: Notice) returns (more: seq<State>)
    requires Run(run) && run[|run| - 1].watchers == map[0 := wt]
    requires wt.proxy.phase == BP.Accumulating && wt.proxy.signalled && !wt.proxy.cancelled && wt.proxy.queue == [n]
    ensures Run(more)
    ensures var p := wt.proxy.(phase := BP.Flushing, queue := [], sent := wt.proxy.sent + [n]);
            more[|more| - 1] == run[|run| - 1].(watchers := map[0 := wt.(proxy := p, delivered := wt.delivered + [n])])
  {
    var p1 := wt.proxy.(phase := BP.Waiting);
    var p2 := wt.proxy.(phase := BP.Flushing);
    more := DriveProxy(run, wt, p1);
    more := DriveProxy(more, wt.(proxy := p1), p2);
    var s := more[|more| - 1];
    var w2 := wt.(proxy := p2);
    var w3 := w2.(proxy := BP.Send(p2), delivered := w2.delivered + [BP.Sending(p2)]);
    assert p2.queue[1..] == [] && s.watchers[0 := w3] == map[0 := w3];
    assert ProxySend(s, s.(watchers := map[0 := w3]), 0);
    more := Drive(more, w3);
  }

  lemma DriveProxy(run: seq<State>, wt: Watcher, p: BP.Proxy<Notice>) returns (more: seq<State>)
    requires Run(run) && run[|run| - 1].watchers == map[0 := wt] && BP.Internal(MAX_BUFFER, wt.proxy, p)
    ensures Run(more) && more[|more| - 1] == run[|run| - 1].(watchers := map[0 := wt.(proxy := p)])
  {
    hide BP.Internal;
    var s := run[|run| - 1];
    assert s.watchers[0 := wt.(proxy := p)] == map[0 := wt.(proxy := p)];
    assert ProxyInternal(s, s.(watchers := map[0 := wt.(proxy := p)]), 0);
    more := Drive(run, wt.(proxy := p));
  }

  lemma RepeatSnapshot(run: seq<State>, w: Watcher, e1: Event, e2: Event) returns (more: seq<State>)
    requires Run(run) && e1.rv != e2.rv
    requires run[|run| - 1] == State([e1, e2], 2, [Row(1, e1), Row(2, e2)], e2.rv, Idle, map[0 := w])
    requires w.stage.Registered? && w.target == w.latest == e1.rv
    ensures Run(more)
    ensures more[|more| - 1] == State([e1, e2], 2, [Row(1, e1), Row(2, e2)], e2.rv, Idle,
              map[0 := w.(stage := Replaying([Row(2, e2)]), seen := 2, from := 1, pos := 1, to := 2)])
  {
    var s := run[|run| - 1];
    TwoRows(e1, e2);
    var s' := s.(watchers := map[0 := w.(stage := Replaying([Row(2, e2)]), seen := 2, from := 1, pos := 1, to := 2)]);
    assert WatcherStep(s, s', 0) by {
      assert [Row(2, e2)][1..] == [];
      assert Snapshot(s, s', 0);
    }
    more := Extend(run, s');
  }

  /** Revisions x, xx, xxx, ... */
  function SampleRv(i: nat): string { seq(i + 1, _ => 'x') }

  function Samples(n: nat): seq<Event> { seq(n, i requires 0 <= i < n => SampleEvent(SampleRv(i))) }

  /** The first event is committed; the open transaction has written and published `n` more. */
  lemma {:induction false} OpenTransaction(n: nat) returns (run: seq<State>)
    ensures Run(run)
    ensures run[|run| - 1] == State(Samples(n + 1), 1, [Row(1, SampleEvent("x"))], SampleRv(n),
                                    if n == 0 then Idle else Published, map[])
  {
    assert SampleRv(0) == "x" && Samples(1) == [SampleEvent("x")];
    if n == 0 {
      run := WriteAlone([State([], 0, [], "", Idle, map[])], "x");
    } else {
      run := OpenTransaction(n - 1);
      var s, e := run[|run| - 1], SampleEvent(SampleRv(n));
      assert Samples(n + 1) == Samples(n) + [e];
      assert s.watchers.Keys == {} && |e.rv| == n + 1 && forall i :: 0 <= i < n ==> |s.history[i].rv| == i + 1;
      var s1 := s.(history := Samples(n + 1), writer := FanOut({}));
      assert BeginWrite(s, s1, e);
      run := Extend(run, s1);
      run := Extend(run, s1.(writer := Unlocked));
      run := Extend(run, s1.(writer := Published, latestRV := e.rv));
    }
  }

  /** However many events a transaction writes, a watcher that registers and reads the log before it commits
      can miss them all: everything is written and delivered, and nothing was received. */
  lemma ManyLost(n: nat) returns (run: seq<State>)
    requires n > 0
    ensures Run(run)
    ensures var s := run[|run| - 1];
            && 0 in s.watchers && Quiescent(s, 0) && s.writer.Idle? && |s.history| == n + 1
            && var wt := s.watchers[0];
               && wt.filter == ANY_FILTER && wt.target == s.history[0].rv
               && wt.registered == |s.history| && wt.inflight == n && wt.delivered == []
  {
    run := OpenTransaction(n);
    var s := run[|run| - 1];
    var w1 := Watcher(ANY_FILTER, BP.Fresh(), Registered, SampleRv(n), "x", [], n, n + 1, n, 0, 0, 0, 0);
    var s1 := s.(watchers := map[0 := w1]);
    assert Register(s, s1, 0, ANY_FILTER, "x");
    run := Extend(run, s1);
    var w2 := w1.(stage := Replaying([]), seen := 1, from := 1, pos := 1, to := 1);
    ManySnapshot(s1, w1, w2);
    run := Drive(run, w2);
    var s2 := s1.(watchers := map[0 := w2]);
    var w3 := w2.(stage := Watching, proxy := BP.Signal(w2.proxy));
    assert s2.watchers[0 := w3] == map[0 := w3];
    assert BackfillDone(s2, s2.(watchers := map[0 := w3]), 0);
    run := Drive(run, w3);
    var s3 := s2.(watchers := map[0 := w3]);
    run := Extend(run, s3.(writer := Idle, committed := n + 1, table := InsertAll(s3.table, s3.history[1..])));
  }

  lemma ManySnapshot(s: State, w1: Watcher, w2: Watcher)
    requires s.table == [Row(1, SampleEvent("x"))] && s.committed == 1 && s.watchers == map[0 := w1]
    requires w1.stage.Registered? && w1.target == "x"
    requires w2 == w1.(stage := Replaying([]), seen := 1, from := 1, pos := 1, to := 1)
    ensures WatcherStep(s, s.(watchers := map[0 := w2]), 0)
  {
    assert s.table[1..] == [];
    assert RowsFrom(s.table, 2) == RowsFrom(s.table[1..], 2);
    assert s.watchers[0 := w2] == map[0 := w2];
    assert Snapshot(s, s.(watchers := map[0 := w2]), 0);
  }
}
