/**
 A list followed by a watch from the revision it returned (`executeQuery` and `Watch` in
 pkg/sqlcache/informer/listoption_indexer.go). The list reads its rows in a transaction and `latestRV`
 only afterwards, and `latestRV` is published before its event is committed, so that the revision can
 be newer than the rows.
 */
module ListThenWatch {
  import opened Prelude
  import opened EventLog
  import opened Watch
  import BP = BackfillProxy

  /** The moments of a run at which a list begins its read transaction and reads `latestRV`, a watcher with
      that revision registers and begins its own read transaction, and we look. */
  datatype Moments = Moments(rows: nat, revision: nat, register: nat, snapshot: nat, now: nat)

  /** Reading changes nothing, so a list leaves no trace in the run. */
  ghost predicate HandOff(run: seq<State>, m: Moments, w: nat, f: WatchFilter) {
    && Run(run) && m.rows <= m.revision <= m.register < m.snapshot < m.now < |run|
    && Register(run[m.register], run[m.register + 1], w, f, run[m.revision].latestRV)
    && Snapshot(run[m.snapshot], run[m.snapshot + 1], w)
    && (forall i :: m.register < i <= m.now ==> w in run[i].watchers)
    && Started(run[m.now].watchers[w])
  }

  /** The listed rows show the first `rows` events; they and the stream are the whole history. */
  ghost predicate Whole(history: seq<Event>, rows: nat, from: nat, to: nat, registered: nat)
    requires rows <= |history| && from <= to <= |history| && registered <= |history|
  {
    history[..rows] + history[from..to] + history[registered..] == history
  }

  /** The index of the oldest event in the log. */
  function Oldest(s: State): int { if s.table == [] then s.committed else s.table[0].rowid - 1 }

  // ----- What stays along a run -----

  /** What a watcher keeps: its registration and, once it has begun, the range of its replay. */
  ghost predicate Keeps(wt: Watcher, wt': Watcher) {
    && wt'.filter == wt.filter && wt'.target == wt.target && wt'.latest == wt.latest
    && wt'.inflight == wt.inflight && wt'.registered == wt.registered && wt'.published == wt.published
    && (Started(wt) ==> Started(wt') && wt'.seen == wt.seen && wt'.from == wt.from && wt'.to == wt.to)
    && (wt.stage.TooOld? ==> wt'.stage.TooOld?)
  }

  lemma StepKeeps(s: State, s': State, w: nat)
    requires Next(s, s') && w in s.watchers && w in s'.watchers
    ensures Keeps(s.watchers[w], s'.watchers[w])
  {
    hide Keeps, WatcherStep, Notify;
    KeepsSelf(s.watchers[w]);
    if v :| WatcherStep(s, s', v) {
      WatcherStepKeeps(s, s', v, w);
    } else if v :| Notify(s, s', v) {
      NotifyKeeps(s, s', v, w);
    }
  }

  lemma KeepsSelf(wt: Watcher)
    ensures Keeps(wt, wt)
  {
  }

  lemma WatcherStepKeeps(s: State, s': State, v: nat, w: nat)
    requires WatcherStep(s, s', v) && w in s.watchers && w in s'.watchers
    ensures Keeps(s.watchers[w], s'.watchers[w])
  {
    hide FindRow, RowsAfter, ReplayLength, MatchFilter, BP.Internal;
  }

  lemma NotifyKeeps(s: State, s': State, v: nat, w: nat)
    requires Notify(s, s', v) && w in s.watchers && w in s'.watchers
    ensures Keeps(s.watchers[w], s'.watchers[w])
  {
    hide MatchWatch;
  }

  lemma {:induction false} RunKeeps(run: seq<State>, w: nat, i: nat, j: nat)
    requires Run(run) && i <= j < |run| && forall k :: i <= k <= j ==> w in run[k].watchers
    ensures Keeps(run[i].watchers[w], run[j].watchers[w])
  {
    hide Next, Init;
    if i < j {
      RunKeeps(run, w, i, j - 1);
      StepKeeps(run[j - 1], run[j], w);
    }
  }

  /** Events and commits are only ever added, and the published revision only ever advances. */
  ghost predicate Before(s: State, s': State) {
    s.history <= s'.history && s.committed <= s'.committed && PublishedIndex(s) <= PublishedIndex(s')
  }

  lemma StepBefore(s: State, s': State, base: nat)
    requires Next(s, s') && LogOk(s, base)
    ensures Before(s, s')
  {
    hide Notify, Register, WatcherStep;
    if w :| Notify(s, s', w) {
      NotifySame(s, s', w);
    } else if w, f, rv :| Register(s, s', w, f, rv) {
      RegisterSame(s, s', w, f, rv);
    } else if w :| WatcherStep(s, s', w) {
      WatcherStepSame(s, s', w);
    }
  }

  lemma NotifySame(s: State, s': State, w: nat)
    requires Notify(s, s', w)
    ensures Before(s, s')
  {
    hide MatchWatch;
  }

  lemma RegisterSame(s: State, s': State, w: nat, f: WatchFilter, rv: string)
    requires Register(s, s', w, f, rv)
    ensures Before(s, s')
  {
  }

  lemma WatcherStepSame(s: State, s': State, w: nat)
    requires WatcherStep(s, s', w)
    ensures Before(s, s')
  {
    hide FindRow, RowsAfter, ReplayLength, MatchFilter, BP.Internal;
  }

  lemma {:induction false} RunBefore(run: seq<State>, i: nat, j: nat)
    requires Run(run) && i <= j < |run|
    ensures Before(run[i], run[j])
  {
    hide Next, Init, WatchersOk, LogOk;
    if i < j {
      RunBefore(run, i, j - 1);
      var base := RunInv(run, j - 1);
      StepBefore(run[j - 1], run[j], base);
    }
  }

  /** Nothing is committed before it is published. */
  lemma CommittedPublished(run: seq<State>, i: nat)
    requires Run(run) && i < |run|
    ensures var s := run[i];
            && s.committed <= PublishedIndex(s) + 1 <= |s.history|
            && s.latestRV == RvAt(s.history, PublishedIndex(s)) && DistinctRvs(s.history)
  {
    hide Next, Init, WatchersOk, Rows;
    var base := RunInv(run, i);
  }

  // ----- Sequences -----

  /** The three parts make up a history without repetitions if and only if they follow each other. */
  lemma WholeIff(history: seq<Event>, rows: nat, from: nat, to: nat, registered: nat)
    requires DistinctRvs(history)
    requires rows <= |history| && from <= to <= |history| && registered <= |history|
    ensures Whole(history, rows, from, to, registered) <==>
            if from < to then rows == from && to == registered else rows == registered
  {
    var parts := history[..rows] + history[from..to] + history[registered..];
    if parts == history {
      assert |parts| == rows + (to - from) + (|history| - registered);
      if from < to {
        assert parts[rows] == history[from];
      }
    }
  }

  // ----- The exact condition -----

  /** Where a replay starts: after the target's row, or at the oldest row. */
  lemma ReplayStart(s: State, s': State, w: nat, base: nat, t: int)
    requires Inv(s, base) && Snapshot(s, s', w) && -1 <= t < |s.history|
    requires s.watchers[w].target == RvAt(s.history, t) && Started(s'.watchers[w])
    ensures var wt := s'.watchers[w];
            && wt.seen == s.committed && base == Oldest(s)
            && base <= s.committed && (s.committed > 0 ==> base < s.committed)
            && wt.from == (if base <= t < s.committed then t + 1 else base)
            && (base <= t < s.committed || wt.target == wt.latest)
  {
    hide WatchersOk, Rows, Snapshot;
    SnapshotStage(s, s', w);
    OldestIsBase(s, base);
    if base <= t < s.committed {
      SnapshotFound(s, s', w, base, t);
    } else {
      SnapshotNotFound(s, s', w, base);
    }
  }

  lemma OldestIsBase(s: State, base: nat)
    requires LogOk(s, base)
    ensures base == Oldest(s)
  {
  }

  /** The numbers of a hand-off: events listed, index of the returned revision, events written and index of the
      published one at registration, events committed and the oldest one retained at the watcher's read. */
  datatype Numbers = Numbers(rows: nat, revision: int, registered: nat, published: int, seen: nat, oldest: int)

  ghost function NumbersOf(run: seq<State>, m: Moments): Numbers
    requires m.rows <= m.revision <= m.register < m.snapshot < |run|
  {
    Numbers(run[m.rows].committed, PublishedIndex(run[m.revision]), |run[m.register].history|,
            PublishedIndex(run[m.register]), run[m.snapshot].committed, Oldest(run[m.snapshot]))
  }

  /** They are in the order of the moments: a list is never ahead of its revision. */
  predicate Ordered(n: Numbers) {
    && n.rows <= n.revision + 1 && n.revision <= n.published && n.registered - 2 <= n.published < n.registered
    && n.rows <= n.seen && 0 <= n.oldest <= n.seen && (n.seen > 0 ==> n.oldest < n.seen)
  }

  /** The event whose revision the watcher is given: an empty one stands for the latest. */
  function TargetOf(n: Numbers): int { if n.revision < 0 then n.published else n.revision }

  lemma OrderedNumbers(run: seq<State>, m: Moments, w: nat, f: WatchFilter)
    requires HandOff(run, m, w, f)
    ensures Ordered(NumbersOf(run, m))
  {
    hide Next, Init, Register, Snapshot, LogOk, WatchersOk;
    RunBefore(run, m.rows, m.revision);
    RunBefore(run, m.revision, m.register);
    RunBefore(run, m.register, m.snapshot);
    CommittedPublished(run, m.rows);
    CommittedPublished(run, m.register);
    NotFanningOut(run[m.register], run[m.register + 1], w, f, run[m.revision].latestRV);
    var base := RunInv(run, m.snapshot);
    OldestBounds(run[m.snapshot], base);
  }

  lemma NotFanningOut(s: State, s': State, w: nat, f: WatchFilter, rv: string)
    requires Register(s, s', w, f, rv)
    ensures |s.history| - 2 <= PublishedIndex(s)
  {
  }

  lemma OldestBounds(s: State, base: nat)
    requires LogOk(s, base)
    ensures 0 <= Oldest(s) <= s.committed && (s.committed > 0 ==> Oldest(s) < s.committed)
  {
    OldestIsBase(s, base);
  }

  lemma SameRv(h: seq<Event>, h': seq<Event>, i: int)
    requires h <= h' && i < |h|
    ensures RvAt(h', i) == RvAt(h, i)
  {
  }

  lemma RvInjective(h: seq<Event>, i: int, j: int)
    requires DistinctRvs(h) && -1 <= i < |h| && -1 <= j < |h|
    ensures RvAt(h, i) == RvAt(h, j) <==> i == j
  {
  }

  /** What the watcher was registered with. */
  lemma Registration(run: seq<State>, m: Moments, w: nat, f: WatchFilter, i: nat)
    requires HandOff(run, m, w, f) && m.register < i <= m.now
    ensures var n, h, wt := NumbersOf(run, m), run[i].history, run[i].watchers[w];
            && n.registered <= |h| && DistinctRvs(h)
            && wt.registered == n.registered && wt.published == n.published
            && wt.latest == RvAt(h, n.published) && wt.target == RvAt(h, TargetOf(n))
  {
    hide Next, Init, Snapshot;
    var r := run[m.register];
    RunKeeps(run, w, m.register + 1, i);
    RunBefore(run, m.register, i);
    RunBefore(run, m.revision, m.register);
    CommittedPublished(run, m.revision);
    CommittedPublished(run, m.register);
    CommittedPublished(run, i);
    SameRv(run[m.revision].history, run[i].history, PublishedIndex(run[m.revision]));
    SameRv(r.history, run[i].history, PublishedIndex(r));
    RvInjective(run[i].history, PublishedIndex(run[m.revision]), -1);
  }

  /** The range a watcher replays. */
  predicate RangeOf(n: Numbers, from: int, to: int) {
    var t := TargetOf(n);
    var found := n.oldest <= t < n.seen;
    && (found || t == n.published)
    && from == (if found then t + 1 else n.oldest)
    && to == (if t < n.published < n.seen then n.published + 1 else n.seen)
  }

  lemma ReplayRange(run: seq<State>, m: Moments, w: nat, f: WatchFilter)
    requires HandOff(run, m, w, f)
    ensures var wt := run[m.now].watchers[w]; RangeOf(NumbersOf(run, m), wt.from, wt.to)
  {
    hide Run, Init, Next, Register, Snapshot, WatchersOk, LogOk;
    var n, s := NumbersOf(run, m), run[m.snapshot];
    var wt := run[m.now].watchers[w];
    OrderedNumbers(run, m, w, f);
    Registration(run, m, w, f, m.snapshot);
    Registration(run, m, w, f, m.snapshot + 1);
    Registration(run, m, w, f, m.now);
    RunKeeps(run, w, m.snapshot + 1, m.now);
    SnapshotStarts(run[m.snapshot], run[m.snapshot + 1], w);
    var base := RunInv(run, m.snapshot);
    ReplayStart(s, run[m.snapshot + 1], w, base, TargetOf(n));
    RvInjective(run[m.snapshot + 1].history, TargetOf(n), n.published);
    RvInjective(run[m.now].history, TargetOf(n), n.published);
    ExactIff(run, m.now, w);
  }

  lemma SnapshotStarts(s: State, s': State, w: nat)
    requires Snapshot(s, s', w)
    ensures w in s'.watchers && (Started(s'.watchers[w]) || s'.watchers[w].stage.TooOld?)
  {
  }

  /** The condition, in numbers: the list saw everything that was published when it read its revision; and for a
      revision older than the latest at registration, nothing was written but unpublished then and all of it
      was committed when the watcher read the log; otherwise the revision is still the latest one, the log
      reaches back to it, and exactly the events written before the registration were committed. */
  predicate Complete(n: Numbers) {
    && n.rows == n.revision + 1
    && if 0 <= n.revision < n.published then n.published == n.registered - 1 && n.registered <= n.seen
       else n.revision == n.published && n.oldest <= n.revision + 1 && n.seen == n.registered
  }

  lemma CompleteIff(n: Numbers, from: int, to: int)
    requires Ordered(n) && RangeOf(n, from, to)
    ensures Complete(n) <==> if from < to then n.rows == from && to == n.registered else n.rows == n.registered
  {
  }

  /** What was listed and what is streamed make up the whole history if and only if the numbers are right. */
  lemma HandOffIff(run: seq<State>, m: Moments, w: nat, f: WatchFilter)
    requires HandOff(run, m, w, f)
    ensures var n, h, wt := NumbersOf(run, m), run[m.now].history, run[m.now].watchers[w];
            && Ordered(n) && n.rows <= |h| && wt.from <= wt.to <= |h| && wt.registered <= |h|
            && (Whole(h, n.rows, wt.from, wt.to, wt.registered) <==> Complete(n))
  {
    hide Init, Next, Register, Snapshot, Whole, Complete, Ordered, RangeOf;
    var n, h, wt := NumbersOf(run, m), run[m.now].history, run[m.now].watchers[w];
    OrderedNumbers(run, m, w, f);
    Registration(run, m, w, f, m.now);
    ReplayRange(run, m, w, f);
    DeliversStream(run, m.now, w);
    RunBefore(run, m.rows, m.now);
    CommittedPublished(run, m.now);
    CommittedPublished(run, m.rows);
    CompleteIff(n, wt.from, wt.to);
    WholeIff(h, n.rows, wt.from, wt.to, wt.registered);
  }

  // ----- What is received -----

  function Notices(events: seq<Event>): seq<Notice> {
    seq(|events|, i requires 0 <= i < |events| => NoticeOf(events[i]))
  }

  lemma {:induction false} Unfiltered(events: seq<Event>)
    ensures Backlog(ANY_FILTER, events) == Notices(events) && LiveStream(ANY_FILTER, events) == Notices(events)
  {
    if events != [] {
      Unfiltered(events[..|events| - 1]);
    }
  }

  lemma NoticesWhole(history: seq<Event>, rows: nat, from: nat, to: nat, registered: nat)
    requires DistinctRvs(history)
    requires rows <= |history| && from <= to <= |history| && registered <= |history|
    ensures Notices(history[..rows]) + (Notices(history[from..to]) + Notices(history[registered..])) == Notices(history)
            <==> Whole(history, rows, from, to, registered)
  {
    var parts := history[..rows] + history[from..to] + history[registered..];
    var got := Notices(history[..rows]) + (Notices(history[from..to]) + Notices(history[registered..]));
    assert got == Notices(parts);
    WholeIff(history, rows, from, to, registered);
    if got == Notices(history) {
      assert |parts| == |history|;
      if from < to {
        assert got[rows] == NoticeOf(history[from]) && Notices(history)[rows] == NoticeOf(history[rows]);
      }
    }
  }

  /** A client that lists and then watches everything has, once nothing is in flight, been told of every event once
      and in order if and only if the numbers are right. */
  lemma ClientComplete(run: seq<State>, m: Moments, w: nat)
    requires HandOff(run, m, w, ANY_FILTER) && Quiescent(run[m.now], w)
    ensures var n, s := NumbersOf(run, m), run[m.now];
            && n.rows <= |s.history|
            && (Notices(s.history[..n.rows]) + s.watchers[w].delivered == Notices(s.history) <==> Complete(n))
  {
    hide Init, Next, Register, Snapshot, Whole, Complete, Ordered, Notices, Backlog, LiveStream, Quiescent;
    var n, h, wt := NumbersOf(run, m), run[m.now].history, run[m.now].watchers[w];
    HandOffIff(run, m, w, ANY_FILTER);
    DeliversStream(run, m.now, w);
    FilterKept(run, m, w);
    CommittedPublished(run, m.now);
    Unfiltered(h[wt.from..wt.to]);
    Unfiltered(h[wt.registered..]);
    NoticesWhole(h, n.rows, wt.from, wt.to, wt.registered);
  }

  lemma FilterKept(run: seq<State>, m: Moments, w: nat)
    requires HandOff(run, m, w, ANY_FILTER)
    ensures run[m.now].watchers[w].filter == ANY_FILTER
  {
    hide Init, Next, Snapshot;
    RunKeeps(run, w, m.register + 1, m.now);
  }

  // ----- Two clients that are told too little, or the wrong things -----

  /** The steps of a watcher with nothing, or one row, to replay, after which all is delivered. */
  lemma AfterRegistration(run: seq<State>, wt: Watcher, rows: seq<Row>) returns (all: seq<State>)
    requires Run(run) && run[|run| - 1].watchers == map[0 := wt] && !run[|run| - 1].writer.FanOut?
    requires wt.stage.Registered? && wt.filter == ANY_FILTER && wt.delivered == [] && wt.proxy == BP.Fresh()
    requires var s := run[|run| - 1];
             && |rows| <= 1 && |rows| <= s.committed
             && (FindRow(s.table, wt.target).Some? || wt.target == wt.latest)
             && rows == RowsAfter(s.table, var r := FindRow(s.table, wt.target); if r.Some? then r.value else 0)
    ensures Run(all) && run <= all && |all| == |run| + 2 + |rows|
    ensures Snapshot(run[|run| - 1], all[|run|], 0)
    ensures forall i :: |run| <= i < |all| ==> 0 in all[i].watchers && all[i].history == run[|run| - 1].history
    ensures var s := all[|all| - 1];
            && Quiescent(s, 0) && s.history == run[|run| - 1].history
            && s.watchers[0].delivered == if rows == [] then [] else [NoticeOf(rows[0].event)]
  {
    hide FindRow, RowsAfter;
    var s := run[|run| - 1];
    var from := s.committed - |rows|;
    assert ReplayLength(rows, wt.latest) == |rows|;
    var w1 := wt.(stage := Replaying(rows), seen := s.committed, from := from, pos := from, to := from + |rows|);
    var s1 := s.(watchers := map[0 := w1]);
    assert s.watchers[0 := w1] == map[0 := w1];
    assert Snapshot(s, s1, 0);
    all := ExtendWatcher(run, s1);
    var w2 := w1;
    if rows != [] {
      w2 := w1.(stage := Replaying([]), pos := from + 1, delivered := [NoticeOf(rows[0].event)]);
      assert rows[1..] == [] && wt.delivered + [NoticeOf(rows[0].event)] == [NoticeOf(rows[0].event)];
      assert s1.watchers[0 := w2] == map[0 := w2];
      assert Replay(s1, s.(watchers := map[0 := w2]), 0);
      all := ExtendWatcher(all, s.(watchers := map[0 := w2]));
    }
    var s2 := s.(watchers := map[0 := w2]);
    var w3 := w2.(stage := Watching, proxy := BP.Signal(w2.proxy));
    assert s2.watchers[0 := w3] == map[0 := w3];
    assert BackfillDone(s2, s.(watchers := map[0 := w3]), 0);
    all := ExtendWatcher(all, s.(watchers := map[0 := w3]));
  }

  lemma ExtendWatcher(run: seq<State>, s: State) returns (more: seq<State>)
    requires Run(run) && WatcherStep(run[|run| - 1], s, 0)
    ensures Run(more) && more == run + [s]
  {
    hide WatcherStep;
    more := Extend(run, s);
  }

  /** Two events, the second published but not committed. */
  lemma SecondPublished() returns (run: seq<State>, e1: Event, e2: Event)
    ensures Run(run) && e1 == SampleEvent("x") && e2 == SampleEvent("xx")
    ensures run[|run| - 1] == State([e1, e2], 1, [Row(1, e1)], "xx", Published, map[])
  {
    run := OpenTransaction(1);
    e1, e2 := SampleEvent("x"), SampleEvent("xx");
    assert SampleRv(0) == "x" && SampleRv(1) == "xx";
    assert Samples(2) == [e1, e2];
  }

  /** The list begins and ends between the publication of an event and its commit, and the watcher comes later:
      the list does not show the event, and the stream begins after it. */
  lemma ListMisses() returns (run: seq<State>, m: Moments)
    ensures HandOff(run, m, 0, ANY_FILTER) && Quiescent(run[m.now], 0)
    ensures |run[m.now].history| == 2 && run[m.rows].committed == 1 && run[m.now].watchers[0].delivered == []
  {
    hide Next, Init, FindRow, RowsAfter, InsertAll;
    var e1, e2;
    run, e1, e2 := SecondPublished();
    var k := |run| - 1;
    run := SecondCommitted(run, e1, e2);
    var s1 := run[k + 1];
    var wt := Watcher(ANY_FILTER, BP.Fresh(), Registered, "xx", "xx", [], 0, 2, 1, 0, 0, 0, 0);
    var s2 := s1.(watchers := map[0 := wt]);
    assert Register(s1, s2, 0, ANY_FILTER, "xx");
    run := ExtendRegister(run, s2, "xx");
    SecondRow(e1, e2);
    run := AfterRegistration(run, wt, []);
    m := Moments(k, k, k + 1, k + 2, |run| - 1);
  }

  lemma SecondCommitted(run: seq<State>, e1: Event, e2: Event) returns (more: seq<State>)
    requires Run(run) && run[|run| - 1] == State([e1, e2], 1, [Row(1, e1)], e2.rv, Published, map[])
    ensures Run(more) && more == run + [State([e1, e2], 2, [Row(1, e1), Row(2, e2)], e2.rv, Idle, map[])]
  {
    var s := run[|run| - 1];
    assert s.history[1..] == s.history[|s.history| - 1..];
    InsertOne(s.table, s.history);
    var s' := s.(writer := Idle, committed := 2, table := [Row(1, e1), Row(2, e2)]);
    assert Commit(s, s');
    more := Extend(run, s');
  }

  lemma ExtendRegister(run: seq<State>, s: State, rv: string) returns (more: seq<State>)
    requires Run(run) && Register(run[|run| - 1], s, 0, ANY_FILTER, rv)
    ensures Run(more) && more == run + [s]
  {
    hide Register;
    more := Extend(run, s);
  }

  lemma SecondRow(e1: Event, e2: Event)
    requires e1.rv != e2.rv
    ensures FindRow([Row(1, e1), Row(2, e2)], e2.rv) == Some(2) && RowsAfter([Row(1, e1), Row(2, e2)], 2) == []
  {
    var table := [Row(1, e1), Row(2, e2)];
    assert table[1..] == [Row(2, e2)] && table[1..][1..] == [];
    assert RowsFrom(table, 3) == RowsFrom(table[1..], 3) == RowsFrom([], 3);
  }

  /** The same list, and the watcher comes before the commit: its revision is the latest, but has no row yet, and
      so the whole log is replayed. The first event is both listed and streamed, the second neither. */
  lemma ListRepeats() returns (run: seq<State>, m: Moments)
    ensures HandOff(run, m, 0, ANY_FILTER) && Quiescent(run[m.now], 0)
    ensures |run[m.now].history| == 2 && run[m.rows].committed == 1
    ensures run[m.now].watchers[0].delivered == [NoticeOf(run[m.now].history[0])]
  {
    hide Next, Init, FindRow, RowsAfter, InsertAll;
    var e1, e2;
    run, e1, e2 := SecondPublished();
    var k := |run| - 1;
    var s0 := run[k];
    var wt := Watcher(ANY_FILTER, BP.Fresh(), Registered, "xx", "xx", [], 1, 2, 1, 0, 0, 0, 0);
    var s1 := s0.(watchers := map[0 := wt]);
    assert Register(s0, s1, 0, ANY_FILTER, "xx");
    run := ExtendRegister(run, s1, "xx");
    FirstRow(e1, e2.rv);
    run := AfterRegistration(run, wt, [Row(1, e1)]);
    m := Moments(k, k, k, k + 1, |run| - 1);
  }

  lemma FirstRow(e: Event, rv: string)
    requires e.rv != rv
    ensures FindRow([Row(1, e)], rv) == None && RowsAfter([Row(1, e)], 0) == [Row(1, e)]
  {
    assert [Row(1, e)][1..] == [];
    assert RowsFrom([], 1) == [];
  }
}
