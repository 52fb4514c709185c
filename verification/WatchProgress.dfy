/**
 When a fan-out can finish (`notifyEvent` in pkg/sqlcache/informer/listoption_indexer.go).

 The writer hands the event to one watcher after the other, holding the read lock, and waits for
 each. A watcher that will never read again blocks it, and cannot be removed, since that takes the
 write lock.
 */
module WatchProgress {
  import opened Prelude
  import opened EventLog
  import opened Watch
  import BP = BackfillProxy

  function Last(run: seq<State>): State
    requires |run| > 0
  {
    run[|run| - 1]
  }

  /** The proxy has stopped reading until the backfill is done. */
  predicate Blocked(p: BP.Proxy<Notice>) {
    p.phase == BP.Waiting || (p.phase == BP.Accumulating && |p.queue| >= MAX_BUFFER)
  }

  /** The backfill will never be done: the target was not in the log, or is not. */
  predicate Refused(s: State, wt: Watcher) {
    wt.stage.TooOld? || (wt.stage.Registered? && wt.target != wt.latest && FindRow(s.table, wt.target).None?)
  }

  /** A watcher that reads nothing more: its proxy has returned, or is blocked and was cancelled or
      its backfill is refused. */
  predicate Dead(s: State, wt: Watcher) {
    || wt.proxy.phase == BP.Stopped
    || (Blocked(wt.proxy) && (wt.proxy.cancelled || (!wt.proxy.signalled && Refused(s, wt))))
  }

  /** The event being written is still to be handed to this watcher. */
  predicate Awaited(s: State, w: nat) {
    && s.writer.FanOut? && w in s.writer.pending && w in s.watchers && s.history != []
    && MatchWatch(s.watchers[w].filter, s.history[|s.history| - 1])
  }

  predicate Stuck(s: State, w: nat) {
    Awaited(s, w) && Dead(s, s.watchers[w])
  }

  // ----- A stuck fan-out stays stuck -----

  lemma StuckStep(s: State, s': State, w: nat)
    requires Stuck(s, w) && WatcherStep(s, s', w)
    ensures Stuck(s', w)
  {
    hide FindRow, MatchWatch, RowsAfter, ReplayLength;
    var p := s.watchers[w].proxy;
    assert !BP.CanSend(p);
  }

  lemma OtherStep(s: State, s': State, w: nat, v: nat)
    requires Stuck(s, w) && w != v && (WatcherStep(s, s', v) || Notify(s, s', v))
    ensures Stuck(s', w)
  {
    hide FindRow, MatchWatch, MatchFilter, RowsAfter, ReplayLength, BP.Internal;
  }

  /** No step of the machine frees it. */
  lemma StuckStays(s: State, s': State, w: nat)
    requires Stuck(s, w) && Next(s, s')
    ensures Stuck(s', w)
  {
    hide Stuck, WatcherStep, Notify;
    StuckMeans(s, w);
    if v :| Notify(s, s', v) {
      NotNotified(s, s', w, v);
      OtherStep(s, s', w, v);
    } else {
      var v :| WatcherStep(s, s', v);
      if v == w {
        StuckStep(s, s', w);
      } else {
        OtherStep(s, s', w, v);
      }
    }
  }

  lemma StuckMeans(s: State, w: nat)
    requires Stuck(s, w)
    ensures s.writer.FanOut? && s.writer.pending != {}
  {
  }

  lemma NotNotified(s: State, s': State, w: nat, v: nat)
    requires Stuck(s, w) && Notify(s, s', v)
    ensures v != w
  {
    hide MatchWatch, Refused;
  }

  lemma {:induction false} StuckForever(run: seq<State>, i: nat, j: nat, w: nat)
    requires Run(run) && i <= j < |run| && Stuck(run[i], w)
    ensures Stuck(run[j], w)
  {
    hide Stuck, Next, Init;
    if i < j {
      StuckForever(run, i, j - 1, w);
      StuckStays(run[j - 1], run[j], w);
    }
  }

  /** A cancelled watcher whose proxy returned before its registration was removed: the next event
      is never handed to it. */
  lemma FanOutStuck() returns (run: seq<State>)
    ensures Run(run) && Stuck(Last(run), 0)
  {
    var s0 := State([], 0, [], "", Idle, map[]);
    var w1 := Watcher(ANY_FILTER, BP.Fresh(), Registered, "", "", [], 0, 0, -1, 0, 0, 0, 0);
    var s1 := s0.(watchers := map[0 := w1]);
    assert Register(s0, s1, 0, ANY_FILTER, "");
    run := Extend([s0], s1);
    var w2 := w1.(proxy := BP.Cancel(w1.proxy));
    assert s1.watchers[0 := w2] == map[0 := w2];
    assert Cancel(s1, s1.(watchers := map[0 := w2]), 0);
    run := Drive(run, w2);
    var w3 := w2.(proxy := w2.proxy.(phase := BP.Stopped));
    run := DriveProxy(run, w2, w3.proxy);
    var s3 := s0.(watchers := map[0 := w3]);
    var e := SampleEvent("1");
    var s4 := s3.(history := [e], writer := FanOut({0}));
    assert s3.watchers.Keys == {0} && s4.history == s3.history + [e];
    assert BeginWrite(s3, s4, e);
    run := Extend(run, s4);
  }

  // ----- A fan-out that is not stuck can finish -----

  /** `more` extends `run` by steps of one watcher. */
  ghost predicate Driven(run: seq<State>, more: seq<State>, w: nat) {
    && Run(run) && Run(more) && run <= more
    && var s, s' := Last(run), Last(more);
       && w in s.watchers && w in s'.watchers
       && s' == s.(watchers := s.watchers[w := s'.watchers[w]])
       && s'.watchers[w].filter == s.watchers[w].filter
  }

  lemma DrivenOn(run: seq<State>, mid: seq<State>, more: seq<State>, w: nat)
    requires Driven(run, mid, w) && Driven(mid, more, w)
    ensures Driven(run, more, w)
  {
    hide Next, Init;
    var s, s' := Last(run), Last(more);
    assert s'.watchers == s.watchers[w := s'.watchers[w]];
  }

  lemma Step(run: seq<State>, w: nat, wt: Watcher) returns (more: seq<State>)
    requires Run(run) && w in Last(run).watchers && wt.filter == Last(run).watchers[w].filter
    requires var s := Last(run); WatcherStep(s, s.(watchers := s.watchers[w := wt]), w)
    ensures Driven(run, more, w) && Last(more).watchers[w] == wt
  {
    hide WatcherStep;
    var s := Last(run);
    more := Extend(run, s.(watchers := s.watchers[w := wt]));
  }

  lemma StepProxy(run: seq<State>, w: nat, p: BP.Proxy<Notice>) returns (more: seq<State>)
    requires Run(run) && w in Last(run).watchers && BP.Internal(MAX_BUFFER, Last(run).watchers[w].proxy, p)
    ensures Driven(run, more, w) && Last(more).watchers[w] == Last(run).watchers[w].(proxy := p)
  {
    hide BP.Internal, Next, Init;
    var s := Last(run);
    assert ProxyInternal(s, s.(watchers := s.watchers[w := s.watchers[w].(proxy := p)]), w);
    more := Step(run, w, s.watchers[w].(proxy := p));
  }

  lemma StepSend(run: seq<State>, w: nat) returns (more: seq<State>)
    requires Run(run) && w in Last(run).watchers && BP.CanSend(Last(run).watchers[w].proxy)
    ensures Driven(run, more, w) && Last(more).watchers[w].proxy == BP.Send(Last(run).watchers[w].proxy)
  {
    hide Next, Init;
    var s := Last(run);
    var wt := s.watchers[w];
    var wt' := wt.(proxy := BP.Send(wt.proxy), delivered := wt.delivered + [BP.Sending(wt.proxy)]);
    assert ProxySend(s, s.(watchers := s.watchers[w := wt']), w);
    more := Step(run, w, wt');
  }

  /** What the invariant says of a watcher's proxy. */
  lemma ProxyFacts(run: seq<State>, w: nat)
    requires Run(run) && w in Last(run).watchers
    ensures var wt := Last(run).watchers[w];
            && BP.Inv(MAX_BUFFER, wt.proxy)
            && (wt.proxy.signalled <==> wt.stage.Watching?)
  {
    hide Init, Next, RangeOk, Rows, Backlog, LiveStream, BP.Inv, TodoOk;
    var base := RunInv(run, |run| - 1);
    var s := Last(run);
    assert WatcherOk(s.history, Fanned(s, w), s.committed, s.watchers[w]);
  }

  /** Replaying to the end and signalling. */
  lemma {:induction false} FinishReplay(run: seq<State>, w: nat) returns (more: seq<State>)
    requires Run(run) && w in Last(run).watchers && Last(run).watchers[w].stage.Replaying?
    ensures Driven(run, more, w)
    ensures Last(more).watchers[w].proxy == BP.Signal(Last(run).watchers[w].proxy)
    decreases |Last(run).watchers[w].stage.todo|
  {
    hide Next, Init, MatchFilter;
    var s := Last(run);
    var wt := s.watchers[w];
    var todo := wt.stage.todo;
    if todo == [] {
      var wt' := wt.(stage := Watching, proxy := BP.Signal(wt.proxy));
      assert BackfillDone(s, s.(watchers := s.watchers[w := wt']), w);
      more := Step(run, w, wt');
    } else {
      var e := todo[0].event;
      var wt' := wt.(stage := Replaying(if e.rv == wt.latest then [] else todo[1..]), pos := wt.pos + 1,
        delivered := if MatchFilter(wt.filter, e.obj) then wt.delivered + [NoticeOf(e)] else wt.delivered);
      assert Replay(s, s.(watchers := s.watchers[w := wt']), w);
      var mid := Step(run, w, wt');
      more := FinishReplay(mid, w);
      DrivenOn(run, mid, more, w);
    }
  }

  lemma BeginReplay(run: seq<State>, w: nat) returns (more: seq<State>)
    requires Run(run) && w in Last(run).watchers && Last(run).watchers[w].stage.Registered?
    requires !Refused(Last(run), Last(run).watchers[w])
    ensures Driven(run, more, w)
    ensures Last(more).watchers[w].proxy == Last(run).watchers[w].proxy && Last(more).watchers[w].stage.Replaying?
  {
    hide Next, Init, FindRow, RowsAfter, ReplayLength;
    var s := Last(run);
    var wt := s.watchers[w];
    var row := FindRow(s.table, wt.target);
    var todo := RowsAfter(s.table, if row.Some? then row.value else 0);
    var from := if |todo| <= s.committed then s.committed - |todo| else 0;
    var wt' := wt.(stage := Replaying(todo), seen := s.committed,
      from := from, pos := from, to := from + ReplayLength(todo, wt.latest));
    assert Snapshot(s, s.(watchers := s.watchers[w := wt']), w);
    more := Step(run, w, wt');
  }

  /** A watcher that is not refused can finish its backfill. */
  lemma CanSignal(run: seq<State>, w: nat) returns (more: seq<State>)
    requires Run(run) && w in Last(run).watchers && !Refused(Last(run), Last(run).watchers[w])
    ensures Driven(run, more, w)
    ensures Last(more).watchers[w].proxy == BP.Signal(Last(run).watchers[w].proxy)
  {
    hide Next, Init, Refused;
    ProxyFacts(run, w);
    var wt := Last(run).watchers[w];
    if wt.stage.Watching? {
      more := run;
    } else if wt.stage.Replaying? {
      more := FinishReplay(run, w);
    } else {
      NotTooOld(Last(run), wt);
      var mid := BeginReplay(run, w);
      more := FinishReplay(mid, w);
      DrivenOn(run, mid, more, w);
    }
  }

  lemma NotTooOld(s: State, wt: Watcher)
    requires !Refused(s, wt)
    ensures !wt.stage.TooOld?
  {
  }

  /** A proxy that flushes or pipes can read again after at most one step. */
  lemma CanRead(run: seq<State>, w: nat) returns (more: seq<State>)
    requires Run(run) && w in Last(run).watchers
    requires Last(run).watchers[w].proxy.phase in {BP.Flushing, BP.Live}
    ensures Driven(run, more, w) && BP.CanReceive(MAX_BUFFER, Last(more).watchers[w].proxy)
  {
    hide Next, Init;
    ProxyFacts(run, w);
    var p := Last(run).watchers[w].proxy;
    if BP.CanReceive(MAX_BUFFER, p) {
      more := run;
    } else if p.phase == BP.Flushing && p.queue == [] {
      more := StepProxy(run, w, p.(phase := BP.Live));
    } else {
      more := StepSend(run, w);
    }
  }

  /** A blocked proxy that can be signalled and was not cancelled starts to flush. */
  lemma Unblock(run: seq<State>, w: nat) returns (more: seq<State>)
    requires Run(run) && w in Last(run).watchers
    requires var p := Last(run).watchers[w].proxy; Blocked(p) && p.signalled && !p.cancelled
    ensures Driven(run, more, w) && Last(more).watchers[w].proxy.phase == BP.Flushing
  {
    hide Next, Init;
    var p := Last(run).watchers[w].proxy;
    var mid := run;
    if p.phase == BP.Accumulating {
      mid := StepProxy(run, w, p.(phase := BP.Waiting));
    }
    more := StepProxy(mid, w, p.(phase := BP.Flushing));
    DrivenOn(run, mid, more, w);
  }

  /** A watcher that is not dead can be brought to read. */
  lemma MakeReady(run: seq<State>, w: nat) returns (more: seq<State>)
    requires Run(run) && w in Last(run).watchers && !Dead(Last(run), Last(run).watchers[w])
    ensures Driven(run, more, w) && BP.CanReceive(MAX_BUFFER, Last(more).watchers[w].proxy)
  {
    hide Next, Init, Refused;
    var p := Last(run).watchers[w].proxy;
    if p.phase in {BP.Flushing, BP.Live} {
      more := CanRead(run, w);
    } else if !Blocked(p) {
      more := run;
    } else {
      if p.signalled {
        SignalledNotRefused(run, w);
      }
      var mid := CanSignal(run, w);
      var mid' := Unblock(mid, w);
      DrivenOn(run, mid, mid', w);
      more := CanRead(mid', w);
      DrivenOn(run, mid', more, w);
    }
  }

  lemma SignalledNotRefused(run: seq<State>, w: nat)
    requires Run(run) && w in Last(run).watchers && Last(run).watchers[w].proxy.signalled
    ensures !Refused(Last(run), Last(run).watchers[w])
  {
    hide Next, Init;
    ProxyFacts(run, w);
  }

  /** The watcher's turn: it is skipped if the event does not match, and otherwise receives it. */
  lemma Serve(run: seq<State>, w: nat) returns (more: seq<State>)
    requires Run(run) && w in Last(run).watchers && Last(run).history != []
    requires Last(run).writer.FanOut? && w in Last(run).writer.pending && !Stuck(Last(run), w)
    ensures Run(more) && run <= more
    ensures var s, s' := Last(run), Last(more);
            && s'.table == s.table && s'.history == s.history && s'.watchers.Keys == s.watchers.Keys
            && s'.writer == FanOut(s.writer.pending - {w})
            && forall v :: v in s.watchers && v != w ==> s'.watchers[v] == s.watchers[v]
  {
    hide Next, Init, Dead, MatchWatch;
    var s := Last(run);
    var e := s.history[|s.history| - 1];
    if MatchWatch(s.watchers[w].filter, e) {
      var mid := MakeReady(run, w);
      var s1 := Last(mid);
      var wt := s1.watchers[w];
      var s2 := s1.(writer := FanOut(s1.writer.pending - {w}),
                    watchers := s1.watchers[w := wt.(proxy := BP.Receive(wt.proxy, NoticeOf(e)))]);
      assert Notify(s1, s2, w);
      IsNext(s1, s2, w);
      more := Extend(mid, s2);
    } else {
      var s2 := s.(writer := FanOut(s.writer.pending - {w}));
      assert Notify(s, s2, w);
      IsNext(s, s2, w);
      more := Extend(run, s2);
    }
  }

  lemma IsNext(s: State, s': State, w: nat)
    requires Notify(s, s', w)
    ensures Next(s, s')
  {
    hide Notify;
  }

  /** One watcher after the other. */
  lemma {:induction false} ServeAll(run: seq<State>) returns (more: seq<State>)
    requires Run(run) && Last(run).writer.FanOut? && Last(run).writer.pending <= Last(run).watchers.Keys
    requires Last(run).history != []
    requires forall w :: w in Last(run).writer.pending ==> !Stuck(Last(run), w)
    ensures Run(more) && run <= more && Last(more).writer.Unlocked?
    decreases |Last(run).writer.pending|
  {
    hide Next, Init;
    var s := Last(run);
    if s.writer.pending == {} {
      FanOutEnds(s);
      more := Extend(run, s.(writer := Unlocked));
    } else {
      var w :| w in s.writer.pending;
      var mid := Serve(run, w);
      var s' := Last(mid);
      assert s'.writer.pending < s.writer.pending;
      forall v | v in s'.writer.pending ensures !Stuck(s', v) {
        StillFree(s, s', w, v);
      }
      more := ServeAll(mid);
    }
  }

  lemma FanOutEnds(s: State)
    requires s.writer == FanOut({})
    ensures Next(s, s.(writer := Unlocked))
  {
    assert EndFanOut(s, s.(writer := Unlocked));
  }

  lemma StillFree(s: State, s': State, w: nat, v: nat)
    requires s.writer.FanOut? && s'.writer == FanOut(s.writer.pending - {w}) && v in s'.writer.pending
    requires s'.table == s.table && s'.history == s.history && v in s.watchers
    requires v in s'.watchers && s'.watchers[v] == s.watchers[v]
    requires !Stuck(s, v)
    ensures !Stuck(s', v)
  {
    hide MatchWatch, FindRow;
  }

  ghost predicate Finishes(run: seq<State>, more: seq<State>) {
    Run(more) && run <= more && Last(more).writer.Unlocked?
  }

  /** A fan-out can still finish if and only if the event awaits no dead watcher. */
  lemma FanOutFinishesIff(run: seq<State>)
    requires Run(run) && Last(run).writer.FanOut?
    ensures (exists more :: Finishes(run, more)) <==> forall w :: w in Last(run).writer.pending ==> !Stuck(Last(run), w)
  {
    hide Next, Init, Stuck;
    if more :| Finishes(run, more) {
      forall w | w in Last(run).writer.pending ensures !Stuck(Last(run), w) {
        if Stuck(Last(run), w) {
          StuckForever(more, |run| - 1, |more| - 1, w);
          StuckMeans(Last(more), w);
        }
      }
    }
    if forall w :: w in Last(run).writer.pending ==> !Stuck(Last(run), w) {
      FanOutFacts(run);
      var more := ServeAll(run);
      assert Finishes(run, more);
    }
  }

  lemma FanOutFacts(run: seq<State>)
    requires Run(run) && Last(run).writer.FanOut?
    ensures Last(run).writer.pending <= Last(run).watchers.Keys && Last(run).history != []
  {
    hide Next, Init, Rows, WatcherOk, DistinctRvs;
    var base := RunInv(run, |run| - 1);
  }

  /** While it replays, a watcher that was not cancelled takes a hundred events and no more: a fan-out waits for it only
      when that many are queued. */
  lemma HundredBuffered(run: seq<State>, w: nat)
    requires Run(run) && w in Last(run).watchers
    ensures var wt := Last(run).watchers[w];
            && |wt.proxy.queue| <= 100
            && (!wt.stage.Watching? && !wt.proxy.cancelled ==>
                  (BP.CanReceive(MAX_BUFFER, wt.proxy) <==> |wt.proxy.queue| < 100))
  {
    hide Next, Init;
    ProxyFacts(run, w);
  }
}
