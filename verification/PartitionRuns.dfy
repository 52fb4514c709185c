/**
 Runs of the parallel partition lister (pkg/stores/partition/parallel.go). The ones constructed here
 start a goroutine only after the previous one has finished, which every semaphore admits.
 */
module PartitionRuns {
  import opened Prelude
  import opened PartitionLister

  lemma Extend<T(!new)>(c: Config<T>, run: seq<State<T>>, s: State<T>) returns (more: seq<State<T>>)
    requires Run(c, run) && Next(c, run[|run| - 1], s)
    ensures Run(c, more) && more[|more| - 1] == s
  {
    hide Next, Init;
    more := run + [s];
    forall i | 0 <= i < |more| - 1 ensures Next(c, more[i], more[i + 1]) {
      if i < |run| - 1 {
        assert Next(c, run[i], run[i + 1]);
      }
    }
  }

  // ----- The goroutines take their turns -----

  lemma {:induction false} LaterShrinks<T>(parts: seq<Partition<T>>, i: nat, j: nat)
    requires i <= j
    ensures |Later(parts, i)| >= |Later(parts, j)|
    decreases j - i
  {
    if i < j {
      LaterShrinks(parts, i + 1, j);
    }
  }

  /** The first `n` partitions hold exactly what the limit allows. */
  ghost predicate Fits<T(!new)>(c: Config<T>, n: nat)
    requires Readable(c.parts, c.resume)
  {
    |From(c.parts, c.resume)| == c.limit + |Later(c.parts, c.start + n)|
  }

  /** Then no page is ever cut. */
  lemma NeverCut<T(!new)>(c: Config<T>, s: State<T>, d: nat, n: nat)
    requires Wf(c) && Inv(c, From(c.parts, c.resume), s, d) && s.token.None? && d < |s.workers|
    requires |s.workers| <= n && Fits(c, n)
    ensures c.limit > 0 ==> |ItemsOf(c, s.workers, d)| <= s.capacity
  {
    hide Overflows, SkipOnlyFirst, BeforeOverflow, TokenOk, From, Later, Flatten;
    LaterShrinks(c.parts, c.start + d + 1, c.start + n);
    assert |From(c.parts, c.resume)| == |s.emitted| + |Remaining(c, s.workers, d)|;
  }

  lemma OneTurn<T(!new)>(c: Config<T>, s: State<T>, d: nat, n: nat) returns (s': State<T>)
    requires Wf(c) && Inv(c, From(c.parts, c.resume), s, d) && d < |s.workers|
    requires s.workers[d].phase.Holding? && |s.workers| <= n
    ensures Turn(c, s, s', d) && s'.main == s.main && |s'.workers| == |s.workers|
    ensures s.token.None? && Fits(c, n) ==> s'.token.None?
    ensures s'.workers[d].phase == Done
            || (&& s'.workers[d].phase == Fetching
                && PageOf(c.parts[c.start + d], s'.workers[d].local) == 1 + PageOf(c.parts[c.start + d], s.workers[d].local))
  {
    hide Overflows, SkipOnlyFirst, BeforeOverflow, TokenOk, From, Later, Flatten, Remaining, Fits;
    assert WorkerOk(c, d, s.workers[d]);
    s' := Emit(c, s, d);
    if s.token.None? && Fits(c, n) {
      NeverCut(c, s, d, n);
    }
  }

  /** Each goroutine in turn fetches and hands over its pages until all have finished. */
  lemma {:induction false} ServeAll<T(!new)>(c: Config<T>, run: seq<State<T>>, d: nat, n: nat)
    returns (more: seq<State<T>>)
    requires Wf(c) && Run(c, run)
    requires var s := run[|run| - 1]; Inv(c, From(c.parts, c.resume), s, d) && |s.workers| <= n
    ensures Run(c, more)
    ensures var s, s' := run[|run| - 1], more[|more| - 1];
            && s'.main == s.main && |s'.workers| == |s.workers|
            && Inv(c, From(c.parts, c.resume), s', |s'.workers|)
            && (s.token.None? && Fits(c, n) ==> s'.token.None?)
    decreases |run[|run| - 1].workers| - d, PagesLeft(c, run[|run| - 1].workers, d), InHand(run[|run| - 1].workers, d)
  {
    hide Inv, Next, Init, From, Later, Fits;
    var s := run[|run| - 1];
    InvWorkers(c, s, d);
    if d == |s.workers| {
      more := run;
    } else if s.workers[d].phase == Fetching {
      var p := c.parts[c.start + d];
      var s' := s.(workers := s.workers[d := s.workers[d].(phase := Holding(PageOf(p, s.workers[d].local)))]);
      assert Fetch(c, s, s', d);
      NextIsFetch(c, s, s', d);
      FetchInv(c, From(c.parts, c.resume), s, s', d, d);
      more := Extend(c, run, s');
      more := ServeAll(c, more, d, n);
    } else {
      var s' := OneTurn(c, s, d, n);
      NextIsTurn(c, s, s', d);
      var d' := TurnInv(c, From(c.parts, c.resume), s, s', d);
      InvWorkers(c, s', d');
      more := Extend(c, run, s');
      more := ServeAll(c, more, d', n);
    }
  }

  ghost function PagesLeft<T(!new)>(c: Config<T>, ws: seq<Worker>, d: nat): nat {
    if d < |ws| && c.start + d < |c.parts| && PageOf(c.parts[c.start + d], ws[d].local) < |c.parts[c.start + d].pages|
    then |c.parts[c.start + d].pages| - PageOf(c.parts[c.start + d], ws[d].local)
    else 0
  }

  ghost function InHand(ws: seq<Worker>, d: nat): nat {
    if d < |ws| && ws[d].phase == Fetching then 1 else 0
  }

  lemma InvWorkers<T(!new)>(c: Config<T>, s: State<T>, d: nat)
    requires Wf(c) && Inv(c, From(c.parts, c.resume), s, d)
    ensures WorkersOk(c, s.workers, d)
  {
  }

  lemma NextIsFetch<T(!new)>(c: Config<T>, s: State<T>, s': State<T>, k: nat)
    requires Fetch(c, s, s', k)
    ensures Next(c, s, s')
  {
  }

  lemma NextIsTurn<T(!new)>(c: Config<T>, s: State<T>, s': State<T>, k: nat)
    requires Turn(c, s, s', k)
    ensures Next(c, s, s')
  {
  }

  /** The main loop starts another goroutine, which then hands over its pages. */
  lemma OneMore<T(!new)>(c: Config<T>, run: seq<State<T>>, n: nat) returns (more: seq<State<T>>)
    requires Wf(c) && Run(c, run)
    requires var s := run[|run| - 1];
             && s.main == Checking && |s.workers| < n && c.start + |s.workers| < |c.parts|
             && !(c.limit > 0 && s.capacity <= 0)
    ensures Run(c, more)
    ensures var s, s' := run[|run| - 1], more[|more| - 1];
            && s'.main == Checking && |s'.workers| == |s.workers| + 1
            && Inv(c, From(c.parts, c.resume), s', |s'.workers|)
            && (s.token.None? && Fits(c, n) ==> s'.token.None?)
  {
    hide From, Later, Fits, Inv, Wf;
    var s := run[|run| - 1];
    var s1 := s.(main := Acquiring);
    assert Check(c, s, s1);
    more := Extend(c, run, s1);
    var s2 := s.(workers := s.workers + [Worker(c.resume, Fetching)]);
    assert Spawn(c, s1, s2);
    more := Extend(c, more, s2);
    var d := RunInv(c, more, |more| - 1);
    more := ServeAll(c, more, d, n);
  }

  /** The first `k` goroutines one after the other, or until the capacity is used up. */
  lemma {:induction false} Sequential<T(!new)>(c: Config<T>, k: nat, n: nat) returns (run: seq<State<T>>)
    requires Wf(c) && k <= n && (n == 0 || c.start + n <= |c.parts|)
    ensures Run(c, run)
    ensures var s := run[|run| - 1];
            && s.main == Checking && |s.workers| <= k
            && (|s.workers| == k || (c.limit > 0 && s.capacity <= 0))
            && Inv(c, From(c.parts, c.resume), s, |s.workers|)
            && (Fits(c, n) ==> s.token.None?)
  {
    hide Next, From, Later, Fits, Inv, Wf;
    if k == 0 {
      run := [State(c.limit, None, [], Checking, [])];
      var d := RunInv(c, run, 0);
      InvWorkers(c, run[0], d);
    } else {
      run := Sequential(c, k - 1, n);
      var s := run[|run| - 1];
      if !(c.limit > 0 && s.capacity <= 0) {
        run := OneMore(c, run, n);
      }
    }
  }

  lemma LeaveNow<T(!new)>(c: Config<T>, run: seq<State<T>>) returns (more: seq<State<T>>)
    requires Wf(c) && Run(c, run)
    requires var s := run[|run| - 1];
             && s.main == Checking && Inv(c, From(c.parts, c.resume), s, |s.workers|)
             && (c.start + |s.workers| >= |c.parts| || (c.limit > 0 && s.capacity <= 0))
    ensures Run(c, more) && Final(more[|more| - 1]) && more[|more| - 1] == run[|run| - 1].(main := Finished)
  {
    hide From, Later;
    var s := run[|run| - 1];
    assert Leave(c, s, s.(main := Finished));
    more := Extend(c, run, s.(main := Finished));
  }

  // ----- Main results -----

  /** Every request has a run that finishes. */
  lemma CanFinish<T(!new)>(c: Config<T>) returns (run: seq<State<T>>)
    requires Wf(c)
    ensures Run(c, run) && Final(run[|run| - 1])
  {
    hide Next, From, Later, Fits, Inv;
    var n := if c.parts == [] then 0 else |c.parts| - c.start;
    run := Sequential(c, n, n);
    run := LeaveNow(c, run);
  }

  /** When the limit falls on the end of a partition, the main loop can stop there without a token. */
  lemma CanStopShort<T(!new)>(c: Config<T>) returns (run: seq<State<T>>)
    requires Wf(c) && c.limit > 0 && EndsAtPartition(c)
    ensures Run(c, run) && Final(run[|run| - 1])
    ensures run[|run| - 1].token.None? && run[|run| - 1].emitted != From(c.parts, c.resume)
  {
    hide Next, From;
    var j :| c.start < j && Later(c.parts, j) != [] && |From(c.parts, c.resume)| == c.limit + |Later(c.parts, j)|;
    var n := j - c.start;
    assert Fits(c, n);
    run := Sequential(c, n, n);
    var s := run[|run| - 1];
    if |s.workers| == n {
      assert Remaining(c, s.workers, n) == Later(c.parts, j);
    }
    run := LeaveNow(c, run);
  }

  ghost predicate StopsShort<T(!new)>(c: Config<T>, run: seq<State<T>>)
    requires Readable(c.parts, c.resume)
  {
    Run(c, run) && Final(run[|run| - 1]) && run[|run| - 1].token.None? && run[|run| - 1].emitted != From(c.parts, c.resume)
  }

  /** Objects can be left behind without a token if and only if the limit falls on the end of a
      partition that is not the last one with objects. */
  lemma StopsShortIff<T(!new)>(c: Config<T>)
    requires Wf(c)
    ensures (exists run :: StopsShort(c, run)) <==> c.limit > 0 && EndsAtPartition(c)
  {
    hide Run, Final, From, EndsAtPartition;
    if run :| StopsShort(c, run) {
      if !(c.limit > 0 && EndsAtPartition(c)) {
        NoTokenComplete(c, run);
      }
    }
    if c.limit > 0 && EndsAtPartition(c) {
      var run := CanStopShort(c);
      assert StopsShort(c, run);
    }
  }

  // ----- Two runs that show the exceptions -----

  /** One goroutine is started, fetches its page, has its turn, and the main loop leaves. */
  lemma OneWorkerRun(c: Config<nat>, w: Worker, end: State<nat>) returns (run: seq<State<nat>>)
    requires c.parts != [] && c.start == 0 && c.limit == 1 && |c.parts[0].pages| == 1
    requires w == Worker(c.resume, Holding(0)) && PageOf(c.parts[0], c.resume) == 0
    requires end == Emit(c, State(1, None, [], Checking, [w]), 0) && end.capacity == 0
    ensures Run(c, run) && run[|run| - 1] == end.(main := Finished)
  {
    var s0 := State(1, None, [], Checking, []);
    var s1 := s0.(main := Acquiring);
    var s2 := State(1, None, [], Checking, [Worker(c.resume, Fetching)]);
    var s3 := State(1, None, [], Checking, [w]);
    var s5 := end.(main := Finished);
    run := [s0, s1, s2, s3, end, s5];
    assert Check(c, s0, s1);
    assert Spawn(c, s1, s2);
    assert s2.workers[0 := w] == [w];
    assert Fetch(c, s2, s3, 0);
    assert Turn(c, s3, end, 0);
    assert Leave(c, end, s5);
  }

  /** A page that overflows the limit behind an offset: resuming at the token that is left repeats
      the object just emitted. */
  lemma OverflowRepeats() returns (c: Config<nat>, run: seq<State<nat>>)
    ensures Wf(c) && Run(c, run) && Final(run[|run| - 1])
    ensures From(c.parts, c.resume) == [2, 3] && run[|run| - 1].emitted == [2]
    ensures var token := run[|run| - 1].token;
            token.Some? && Readable(c.parts, token.value) && From(c.parts, token.value) == [2, 3]
  {
    var p := Partition("p", [[1, 2, 3]]);
    c := Config([p], 1, 0, ListState("p", 0, 1, 1));
    var end := State(0, Some(ListState("p", 0, 1, 1)), [2], Checking, [Worker(c.resume, Done)]);
    run := OneWorkerRun(c, Worker(c.resume, Holding(0)), end);
    assert p.pages[1..] == [] && [1, 2, 3][1..] == [2, 3];
  }

  /** The limit is filled exactly at the end of a partition: no token is left although a later
      partition still holds an object. */
  lemma FullChunkWithoutToken() returns (c: Config<nat>, run: seq<State<nat>>)
    ensures Wf(c) && Run(c, run) && Final(run[|run| - 1])
    ensures From(c.parts, c.resume) == [1, 2]
    ensures run[|run| - 1].emitted == [1] && run[|run| - 1].token.None? && |run[|run| - 1].emitted| == c.limit
  {
    var a, b := Partition("a", [[1]]), Partition("b", [[2]]);
    c := Config([a, b], 1, 0, FIRST_REQUEST);
    var end := State(0, None, [1], Checking, [Worker(FIRST_REQUEST, Done)]);
    run := OneWorkerRun(c, Worker(FIRST_REQUEST, Holding(0)), end);
    FirstRequestReadsAll(c.parts);
    assert Later(c.parts, 2) == [];
    assert Flatten(b.pages) == [2] + Flatten([]) && Flatten(a.pages) == [1] + Flatten([]);
  }
}
