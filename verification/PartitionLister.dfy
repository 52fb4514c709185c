/**
 The parallel partition lister (pkg/stores/partition/parallel.go).

 One goroutine per partition fetches pages; a chain of channels lets them emit one after the
 other into a single stream, while they share the remaining `capacity` and the continue state.
 The lister is a step machine over a fixed snapshot: every interleaving of the main loop and
 the goroutines is a run.
 */
module PartitionLister {
  import opened Prelude

  /** A partition of the snapshot: the pages its lister returns, in order.
      Page 0 answers the empty continue token, page k the k-th token Kubernetes hands out. */
  datatype Partition<T> = Partition(name: string, pages: seq<seq<T>>)

  /** The continue token. Page 0 stands for the empty Kubernetes token. */
  datatype ListState = ListState(partitionName: string, page: nat, offset: int, limit: int)

  const FIRST_REQUEST := ListState("", 0, 0, 0)

  /** A list request: the partitions, the limit in force, the index of the first partition to
      read and the state decoded from the token. */
  datatype Config<T> = Config(parts: seq<Partition<T>>, limit: int, start: nat, resume: ListState)

  /** Opening a request: a limit inside the token overrides the request's. */
  function Open<T>(parts: seq<Partition<T>>, requestLimit: int, resume: ListState): Config<T> {
    Config(parts, if resume.limit > 0 then resume.limit else requestLimit,
           IndexOrZero(parts, resume.partitionName), resume)
  }

  function IndexFrom<T>(parts: seq<Partition<T>>, name: string, i: nat): (r: nat)
    requires i <= |parts|
    ensures r == 0 || (r < |parts| && parts[r].name == name)
    ensures forall k :: i <= k < |parts| && parts[k].name == name ==> parts[r].name == name && r <= k
    decreases |parts| - i
  {
    if i == |parts| then 0
    else if parts[i].name == name then i
    else IndexFrom(parts, name, i + 1)
  }

  function IndexOrZero<T>(parts: seq<Partition<T>>, name: string): (r: nat)
    ensures r == 0 || (r < |parts| && parts[r].name == name)
    ensures name != "" ==> forall k :: 0 <= k < |parts| && parts[k].name == name ==> parts[r].name == name && r <= k
  {
    if name == "" then 0 else IndexFrom(parts, name, 0)
  }

  datatype Phase = Fetching | Holding(page: nat) | Done

  /** A goroutine: its local copy of the list state and where it is in its loop. */
  datatype Worker = Worker(local: ListState, phase: Phase)

  datatype Main = Checking | Acquiring | Finished

  datatype State<T> = State(
    capacity: int,
    token: Option<ListState>,
    emitted: seq<T>,
    main: Main,
    workers: seq<Worker>)

  /** Where a goroutine for partition `p` reads next, given its local state. */
  function PageOf<T>(p: Partition<T>, st: ListState): nat {
    if p.name == st.partitionName then st.page else 0
  }

  /** How many objects of page `items` the goroutine skips. */
  function SkipOf<T>(p: Partition<T>, st: ListState, items: seq<T>): nat {
    if st.partitionName == p.name && 0 < st.offset < |items| then st.offset else 0
  }

  function NextPage<T>(p: Partition<T>, page: nat): nat {
    if page + 1 < |p.pages| then page + 1 else 0
  }

  // ----- The steps -----

  ghost predicate Init<T(!new)>(c: Config<T>, s: State<T>) {
    s == State(c.limit, None, [], Checking, [])
  }

  ghost predicate Check<T(!new)>(c: Config<T>, s: State<T>, s': State<T>) {
    && s.main == Checking
    && c.start + |s.workers| < |c.parts|
    && !(c.limit > 0 && s.capacity <= 0)
    && s' == s.(main := Acquiring)
  }

  ghost predicate Leave<T(!new)>(c: Config<T>, s: State<T>, s': State<T>) {
    && s.main == Checking
    && (c.start + |s.workers| >= |c.parts| || (c.limit > 0 && s.capacity <= 0))
    && s' == s.(main := Finished)
  }

  ghost predicate Spawn<T(!new)>(c: Config<T>, s: State<T>, s': State<T>) {
    && s.main == Acquiring
    && s' == s.(main := Checking, workers := s.workers + [Worker(c.resume, Fetching)])
  }

  ghost predicate Fetch<T(!new)>(c: Config<T>, s: State<T>, s': State<T>, k: nat) {
    && k < |s.workers|
    && c.start + k < |c.parts|
    && s.workers[k].phase == Fetching
    && var p := c.parts[c.start + k];
       s' == s.(workers := s.workers[k := s.workers[k].(phase := Holding(PageOf(p, s.workers[k].local)))])
  }

  /** What goroutine `k` does once its turn has come. */
  function Emit<T>(c: Config<T>, s: State<T>, k: nat): State<T>
    requires k < |s.workers| && c.start + k < |c.parts|
    requires s.workers[k].phase.Holding? && s.workers[k].phase.page < |c.parts[c.start + k].pages|
    requires c.limit > 0 ==> s.capacity >= 0
  {
    var p := c.parts[c.start + k];
    var w := s.workers[k];
    var page := w.phase.page;
    var done := s.workers[k := w.(phase := Done)];
    if s.token.Some? then
      s.(workers := done)
    else
      var items := p.pages[page][SkipOf(p, w.local, p.pages[page])..];
      if c.limit > 0 && |items| > s.capacity then
        s.(emitted := s.emitted + items[..s.capacity],
           token := Some(ListState(p.name, page, s.capacity, c.limit)),
           capacity := 0,
           workers := done)
      else
        s.(emitted := s.emitted + items,
           capacity := s.capacity - |items|,
           workers :=
             if NextPage(p, page) == 0 then done
             else s.workers[k := Worker(ListState(p.name, NextPage(p, page), 0, w.local.limit), Fetching)])
  }

  ghost predicate Turn<T(!new)>(c: Config<T>, s: State<T>, s': State<T>, k: nat) {
    && k < |s.workers| && c.start + k < |c.parts|
    && s.workers[k].phase.Holding? && s.workers[k].phase.page < |c.parts[c.start + k].pages|
    && (k > 0 ==> s.workers[k - 1].phase == Done)
    && (c.limit > 0 ==> s.capacity >= 0)
    && s' == Emit(c, s, k)
  }

  ghost predicate Next<T(!new)>(c: Config<T>, s: State<T>, s': State<T>) {
    || Check(c, s, s')
    || Leave(c, s, s')
    || Spawn(c, s, s')
    || (exists k: nat :: Fetch(c, s, s', k))
    || (exists k: nat :: Turn(c, s, s', k))
  }

  ghost predicate Run<T(!new)>(c: Config<T>, run: seq<State<T>>) {
    && |run| > 0
    && Init(c, run[0])
    && forall i :: 0 <= i < |run| - 1 ==> Next(c, run[i], run[i + 1])
  }

  ghost predicate Final<T(!new)>(s: State<T>) {
    s.main == Finished && forall k :: 0 <= k < |s.workers| ==> s.workers[k].phase == Done
  }

  // ----- The sequential meaning -----

  /** Everything in the partitions from index `i` on. */
  function Later<T>(parts: seq<Partition<T>>, i: nat): seq<T>
    decreases |parts| - i
  {
    if i >= |parts| then [] else Flatten(parts[i].pages) + Later(parts, i + 1)
  }

  /** What is left of partition `i` at a list state, then all later partitions. */
  function FromIndex<T>(parts: seq<Partition<T>>, i: nat, st: ListState): seq<T>
    requires i < |parts| && PageOf(parts[i], st) < |parts[i].pages|
  {
    var p := parts[i];
    var page := PageOf(p, st);
    p.pages[page][SkipOf(p, st, p.pages[page])..] + Flatten(p.pages[page + 1..]) + Later(parts, i + 1)
  }

  /** The whole list from a token (or from the start, for FIRST_REQUEST). */
  function From<T>(parts: seq<Partition<T>>, st: ListState): seq<T>
    requires Readable(parts, st)
  {
    if parts == [] then [] else FromIndex(parts, IndexOrZero(parts, st.partitionName), st)
  }

  /** The snapshot answers this token: it names a page that exists. */
  predicate Readable<T>(parts: seq<Partition<T>>, st: ListState) {
    parts != [] ==>
      var i := IndexOrZero(parts, st.partitionName);
      PageOf(parts[i], st) < |parts[i].pages|
  }

  /** Partition names are distinct, only the first may be empty, and every partition answers at
      least one page. */
  ghost predicate Snapshot<T(!new)>(parts: seq<Partition<T>>) {
    && (forall i :: 0 <= i < |parts| ==> |parts[i].pages| > 0)
    && (forall i, j :: 0 <= i < j < |parts| ==> parts[i].name != parts[j].name)
    && (forall i :: 0 < i < |parts| ==> parts[i].name != "")
  }

  ghost predicate Wf<T(!new)>(c: Config<T>) {
    && Snapshot(c.parts)
    && Readable(c.parts, c.resume)
    && c.start == IndexOrZero(c.parts, c.resume.partitionName)
  }

  /** The number of objects the token's offset really skips on its page. */
  function ResumeSkip<T>(c: Config<T>): nat
    requires Readable(c.parts, c.resume) && c.start == IndexOrZero(c.parts, c.resume.partitionName)
  {
    if c.parts == [] then 0
    else
      var p := c.parts[c.start];
      SkipOf(p, c.resume, p.pages[PageOf(p, c.resume)])
  }

  /** The resumed page still holds more than `limit` objects behind a non-zero offset. */
  predicate Overflows<T>(c: Config<T>)
    requires Readable(c.parts, c.resume) && c.start == IndexOrZero(c.parts, c.resume.partitionName)
  {
    && c.parts != []
    && c.limit > 0
    && ResumeSkip(c) > 0
    && var p := c.parts[c.start];
       |p.pages[PageOf(p, c.resume)]| - ResumeSkip(c) > c.limit
  }

  // ----- Invariant -----

  /** A goroutine's local state fits the partition it reads. */
  ghost predicate WorkerOk<T(!new)>(c: Config<T>, k: nat, w: Worker)
    requires c.start + k < |c.parts|
  {
    var p := c.parts[c.start + k];
    && PageOf(p, w.local) < |p.pages|
    && (w.phase.Holding? ==> w.phase.page == PageOf(p, w.local))
  }

  /** The first `d` goroutines have finished; those after the d-th have not had their turn. */
  ghost predicate WorkersOk<T(!new)>(c: Config<T>, ws: seq<Worker>, d: nat) {
    && d <= |ws|
    && (ws == [] || c.start + |ws| <= |c.parts|)
    && (forall k :: 0 <= k < |ws| ==> WorkerOk(c, k, ws[k]))
    && (forall k :: 0 <= k < d ==> ws[k].phase == Done)
    && (forall k :: d <= k < |ws| ==> ws[k].phase != Done)
    && (forall k :: d < k < |ws| ==> ws[k].local == c.resume)
  }

  /** What is still to be emitted while no token is set. */
  ghost function Remaining<T(!new)>(c: Config<T>, ws: seq<Worker>, d: nat): seq<T>
    requires Wf(c) && WorkersOk(c, ws, d)
  {
    if ws == [] then From(c.parts, c.resume)
    else if d < |ws| then FromIndex(c.parts, c.start + d, ws[d].local)
    else Later(c.parts, c.start + d)
  }

  ghost predicate TokenOk<T(!new)>(c: Config<T>, whole: seq<T>, emitted: seq<T>, t: ListState)
    requires Wf(c)
  {
    && Readable(c.parts, t)
    && t.limit == c.limit == |emitted| > 0
    && emitted <= whole
    && (!Overflows(c) ==> emitted + From(c.parts, t) == whole)
    && (Overflows(c) ==> |emitted| + |From(c.parts, t)| == |whole| + ResumeSkip(c))
  }

  /** A goroutine that still has to skip objects is the resumed one, before anything was emitted. */
  ghost predicate SkipOnlyFirst<T(!new)>(c: Config<T>, s: State<T>, d: nat)
    requires WorkersOk(c, s.workers, d) && d < |s.workers|
  {
    var p := c.parts[c.start + d];
    var local := s.workers[d].local;
    SkipOf(p, local, p.pages[PageOf(p, local)]) > 0 ==> d == 0 && local == c.resume && s.emitted == []
  }

  ghost predicate BeforeOverflow<T(!new)>(c: Config<T>, s: State<T>, d: nat)
    requires Wf(c)
  {
    Overflows(c) ==> d == 0 && s.emitted == [] && (|s.workers| > 0 ==> s.workers[0].local == c.resume)
  }

  /** The invariant, for the list `whole` that the request denotes and `d` finished goroutines. */
  ghost predicate Inv<T(!new)>(c: Config<T>, whole: seq<T>, s: State<T>, d: nat)
    requires Wf(c)
  {
    && WorkersOk(c, s.workers, d)
    && (s.main == Acquiring ==> c.start + |s.workers| < |c.parts|)
    && (c.limit > 0 ==> s.capacity == c.limit - |s.emitted| >= 0)
    && (s.main == Finished ==> c.start + |s.workers| >= |c.parts| || (c.limit > 0 && s.capacity <= 0))
    && (s.token.Some? ==> TokenOk(c, whole, s.emitted, s.token.value))
    && (s.token.None? ==> s.emitted + Remaining(c, s.workers, d) == whole)
    && (s.token.None? && d < |s.workers| ==> SkipOnlyFirst(c, s, d))
    && (s.token.None? ==> BeforeOverflow(c, s, d))
    && (s.workers == [] ==> s.emitted == [])
  }

  /** Only the partition a token names reads it; every other one starts at its first page. */
  lemma OthersStartFresh<T(!new)>(c: Config<T>, k: nat)
    requires Wf(c) && 0 < k && c.start + k < |c.parts|
    ensures c.parts[c.start + k].name != c.resume.partitionName
    ensures PageOf(c.parts[c.start + k], c.resume) == 0
    ensures FromIndex(c.parts, c.start + k, c.resume) == Later(c.parts, c.start + k)
  {
    var p := c.parts[c.start + k];
    assert p.pages == [p.pages[0]] + p.pages[1..];
  }

  lemma IndexOfName<T(!new)>(parts: seq<Partition<T>>, i: nat)
    requires Snapshot(parts) && i < |parts|
    ensures IndexOrZero(parts, parts[i].name) == i
  {
  }

  lemma SpawnRemaining<T(!new)>(c: Config<T>, ws: seq<Worker>, ws': seq<Worker>, d: nat)
    requires Wf(c) && WorkersOk(c, ws, d) && c.start + |ws| < |c.parts|
    requires ws' == ws + [Worker(c.resume, Fetching)]
    ensures WorkersOk(c, ws', d)
    ensures Remaining(c, ws', d) == Remaining(c, ws, d)
    ensures |ws| > 0 ==> c.parts[c.start + |ws|].name != c.resume.partitionName
  {
    if |ws| > 0 {
      OthersStartFresh(c, |ws|);
    }
  }

  lemma SpawnInv<T(!new)>(c: Config<T>, whole: seq<T>, s: State<T>, s': State<T>, d: nat)
    requires Wf(c) && Inv(c, whole, s, d) && Spawn(c, s, s')
    ensures Inv(c, whole, s', d)
  {
    SpawnRemaining(c, s.workers, s'.workers, d);
  }

  lemma FetchInv<T(!new)>(c: Config<T>, whole: seq<T>, s: State<T>, s': State<T>, k: nat, d: nat)
    requires Wf(c) && Inv(c, whole, s, d) && Fetch(c, s, s', k)
    ensures Inv(c, whole, s', d)
  {
    hide From, FromIndex, Later, Overflows, TokenOk;
  }

  /** After the active goroutine finishes, the next partition is read from its start. */
  lemma FinishedWorker<T(!new)>(c: Config<T>, ws: seq<Worker>, ws': seq<Worker>, d: nat)
    requires Wf(c) && WorkersOk(c, ws, d) && d < |ws|
    requires ws' == ws[d := ws[d].(phase := Done)]
    ensures WorkersOk(c, ws', d + 1)
    ensures Remaining(c, ws', d + 1) == Later(c.parts, c.start + d + 1)
  {
    if d + 1 < |ws| {
      OthersStartFresh(c, d + 1);
    }
  }

  /** A goroutine whose turn has come is the first unfinished one. */
  lemma TurnIsActive<T(!new)>(c: Config<T>, s: State<T>, s': State<T>, k: nat, d: nat)
    requires WorkersOk(c, s.workers, d) && Turn(c, s, s', k)
    ensures k == d
  {
  }

  lemma TurnInv<T(!new)>(c: Config<T>, whole: seq<T>, s: State<T>, s': State<T>, k: nat) returns (d': nat)
    requires Wf(c) && Inv(c, whole, s, k) && Turn(c, s, s', k)
    ensures Inv(c, whole, s', d')
    ensures d' == if s'.workers[k].phase == Done then k + 1 else k
  {
    hide From, FromIndex, Later, Overflows, Remaining;
    var w := s.workers[k];
    d' := k + 1;
    if s.token.Some? {
      FinishedWorker(c, s.workers, s'.workers, k);
    } else if s'.token.Some? {
      CutTurn(c, whole, s, s', k);
    } else if NextPage(c.parts[c.start + k], w.phase.page) == 0 {
      LastPageTurn(c, whole, s, s', k);
    } else {
      MorePagesTurn(c, whole, s, s', k);
      d' := k;
    }
  }

  lemma LastPageTurn<T(!new)>(c: Config<T>, whole: seq<T>, s: State<T>, s': State<T>, k: nat)
    requires Wf(c) && Inv(c, whole, s, k) && Turn(c, s, s', k) && s.token.None? && s'.token.None?
    requires NextPage(c.parts[c.start + k], s.workers[k].phase.page) == 0
    ensures Inv(c, whole, s', k + 1)
  {
    hide From, FromIndex, Later, Remaining, Overflows, Readable;
    FinishedWorker(c, s.workers, s'.workers, k);
    LastPageRemaining(c, s.workers, k);
    LastPageOverflow(c, whole, s, k);
    assert s'.emitted == s.emitted + ItemsOf(c, s.workers, k);
    if k + 1 < |s'.workers| {
      OthersStartFresh(c, k + 1);
    }
  }

  /** The objects the active goroutine hands over from the page it holds. */
  ghost function ItemsOf<T(!new)>(c: Config<T>, ws: seq<Worker>, d: nat): seq<T>
    requires WorkersOk(c, ws, d) && d < |ws|
  {
    var p := c.parts[c.start + d];
    var page := p.pages[PageOf(p, ws[d].local)];
    page[SkipOf(p, ws[d].local, page)..]
  }

  /** A resumed page that overflows the limit is always cut. */
  lemma LastPageOverflow<T(!new)>(c: Config<T>, whole: seq<T>, s: State<T>, k: nat)
    requires Wf(c) && Inv(c, whole, s, k) && s.token.None? && k < |s.workers|
    requires c.limit <= 0 || |ItemsOf(c, s.workers, k)| <= s.capacity
    ensures !Overflows(c)
  {
    hide From, FromIndex, Later, Remaining;
  }

  lemma LastPageRemaining<T(!new)>(c: Config<T>, ws: seq<Worker>, d: nat)
    requires Wf(c) && WorkersOk(c, ws, d) && d < |ws|
    requires var p := c.parts[c.start + d]; NextPage(p, PageOf(p, ws[d].local)) == 0
    ensures Remaining(c, ws, d) == ItemsOf(c, ws, d) + Later(c.parts, c.start + d + 1)
  {
    hide Later, From, Readable, Snapshot;
    var p := c.parts[c.start + d];
    assert p.pages[PageOf(p, ws[d].local) + 1..] == [];
  }

  lemma MorePagesRemaining<T(!new)>(c: Config<T>, ws: seq<Worker>, ws': seq<Worker>, d: nat, limit: int)
    requires Wf(c) && WorkersOk(c, ws, d) && d < |ws|
    requires var p := c.parts[c.start + d];
             var next := NextPage(p, PageOf(p, ws[d].local));
             next != 0 && ws' == ws[d := Worker(ListState(p.name, next, 0, limit), Fetching)]
    ensures WorkersOk(c, ws', d)
    ensures Remaining(c, ws, d) == ItemsOf(c, ws, d) + Remaining(c, ws', d)
  {
    var p := c.parts[c.start + d];
    var page := PageOf(p, ws[d].local);
    assert p.pages[page + 1..][1..] == p.pages[page + 2..];
    assert Flatten(p.pages[page + 1..]) == p.pages[page + 1] + Flatten(p.pages[page + 2..]);
  }

  lemma MorePagesTurn<T(!new)>(c: Config<T>, whole: seq<T>, s: State<T>, s': State<T>, k: nat)
    requires Wf(c) && Inv(c, whole, s, k) && Turn(c, s, s', k) && s.token.None? && s'.token.None?
    requires NextPage(c.parts[c.start + k], s.workers[k].phase.page) != 0
    ensures Inv(c, whole, s', k)
  {
    hide From, FromIndex, Later, Flatten, Remaining, Overflows, Readable;
    MorePagesRemaining(c, s.workers, s'.workers, k, s.workers[k].local.limit);
    LastPageOverflow(c, whole, s, k);
    assert s'.emitted == s.emitted + ItemsOf(c, s.workers, k);
    assert s'.emitted + Remaining(c, s'.workers, k) == whole;
  }

  /** Where the token saved by Case 1 points: at `capacity` objects into the untruncated page. */
  lemma CutRemaining<T(!new)>(c: Config<T>, ws: seq<Worker>, d: nat, capacity: nat, limit: int)
    requires Wf(c) && WorkersOk(c, ws, d) && d < |ws| && capacity < |ItemsOf(c, ws, d)|
    ensures var p := c.parts[c.start + d];
            var page := PageOf(p, ws[d].local);
            var skip := SkipOf(p, ws[d].local, p.pages[page]);
            var t := ListState(p.name, page, capacity, limit);
            && Readable(c.parts, t)
            && |From(c.parts, t)| + capacity == |Remaining(c, ws, d)| + skip
            && ItemsOf(c, ws, d)[..capacity] <= Remaining(c, ws, d)
            && (skip == 0 ==> ItemsOf(c, ws, d)[..capacity] + From(c.parts, t) == Remaining(c, ws, d))
  {
    var i := c.start + d;
    var p := c.parts[i];
    var k := PageOf(p, ws[d].local);
    var page := p.pages[k];
    IndexOfName(c.parts, i);
    var t := ListState(p.name, k, capacity, limit);
    var tail := Flatten(p.pages[k + 1..]) + Later(c.parts, i + 1);
    assert From(c.parts, t) == page[capacity..] + tail;
    assert Remaining(c, ws, d) == ItemsOf(c, ws, d) + tail;
  }

  lemma CutToken<T(!new)>(c: Config<T>, whole: seq<T>, s: State<T>, k: nat)
    requires Wf(c) && Inv(c, whole, s, k) && s.token.None? && k < |s.workers| && c.limit > 0
    requires |ItemsOf(c, s.workers, k)| > s.capacity
    ensures var p := c.parts[c.start + k];
            TokenOk(c, whole, s.emitted + ItemsOf(c, s.workers, k)[..s.capacity],
                    ListState(p.name, PageOf(p, s.workers[k].local), s.capacity, c.limit))
  {
    hide From, FromIndex, Later, Flatten, Remaining, Readable;
    var ws := s.workers;
    var p := c.parts[c.start + k];
    var page := PageOf(p, ws[k].local);
    var skip := SkipOf(p, ws[k].local, p.pages[page]);
    var t := ListState(p.name, page, s.capacity, c.limit);
    CutRemaining(c, ws, k, s.capacity, c.limit);
    var cut := ItemsOf(c, ws, k)[..s.capacity];
    var rest := Remaining(c, ws, k);
    CutPrefix(s.emitted, cut, rest);
    if skip == 0 {
      assert s.emitted + cut + From(c.parts, t) == s.emitted + (cut + From(c.parts, t));
      assert !Overflows(c);
    } else {
      assert Overflows(c);
    }
  }

  lemma CutPrefix<T>(emitted: seq<T>, cut: seq<T>, rest: seq<T>)
    requires cut <= rest
    ensures emitted + cut <= emitted + rest
  {
  }

  /** Case 1: the page is cut at the remaining capacity and the token is saved. */
  lemma CutTurn<T(!new)>(c: Config<T>, whole: seq<T>, s: State<T>, s': State<T>, k: nat)
    requires Wf(c) && Inv(c, whole, s, k) && Turn(c, s, s', k) && s.token.None? && s'.token.Some?
    ensures Inv(c, whole, s', k + 1)
  {
    hide From, FromIndex, Later, Flatten, Remaining, Readable, Overflows, Snapshot, TokenOk;
    FinishedWorker(c, s.workers, s'.workers, k);
    CutToken(c, whole, s, k);
  }

  lemma NextInv<T(!new)>(c: Config<T>, whole: seq<T>, s: State<T>, s': State<T>, d: nat) returns (d': nat)
    requires Wf(c) && Inv(c, whole, s, d) && Next(c, s, s')
    ensures Inv(c, whole, s', d')
  {
    d' := d;
    if Spawn(c, s, s') {
      SpawnInv(c, whole, s, s', d);
    } else if k: nat :| Fetch(c, s, s', k) {
      FetchInv(c, whole, s, s', k, d);
    } else if k: nat :| Turn(c, s, s', k) {
      TurnIsActive(c, s, s', k, d);
      d' := TurnInv(c, whole, s, s', k);
    }
  }

  /** Once the continue state is set nothing more is emitted and the state stays as it is. */
  lemma NothingAfterToken<T(!new)>(c: Config<T>, s: State<T>, s': State<T>)
    requires s.token.Some? && Next(c, s, s')
    ensures s'.emitted == s.emitted && s'.token == s.token
  {
  }

  lemma {:induction false} RunInv<T(!new)>(c: Config<T>, run: seq<State<T>>, i: nat) returns (d: nat)
    requires Wf(c) && Run(c, run) && i < |run|
    ensures Inv(c, From(c.parts, c.resume), run[i], d)
  {
    if i == 0 {
      d := 0;
    } else {
      var d0 := RunInv(c, run, i - 1);
      d := NextInv(c, From(c.parts, c.resume), run[i - 1], run[i], d0);
    }
  }

  // ----- Main results -----

  function Take<T>(s: seq<T>, n: int): seq<T> {
    if 0 <= n <= |s| then s[..n] else s
  }

  /** Every interleaving emits exactly the first `limit` objects of the sequential list, or the
      whole list when there is no limit. */
  lemma EmitsPrefix<T(!new)>(c: Config<T>, run: seq<State<T>>)
    requires Wf(c) && Run(c, run) && Final(run[|run| - 1])
    ensures var whole := From(c.parts, c.resume);
            run[|run| - 1].emitted == if c.limit > 0 then Take(whole, c.limit) else whole
  {
    var d := RunInv(c, run, |run| - 1);
    FinalState(c, From(c.parts, c.resume), run[|run| - 1], d);
  }

  lemma RemainingAtEnd<T(!new)>(c: Config<T>, ws: seq<Worker>)
    requires Wf(c) && WorkersOk(c, ws, |ws|) && c.start + |ws| >= |c.parts|
    ensures Remaining(c, ws, |ws|) == []
  {
  }

  lemma AllDone<T(!new)>(c: Config<T>, s: State<T>, d: nat)
    requires WorkersOk(c, s.workers, d) && Final(s)
    ensures d == |s.workers|
  {
    if d < |s.workers| {
      WorkerDone(s, d);
    }
  }

  lemma WorkerDone<T(!new)>(s: State<T>, k: nat)
    requires Final(s) && k < |s.workers|
    ensures s.workers[k].phase == Done
  {
  }

  lemma FinalState<T(!new)>(c: Config<T>, whole: seq<T>, s: State<T>, d: nat)
    requires Wf(c) && Inv(c, whole, s, d) && Final(s)
    ensures s.token.None? && (c.limit <= 0 || |s.emitted| < c.limit) ==> s.emitted == whole
    ensures s.emitted == if c.limit > 0 then Take(whole, c.limit) else whole
  {
    hide From, FromIndex, Later, Remaining, Overflows, Readable, SkipOnlyFirst, BeforeOverflow;
    AllDone(c, s, d);
    if s.token.None? {
      if c.start + |s.workers| >= |c.parts| {
        RemainingAtEnd(c, s.workers);
      }
      assert s.emitted <= whole;
    }
  }

  /** The main loop finds no capacity left when it looks for the next partition. */
  ghost predicate Full<T(!new)>(c: Config<T>, s: State<T>) {
    c.limit > 0 && s.capacity <= 0 && s.main != Acquiring
  }

  lemma StaysFull<T(!new)>(c: Config<T>, s: State<T>, s': State<T>)
    requires Full(c, s) && Next(c, s, s')
    ensures Full(c, s') && |s'.workers| == |s.workers|
  {
  }

  /** Then it starts no more goroutines, in any run. */
  lemma {:induction false} NoStartWhenFull<T(!new)>(c: Config<T>, run: seq<State<T>>, i: nat, j: nat)
    requires Run(c, run) && i <= j < |run| && Full(c, run[i])
    ensures Full(c, run[j]) && |run[j].workers| == |run[i].workers|
  {
    hide Next, Init;
    if i < j {
      NoStartWhenFull(c, run, i, j - 1);
      StaysFull(c, run[j - 1], run[j]);
    }
  }

  /** A token denotes exactly the rest of the list if and only if the resumed page does not
      overflow the limit behind a non-zero offset. */
  lemma TokenExact<T(!new)>(c: Config<T>, run: seq<State<T>>)
    requires Wf(c) && Run(c, run) && run[|run| - 1].token.Some?
    ensures var s := run[|run| - 1];
            && Readable(c.parts, s.token.value)
            && (s.emitted + From(c.parts, s.token.value) == From(c.parts, c.resume) <==> !Overflows(c))
  {
    var d := RunInv(c, run, |run| - 1);
    var s := run[|run| - 1];
    if Overflows(c) {
      assert |s.emitted + From(c.parts, s.token.value)| > |From(c.parts, c.resume)|;
    }
  }

  /** The limit falls exactly on the end of a partition, and there are objects behind it. */
  ghost predicate EndsAtPartition<T(!new)>(c: Config<T>)
    requires Readable(c.parts, c.resume)
  {
    exists j ::
      c.start < j && Later(c.parts, j) != [] && |From(c.parts, c.resume)| == c.limit + |Later(c.parts, j)|
  }

  /** No token although objects are left: only when the limit falls on the end of a partition. */
  lemma NoTokenComplete<T(!new)>(c: Config<T>, run: seq<State<T>>)
    requires Wf(c) && Run(c, run) && Final(run[|run| - 1])
    requires run[|run| - 1].token.None? && !(c.limit > 0 && EndsAtPartition(c))
    ensures run[|run| - 1].emitted == From(c.parts, c.resume)
  {
    hide Next, From, FromIndex, Later;
    var d := RunInv(c, run, |run| - 1);
    CompleteState(c, run[|run| - 1], d);
  }

  lemma CompleteState<T(!new)>(c: Config<T>, s: State<T>, d: nat)
    requires Wf(c) && Inv(c, From(c.parts, c.resume), s, d) && Final(s)
    requires s.token.None? && !(c.limit > 0 && EndsAtPartition(c))
    ensures s.emitted == From(c.parts, c.resume)
  {
    hide From, FromIndex, Later, Readable;
    FinalState(c, From(c.parts, c.resume), s, d);
    if c.limit > 0 && |s.emitted| == c.limit {
      AllDone(c, s, d);
      assert Remaining(c, s.workers, d) == Later(c.parts, c.start + d);
    }
  }

  // ----- The limit in force -----

  /** The first `n` objects, or all if there are fewer or no limit. */
  ghost predicate FirstOf<T(!new)>(emitted: seq<T>, whole: seq<T>, n: int) {
    if n <= 0 then emitted == whole
    else emitted <= whole && |emitted| == if |whole| < n then |whole| else n
  }

  /** A limit in the token counts, whatever the request's; without one the request's counts. */
  lemma LimitInForce<T(!new)>(parts: seq<Partition<T>>, requestLimit: int, resume: ListState, run: seq<State<T>>)
    requires Snapshot(parts) && Readable(parts, resume)
    requires Run(Open(parts, requestLimit, resume), run) && Final(run[|run| - 1])
    ensures var s, l := run[|run| - 1], if resume.limit > 0 then resume.limit else requestLimit;
            && FirstOf(s.emitted, From(parts, resume), l)
            && (s.token.Some? ==> l > 0 && s.token.value.limit == l && Readable(parts, s.token.value))
  {
    hide From, Next;
    var c := Open(parts, requestLimit, resume);
    EmitsPrefix(c, run);
    var d := RunInv(c, run, |run| - 1);
  }

  // ----- Following tokens -----

  /** One list request: the limit it asks for, the token it resumes at, what it emitted and the token it left. */
  datatype Chunk<T> = Chunk(limit: int, resume: ListState, emitted: seq<T>, token: Option<ListState>)

  ghost predicate ChunkOf<T(!new)>(parts: seq<Partition<T>>, ch: Chunk<T>) {
    exists run: seq<State<T>> ::
      && Run(Open(parts, ch.limit, ch.resume), run)
      && Final(run[|run| - 1])
      && ch.emitted == run[|run| - 1].emitted
      && ch.token == run[|run| - 1].token
  }

  /** A client that starts afresh and resumes each time at the token it was given. */
  ghost predicate Session<T(!new)>(parts: seq<Partition<T>>, chunks: seq<Chunk<T>>) {
    && (forall i :: 0 <= i < |chunks| ==> ChunkOf(parts, chunks[i]))
    && Linked(chunks)
  }

  /** Kubernetes honours the limit it is sent. */
  ghost predicate PagesWithin<T(!new)>(parts: seq<Partition<T>>, limit: int) {
    forall i, j :: 0 <= i < |parts| && 0 <= j < |parts[i].pages| && limit > 0 ==> |parts[i].pages[j]| <= limit
  }

  function Received<T>(chunks: seq<Chunk<T>>): seq<T> {
    if chunks == [] then [] else Received(chunks[..|chunks| - 1]) + chunks[|chunks| - 1].emitted
  }

  /** The limit `limit` is in force for the request. */
  predicate InForce<T>(ch: Chunk<T>, limit: int) {
    if ch.resume.limit > 0 then ch.resume.limit == limit else ch.limit == limit
  }

  /** What a request for which `limit` is in force contributes when pages respect that limit. */
  ghost predicate ChunkFacts<T(!new)>(parts: seq<Partition<T>>, limit: int, ch: Chunk<T>) {
    Readable(parts, ch.resume) && InForce(ch, limit) ==>
      && FirstOf(ch.emitted, From(parts, ch.resume), limit)
      && (ch.token.Some? ==>
            && Readable(parts, ch.token.value) && ch.token.value.limit == limit
            && ch.emitted + From(parts, ch.token.value) == From(parts, ch.resume))
      && (ch.token.None? && !EndsAtPartition(Open(parts, ch.limit, ch.resume)) ==> ch.emitted == From(parts, ch.resume))
  }

  lemma ChunkExact<T(!new)>(parts: seq<Partition<T>>, limit: int, ch: Chunk<T>)
    requires Snapshot(parts) && PagesWithin(parts, limit) && ChunkOf(parts, ch) && limit > 0
    ensures ChunkFacts(parts, limit, ch)
  {
    hide From, Next;
    if Readable(parts, ch.resume) && InForce(ch, limit) {
      var c := Open(parts, ch.limit, ch.resume);
      var run: seq<State<T>> :| Run(c, run) && Final(run[|run| - 1])
        && ch.emitted == run[|run| - 1].emitted && ch.token == run[|run| - 1].token;
      LimitInForce(parts, ch.limit, ch.resume, run);
      var d := RunInv(c, run, |run| - 1);
      if ch.token.None? && !EndsAtPartition(c) {
        CompleteState(c, run[|run| - 1], d);
      }
    }
  }

  ghost predicate Linked<T(!new)>(chunks: seq<Chunk<T>>) {
    && (|chunks| > 0 ==> chunks[0].resume == FIRST_REQUEST)
    && (forall i :: 0 <= i < |chunks| - 1 ==>
          chunks[i].token.Some? && chunks[i + 1].resume == chunks[i].token.value)
  }

  /** Each request resumes where the objects received so far end. */
  lemma {:induction false} SessionResumes<T(!new)>(parts: seq<Partition<T>>, limit: int, chunks: seq<Chunk<T>>, i: nat)
    requires Readable(parts, FIRST_REQUEST) && Linked(chunks) && i < |chunks| && chunks[0].limit == limit > 0
    requires forall k :: 0 <= k < |chunks| ==> ChunkFacts(parts, limit, chunks[k])
    ensures Readable(parts, chunks[i].resume) && InForce(chunks[i], limit)
    ensures i > 0 ==> chunks[i].resume.limit == limit
    ensures Received(chunks[..i]) + From(parts, chunks[i].resume) == From(parts, FIRST_REQUEST)
  {
    hide From, Readable;
    if i > 0 {
      SessionResumes(parts, limit, chunks, i - 1);
      ReceivedStep(chunks, i - 1);
      var prev := chunks[i - 1];
      assert ChunkFacts(parts, limit, prev);
      Reassociate(Received(chunks[..i - 1]), prev.emitted, From(parts, chunks[i].resume));
    }
  }

  lemma Reassociate<T>(a: seq<T>, b: seq<T>, c: seq<T>)
    ensures (a + b) + c == a + (b + c)
  {
  }

  lemma ReceivedStep<T>(chunks: seq<Chunk<T>>, i: nat)
    requires i < |chunks|
    ensures Received(chunks[..i + 1]) == Received(chunks[..i]) + chunks[i].emitted
  {
    assert chunks[..i + 1][..i] == chunks[..i];
  }

  lemma SessionEnd<T(!new)>(parts: seq<Partition<T>>, limit: int, chunks: seq<Chunk<T>>)
    requires Readable(parts, FIRST_REQUEST) && Linked(chunks) && |chunks| > 0 && chunks[0].limit == limit > 0
    requires forall k :: 0 <= k < |chunks| ==> ChunkFacts(parts, limit, chunks[k])
    ensures var last := chunks[|chunks| - 1];
            && (last.token.Some? ==>
                  && Readable(parts, last.token.value)
                  && Received(chunks) + From(parts, last.token.value) == From(parts, FIRST_REQUEST))
            && Readable(parts, last.resume)
            && (last.token.None? && !EndsAtPartition(Open(parts, last.limit, last.resume)) ==>
                  Received(chunks) == From(parts, FIRST_REQUEST))
  {
    hide From, Readable;
    var n := |chunks|;
    var last := chunks[n - 1];
    SessionResumes(parts, limit, chunks, n - 1);
    assert ChunkFacts(parts, limit, last);
    ReceivedStep(chunks, n - 1);
    assert chunks[..n] == chunks;
    if last.token.Some? {
      Reassociate(Received(chunks[..n - 1]), last.emitted, From(parts, last.token.value));
    }
  }

  /** Following continue tokens loses and repeats nothing: what was received followed by
      everything from the last token is the whole list, and no token means that everything was
      received unless the limit of the last request fell on the end of a partition. Only the limit
      of the first request matters: every request returns that many objects, or all that are left. */
  lemma SessionExact<T(!new)>(parts: seq<Partition<T>>, chunks: seq<Chunk<T>>)
    requires Session(parts, chunks) && |chunks| > 0 && Snapshot(parts)
    requires chunks[0].limit > 0 && PagesWithin(parts, chunks[0].limit)
    ensures var last := chunks[|chunks| - 1];
            && Later(parts, 0) == From(parts, FIRST_REQUEST)
            && (last.token.Some? ==>
                  && Readable(parts, last.token.value)
                  && Received(chunks) + From(parts, last.token.value) == Later(parts, 0))
            && Readable(parts, last.resume)
            && FirstOf(last.emitted, From(parts, last.resume), chunks[0].limit)
            && (last.token.None? && !EndsAtPartition(Open(parts, last.limit, last.resume)) ==>
                  Received(chunks) == Later(parts, 0))
  {
    hide From, Later, Readable, ChunkOf, Snapshot, PagesWithin, EndsAtPartition;
    var n, limit := |chunks|, chunks[0].limit;
    FirstRequestReadsAll(parts);
    forall k | 0 <= k < n ensures ChunkFacts(parts, limit, chunks[k]) {
      ChunkExact(parts, limit, chunks[k]);
    }
    SessionEnd(parts, limit, chunks);
    SessionResumes(parts, limit, chunks, n - 1);
  }

  /** The first request reads the whole snapshot. */
  lemma FirstRequestReadsAll<T(!new)>(parts: seq<Partition<T>>)
    requires Snapshot(parts)
    ensures Readable(parts, FIRST_REQUEST) && From(parts, FIRST_REQUEST) == Later(parts, 0)
  {
    if parts != [] {
      var p := parts[0];
      assert p.pages == [p.pages[0]] + p.pages[1..];
    }
  }
}
