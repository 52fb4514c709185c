/**
 The goroutine behind `watcherWithBackfill` (pkg/sqlcache/informer/listoption_indexer.go): it
 buffers events while older ones are replayed, then flushes its queue and turns into a pipe.
 */
module BackfillProxy {
  import opened Prelude

  /** Where the goroutine is: accumulating, waiting for the backfill signal, flushing its queue,
      piping events through, or gone. */
  datatype Phase = Accumulating | Waiting | Flushing | Live | Stopped

  /** `received` and `sent` record everything read from watcherCh and written to eventsCh. */
  datatype Proxy<T> = Proxy(
    phase: Phase,
    queue: seq<T>,
    hand: Option<T>,
    signalled: bool,
    cancelled: bool,
    received: seq<T>,
    sent: seq<T>)

  function Fresh<T>(): Proxy<T> {
    Proxy(Accumulating, [], None, false, false, [], [])
  }

  /** The proxy is at a `select` that reads watcherCh. */
  predicate CanReceive<T>(max: nat, p: Proxy<T>) {
    || (p.phase == Accumulating && |p.queue| < max)
    || (p.phase == Flushing && 0 < |p.queue| < max)
    || (p.phase == Live && p.hand.None?)
  }

  function Receive<T>(p: Proxy<T>, e: T): Proxy<T> {
    if p.phase == Live then p.(hand := Some(e), received := p.received + [e])
    else p.(queue := p.queue + [e], received := p.received + [e])
  }

  /** The two places that write to eventsCh. */
  predicate CanSend<T>(p: Proxy<T>) {
    || (p.phase == Flushing && |p.queue| > 0)
    || (p.phase == Live && p.hand.Some?)
  }

  function Sending<T>(p: Proxy<T>): T
    requires CanSend(p)
  {
    if p.phase == Flushing then p.queue[0] else p.hand.value
  }

  function Send<T>(p: Proxy<T>): Proxy<T>
    requires CanSend(p)
  {
    if p.phase == Flushing then p.(queue := p.queue[1..], sent := p.sent + [p.queue[0]])
    else p.(hand := None, sent := p.sent + [p.hand.value])
  }

  /** Steps that touch neither channel. */
  ghost predicate Internal<T(!new)>(max: nat, p: Proxy<T>, p': Proxy<T>) {
    // the accumulation loop ends: the queue is full, or the backfill context is done
    || (p.phase == Accumulating && (|p.queue| >= max || p.signalled || p.cancelled) && p' == p.(phase := Waiting))
    || (p.phase == Waiting && p.signalled && !p.cancelled && p' == p.(phase := Flushing))
    || (p.phase == Flushing && p.queue == [] && p' == p.(phase := Live))
    // the context is done, or watcherCh was closed, which only happens after that
    || (p.cancelled && p' == p.(phase := Stopped))
  }

  function Signal<T>(p: Proxy<T>): Proxy<T> { p.(signalled := true) }

  function Cancel<T>(p: Proxy<T>): Proxy<T> { p.(cancelled := true) }

  ghost predicate Next<T(!new)>(max: nat, p: Proxy<T>, p': Proxy<T>) {
    || Internal(max, p, p')
    || p' == Signal(p)
    || p' == Cancel(p)
    || (CanReceive(max, p) && exists e :: p' == Receive(p, e))
    || (CanSend(p) && p' == Send(p))
  }

  function InHand<T>(p: Proxy<T>): seq<T> {
    if p.hand.Some? then [p.hand.value] else []
  }

  ghost predicate Inv<T(!new)>(max: nat, p: Proxy<T>) {
    && p.sent + p.queue + InHand(p) == p.received
    && |p.queue| <= max
    && (p.sent != [] ==> p.signalled)
    && (p.phase in {Flushing, Live} ==> p.signalled)
    && (p.hand.Some? ==> p.phase in {Live, Stopped})
    && (p.phase == Live ==> p.queue == [])
    && (p.phase == Waiting ==> |p.queue| >= max || p.signalled || p.cancelled)
    && (p.phase == Stopped ==> p.cancelled)
  }

  lemma ReceiveInv<T(!new)>(max: nat, p: Proxy<T>, e: T)
    requires Inv(max, p) && CanReceive(max, p)
    ensures Inv(max, Receive(p, e))
  {
    assert p.sent + (p.queue + [e]) == (p.sent + p.queue) + [e];
  }

  lemma SendInv<T(!new)>(max: nat, p: Proxy<T>)
    requires Inv(max, p) && CanSend(p)
    ensures Inv(max, Send(p))
    ensures Send(p).sent == p.sent + [Sending(p)]
  {
    if p.phase == Flushing {
      assert p.queue == [p.queue[0]] + p.queue[1..];
    }
  }

  lemma NextInv<T(!new)>(max: nat, p: Proxy<T>, p': Proxy<T>)
    requires Inv(max, p) && Next(max, p, p')
    ensures Inv(max, p')
  {
    if CanReceive(max, p) && exists e :: p' == Receive(p, e) {
      var e :| p' == Receive(p, e);
      ReceiveInv(max, p, e);
    } else if CanSend(p) && p' == Send(p) {
      SendInv(max, p);
    }
  }

  ghost predicate Run<T(!new)>(max: nat, run: seq<Proxy<T>>) {
    && |run| > 0
    && run[0] == Fresh()
    && forall i :: 0 <= i < |run| - 1 ==> Next(max, run[i], run[i + 1])
  }

  /** In every reachable state: what was delivered, then the queue, then the event in hand, is
      what was received; the queue respects its bound; nothing precedes the signal. */
  lemma {:induction false} EveryRun<T(!new)>(max: nat, run: seq<Proxy<T>>, i: nat)
    requires Run(max, run) && i < |run|
    ensures var p := run[i];
            && p.sent + p.queue + InHand(p) == p.received
            && |p.queue| <= max
            && (!p.signalled ==> p.sent == [])
            && (!p.signalled && !p.cancelled ==> (CanReceive(max, p) <==> |p.queue| < max))
    ensures Inv(max, run[i])
  {
    hide Next;
    if i > 0 {
      EveryRun(max, run, i - 1);
      NextInv(max, run[i - 1], run[i]);
    }
  }
}
