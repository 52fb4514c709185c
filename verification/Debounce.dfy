/**
 Debouncing of counts (pkg/resources/counts/buffer.go): messages received between two ticks are
 merged into one, in place, and sent at the tick.
 */
module Debounce {
  import opened Prelude
  import opened Counts

  /** The counts of a message: a Go map, shared by reference. */
  class CountMap {
    var m: map<string, ItemValue>

    constructor (m: map<string, ItemValue>)
      ensures this.m == m
    {
      this.m := m;
    }
  }

  type Values = map<string, ItemValue>

  /** What a consumer knows after messages, each replacing what came before it. */
  function Overlay(ms: seq<Values>): Values {
    if ms == [] then map[] else Overlay(ms[..|ms| - 1]) + ms[|ms| - 1]
  }

  lemma OverlayNext(ms: seq<Values>, m: Values)
    ensures Overlay(ms + [m]) == Overlay(ms) + m
  {
    assert (ms + [m])[..|ms|] == ms;
  }

  class Debouncer {
    /** Merged since the last tick. */
    var current: CountMap?
    var output: seq<CountMap>
    var started: bool
    /** What was received, and what each output said when it was sent. */
    ghost var received: seq<Values>
    ghost var shown: seq<Values>

    ghost function Pending(): Values
      reads this, current
    {
      if current == null then map[] else current.m
    }

    /** Outputs still say what they said; together with what is pending they amount to everything received. */
    ghost predicate Valid()
      reads this, current, output
    {
      && current !in output
      && |shown| == |output| && (forall i :: 0 <= i < |output| ==> output[i].m == shown[i])
      && Overlay(shown) + Pending() == Overlay(received)
      && (!started ==> received == [] && current == null)
    }

    constructor ()
      ensures Valid() && !started && output == [] && received == [] && shown == []
    {
      current, output, started, received, shown := null, [], false, [], [];
    }

    method Emit(c: CountMap)
      modifies this`output, this`shown
      ensures output == old(output) + [c] && shown == old(shown) + [c.m]
    {
      output := output + [c];
      shown := shown + [c.m];
    }

    /** The first message is sent at once. The sender shares a message's map with nobody. */
    method First(count: CountMap)
      requires Valid() && !started && count !in output
      modifies this
      ensures Valid() && started && received == [count.m] && shown == old(shown) + [count.m] && Pending() == map[]
    {
      hide Overlay;
      OverlayNext(received, count.m);
      OverlayNext(shown, count.m);
      started := true;
      received := received + [count.m];
      Emit(count);
    }

    lemma MergedOverlay(m: Values)
      requires Valid()
      ensures Overlay(shown) + (Pending() + m) == Overlay(received + [m])
    {
      hide Overlay;
      OverlayNext(received, m);
    }

    /** A later message is kept, or merged into the one kept. */
    method Receive(count: CountMap)
      requires Valid() && started && count != current && count !in output
      modifies this, current
      ensures Valid() && started && received == old(received) + [old(count.m)]
      ensures shown == old(shown) && Pending() == old(Pending()) + old(count.m)
    {
      hide Overlay;
      MergedOverlay(count.m);
      received := received + [count.m];
      if current == null {
        current := count;
        assert map[] + count.m == count.m;
      } else {
        Merge(count);
      }
    }

    method Merge(count: CountMap)
      requires current != null && count != current && current !in output
      modifies current
      ensures current.m == old(current.m) + count.m
    {
      ghost var before := current.m;
      var ids := Listed(count.m.Keys);
      for i := 0 to |ids|
        invariant forall id :: id in current.m <==> id in before || id in ids[..i]
        invariant forall id :: id in current.m ==>
                    current.m[id] == if id in ids[..i] && id in count.m then count.m[id] else before[id]
      {
        assert ids[i] in ids;
        current.m := current.m[ids[i] := count.m[ids[i]]];
        assert ids[..i + 1] == ids[..i] + [ids[i]];
      }
      assert ids[..|ids|] == ids;
      assert current.m == before + count.m;
    }

    /** Sends what was kept, if anything. */
    method Tick()
      requires Valid()
      modifies this
      ensures Valid() && Pending() == map[] && received == old(received) && started == old(started)
      ensures shown == if old(current) == null then old(shown) else old(shown) + [old(Pending())]
    {
      if current != null {
        OverlayNext(shown, current.m);
        Emit(current);
        current := null;
      }
    }
  }
}
