/** Shared value types and sequence functions. */
module Prelude {

  datatype Option<+T> = None | Some(value: T)

  datatype Result<+T, +E> = Ok(value: T) | Err(error: E)

  /** The concatenation of a sequence of sequences. */
  function Flatten<T>(ss: seq<seq<T>>): seq<T>
  {
    if ss == [] then [] else ss[0] + Flatten(ss[1..])
  }

  /** Places in ascending order, each once. */
  ghost predicate Increasing(places: seq<nat>) { forall i, j :: 0 <= i < j < |places| ==> places[i] < places[j] }

  /** The elements at these places, in order. */
  ghost predicate PickedAt<T(!new)>(xs: seq<T>, places: seq<nat>, ys: seq<T>) {
    && Increasing(places) && |ys| == |places|
    && forall k :: 0 <= k < |places| ==> places[k] < |xs| && ys[k] == xs[places[k]]
  }

  /** One element more, which is picked or not. */
  lemma PickNext<T(!new)>(xs: seq<T>, places: seq<nat>, ys: seq<T>)
    requires xs != [] && PickedAt(xs[..|xs| - 1], places, ys)
    ensures PickedAt(xs, places, ys) && PickedAt(xs, places + [|xs| - 1], ys + [xs[|xs| - 1]])
  {
  }

  /** The members of a set in some order, as ranging over a Go map yields them. */
  method Listed<T(==)>(s: set<T>) returns (q: seq<T>)
    ensures forall x :: x in q <==> x in s
    ensures forall i, j :: 0 <= i < j < |q| ==> q[i] != q[j]
  {
    q := [];
    var todo := s;
    while todo != {}
      invariant forall x :: x in s <==> x in q || x in todo
      invariant forall x :: x in q ==> x !in todo
      invariant forall i, j :: 0 <= i < j < |q| ==> q[i] != q[j]
      decreases |todo|
    {
      var x :| x in todo;
      q := q + [x];
      todo := todo - {x};
    }
  }
}
