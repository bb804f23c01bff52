// Keeping the elements with a property, and the positions that they come from.
module Filters {

  // ys are the elements of xs at the positions `at`, in order.
  ghost predicate Picks<T(!new)>(xs: seq<T>, ys: seq<T>, at: seq<nat>) {
    |at| == |ys|
    && (forall k :: 0 <= k < |at| ==> at[k] < |xs| && xs[at[k]] == ys[k])
    && (forall k, l :: 0 <= k < l < |at| ==> at[k] < at[l])
  }

  function Filter<T>(xs: seq<T>, p: T -> bool): seq<T> {
    if xs == [] then [] else (if p(xs[0]) then [xs[0]] else []) + Filter(xs[1..], p)
  }

  lemma {:induction false} FilterSnoc<T>(xs: seq<T>, x: T, p: T -> bool)
    ensures Filter(xs + [x], p) == Filter(xs, p) + if p(x) then [x] else []
  {
    if xs == [] {
      assert xs + [x] == [x] && [x][1..] == [];
    } else {
      assert (xs + [x])[1..] == xs[1..] + [x];
      FilterSnoc(xs[1..], x, p);
    }
  }

  // Exactly the positions with the property are picked, each once and in order.
  lemma {:induction false} FilterPositions<T(!new)>(xs: seq<T>, p: T -> bool) returns (at: seq<nat>)
    ensures Picks(xs, Filter(xs, p), at)
    ensures forall i :: 0 <= i < |xs| ==> (p(xs[i]) <==> i in at)
    decreases |xs|
  {
    at := [];
    if xs != [] {
      var n := |xs| - 1;
      var before := FilterPositions(xs[..n], p);
      assert xs == xs[..n] + [xs[n]];
      FilterSnoc(xs[..n], xs[n], p);
      at := before + if p(xs[n]) then [n] else [];
      forall i | 0 <= i < n ensures p(xs[i]) <==> i in at {
        assert xs[..n][i] == xs[i];
      }
      assert n !in before;
    }
  }
}
