/** Reordering a run of steps, over any states and steps: if neighbours that do not conflict can
    be swapped, then a conflict-free run can be permuted at will. */
module Reordering {

  function Run<S, T>(step: (S, T) -> S, st: S, ts: seq<T>): S {
    if ts == [] then st else Run(step, step(st, ts[0]), ts[1..])
  }

  predicate AllOk<S, T>(step: (S, T) -> S, ok: (S, T) -> bool, st: S, ts: seq<T>) {
    ts == [] || (ok(st, ts[0]) && AllOk(step, ok, step(st, ts[0]), ts[1..]))
  }

  ghost predicate Swappable<S(!new), T(!new)>(step: (S, T) -> S, ok: (S, T) -> bool, free: (T, T) -> bool) {
    forall st, a, b :: free(a, b) && ok(st, a) && ok(step(st, a), b) ==>
      ok(st, b) && ok(step(st, b), a) && step(step(st, a), b) == step(step(st, b), a)
  }

  ghost predicate PairwiseFree<T>(free: (T, T) -> bool, ts: seq<T>) {
    forall i, j :: 0 <= i < j < |ts| ==> free(ts[i], ts[j])
  }

  function Without<T>(ts: seq<T>, j: nat): seq<T>
    requires j < |ts|
  {
    ts[..j] + ts[j + 1..]
  }

  /** A step that conflicts with none before it may come first. */
  lemma {:induction false} MoveToFront<S(!new), T(!new)>(
      step: (S, T) -> S, ok: (S, T) -> bool, free: (T, T) -> bool, st: S, ts: seq<T>, j: nat)
    requires Swappable(step, ok, free) && j < |ts| && AllOk(step, ok, st, ts)
    requires forall i :: 0 <= i < j ==> free(ts[i], ts[j])
    ensures ok(st, ts[j]) && AllOk(step, ok, step(st, ts[j]), Without(ts, j))
    ensures Run(step, step(st, ts[j]), Without(ts, j)) == Run(step, st, ts)
    decreases j
  {
    if j == 0 {
      assert Without(ts, 0) == ts[1..];
    } else {
      var a, b := ts[0], ts[j];
      MoveToFront(step, ok, free, step(st, a), ts[1..], j - 1);
      assert free(a, b) && ok(step(st, a), b);
      assert Without(ts, j)[0] == a && Without(ts, j)[1..] == Without(ts[1..], j - 1);
    }
  }

  /** Every permutation of a conflict-free successful run succeeds and ends in the same state. */
  lemma {:induction false} Reorder<S(!new), T(!new)>(
      step: (S, T) -> S, ok: (S, T) -> bool, free: (T, T) -> bool, st: S, xs: seq<T>, ys: seq<T>)
    requires Swappable(step, ok, free) && PairwiseFree(free, xs)
    requires AllOk(step, ok, st, xs) && multiset(xs) == multiset(ys)
    ensures AllOk(step, ok, st, ys) && Run(step, st, ys) == Run(step, st, xs)
    decreases |ys|
  {
    if ys == [] {
      assert |xs| == |multiset(xs)| == |multiset(ys)|;
    } else {
      var j := Locate(xs, ys);
      MoveToFront(step, ok, free, st, xs, j);
      Reorder(step, ok, free, step(st, ys[0]), Without(xs, j), ys[1..]);
    }
  }

  lemma Locate<T>(xs: seq<T>, ys: seq<T>) returns (j: nat)
    requires ys != [] && multiset(xs) == multiset(ys)
    ensures j < |xs| && xs[j] == ys[0] && multiset(Without(xs, j)) == multiset(ys[1..])
  {
    assert ys[0] in multiset(ys);
    j :| 0 <= j < |xs| && xs[j] == ys[0];
    assert xs == xs[..j] + [xs[j]] + xs[j + 1..];
    assert ys == [ys[0]] + ys[1..];
    assert multiset(xs) == multiset(Without(xs, j)) + multiset{ys[0]};
    assert multiset(ys) == multiset(ys[1..]) + multiset{ys[0]};
    assert multiset(Without(xs, j)) == multiset(xs) - multiset{ys[0]};
  }
}
