/** Finite sums over sequences, shared by the accounting arguments of every component. */
module Sums {

  function SumBy<T>(f: T -> int, xs: seq<T>): int {
    if |xs| == 0 then 0 else SumBy(f, xs[..|xs| - 1]) + f(xs[|xs| - 1])
  }

  lemma {:induction false} SumUpdate<T>(f: T -> int, xs: seq<T>, i: nat, x: T)
    requires i < |xs|
    ensures SumBy(f, xs[i := x]) == SumBy(f, xs) - f(xs[i]) + f(x)
  {
    var n := |xs| - 1;
    var ys := xs[i := x];
    if i < n {
      assert ys[..n] == xs[..n][i := x];
      SumUpdate(f, xs[..n], i, x);
    } else {
      assert ys[..n] == xs[..n];
    }
  }

  lemma SumPush<T>(f: T -> int, xs: seq<T>, x: T)
    ensures SumBy(f, xs + [x]) == SumBy(f, xs) + f(x)
  {
    assert (xs + [x])[..|xs|] == xs;
  }

  lemma {:induction false} SumAppend<T>(f: T -> int, xs: seq<T>, ys: seq<T>)
    ensures SumBy(f, xs + ys) == SumBy(f, xs) + SumBy(f, ys)
  {
    if |ys| == 0 {
      assert xs + ys == xs;
    } else {
      var n := |ys| - 1;
      SumAppend(f, xs, ys[..n]);
      assert (xs + ys)[..|xs| + n] == xs + ys[..n];
    }
  }

  lemma {:induction false} SumNonNegative<T>(f: T -> int, xs: seq<T>)
    requires forall i :: 0 <= i < |xs| ==> f(xs[i]) >= 0
    ensures SumBy(f, xs) >= 0
    ensures forall i :: 0 <= i < |xs| ==> f(xs[i]) <= SumBy(f, xs)
  {
    if |xs| > 0 {
      var ys := xs[..|xs| - 1];
      assert forall i :: 0 <= i < |ys| ==> f(ys[i]) == f(xs[i]);
      SumNonNegative(f, ys);
      forall i | 0 <= i < |xs| ensures f(xs[i]) <= SumBy(f, xs) {
        if i < |ys| { assert ys[i] == xs[i]; }
      }
    }
  }

  /** Two functions that agree on every element have the same sum. */
  lemma {:induction false} SumSame<T>(f: T -> int, xs: seq<T>, g: T -> int, ys: seq<T>)
    requires |xs| == |ys|
    requires forall i :: 0 <= i < |xs| ==> f(xs[i]) == g(ys[i])
    ensures SumBy(f, xs) == SumBy(g, ys)
  {
    if |xs| > 0 {
      var n := |xs| - 1;
      assert forall i :: 0 <= i < n ==> f(xs[..n][i]) == f(xs[i]) == g(ys[i]) == g(ys[..n][i]);
      SumSame(f, xs[..n], g, ys[..n]);
    }
  }
}
