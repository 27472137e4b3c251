/** Small shared vocabulary: optional and fallible results, powers of two,
    and order-preserving selection from a sequence. */
module Util {

  /** A value that may be absent: the detector's `null` for "no marker". */
  datatype Option<+T> = None | Some(value: T)

  /** A value or the error that was thrown instead. */
  datatype Result<+T, +E> = Success(value: T) | Failure(error: E)

  function Pow2(n: nat): (r: nat)
    ensures r >= 1
  {
    if n == 0 then 1 else 2 * Pow2(n - 1)
  }

  lemma {:induction false} MulMonotone(a: int, b: int, c: int)
    requires a <= b && c >= 0
    ensures a * c <= b * c
  {
    assert b * c - a * c == (b - a) * c;
  }

  /** The remainder of q·n + t by n is t, for 0 <= t < n. */
  lemma {:induction false} ModUnique(x: int, n: int, q: int, t: int)
    requires n > 0 && 0 <= t < n && x == q * n + t
    ensures x % n == t
  {
    var q2, t2 := x / n, x % n;
    var d := q - q2;
    assert d * n == t2 - t by {
      assert q * n - q2 * n == (q - q2) * n;
    }
    if d >= 1 {
      MulMonotone(1, d, n);
    } else if d <= -1 {
      MulMonotone(d, -1, n);
    }
  }

  predicate Distinct<T(==)>(xs: seq<T>) {
    forall i, j :: 0 <= i < j < |xs| ==> xs[i] != xs[j]
  }

  /** Appending an element not yet present keeps a sequence free of repeats. */
  lemma {:induction false} DistinctSnoc<T>(xs: seq<T>, x: T)
    requires Distinct(xs) && x !in xs
    ensures Distinct(xs + [x])
  {
  }

  /** The elements of `xs` whose flag in `keep` is set, in their original
      order: what a loop that pushes the kept elements onto a fresh list
      builds. */
  function Filter<T>(xs: seq<T>, keep: seq<bool>): (r: seq<T>)
    requires |keep| == |xs|
    ensures |r| <= |xs|
  {
    if |xs| == 0 then []
    else Filter(xs[..|xs| - 1], keep[..|keep| - 1]) + (if keep[|keep| - 1] then [xs[|xs| - 1]] else [])
  }

  /** The positions whose flag is set, in increasing order. */
  function KeptIndices(keep: seq<bool>): (r: seq<nat>)
    ensures forall t :: 0 <= t < |r| ==> r[t] < |keep| && keep[r[t]]
    ensures forall s, t :: 0 <= s < t < |r| ==> r[s] < r[t]
    ensures forall k :: 0 <= k < |keep| && keep[k] ==> k in r
  {
    if |keep| == 0 then []
    else KeptIndices(keep[..|keep| - 1]) + (if keep[|keep| - 1] then [|keep| - 1] else [])
  }

  /** Extending the input by one element extends the selection by that
      element exactly when it is kept. */
  lemma {:induction false} FilterSnoc<T>(xs: seq<T>, keep: seq<bool>, x: T, b: bool)
    requires |keep| == |xs|
    ensures Filter(xs + [x], keep + [b]) == Filter(xs, keep) + (if b then [x] else [])
  {
    assert (xs + [x])[..|xs|] == xs;
    assert (keep + [b])[..|keep|] == keep;
  }

  /** Filter picks exactly the elements at the kept positions, in increasing
      order of position: it is an order-preserving subsequence. */
  lemma {:induction false} FilterIsSubsequence<T>(xs: seq<T>, keep: seq<bool>)
    requires |keep| == |xs|
    ensures |Filter(xs, keep)| == |KeptIndices(keep)|
    ensures forall t :: 0 <= t < |KeptIndices(keep)| ==> Filter(xs, keep)[t] == xs[KeptIndices(keep)[t]]
  {
    if |xs| > 0 {
      FilterIsSubsequence(xs[..|xs| - 1], keep[..|keep| - 1]);
    }
  }

  /** Keeping every element returns the whole sequence. */
  lemma {:induction false} FilterKeepsAll<T>(xs: seq<T>, keep: seq<bool>)
    requires |keep| == |xs| && forall k :: 0 <= k < |keep| ==> keep[k]
    ensures Filter(xs, keep) == xs
  {
    if |xs| > 0 {
      var n := |xs| - 1;
      FilterKeepsAll(xs[..n], keep[..n]);
      assert xs == xs[..n] + [xs[n]];
    }
  }

  /** Everything Filter returns comes from `xs`. */
  lemma {:induction false} FilterOnlyFrom<T>(xs: seq<T>, keep: seq<bool>, x: T)
    requires |keep| == |xs|
    ensures x in Filter(xs, keep) ==> x in xs
  {
    if |xs| > 0 {
      var n := |xs| - 1;
      FilterOnlyFrom(xs[..n], keep[..n], x);
      if x in Filter(xs[..n], keep[..n]) {
        assert x in xs[..n];
      }
    }
  }

  /** Selecting from a sequence without repeats gives one without repeats. */
  lemma {:induction false} FilterDistinct<T>(xs: seq<T>, keep: seq<bool>)
    requires |keep| == |xs| && Distinct(xs)
    ensures Distinct(Filter(xs, keep))
  {
    FilterIsSubsequence(xs, keep);
    var r := Filter(xs, keep);
    var idx := KeptIndices(keep);
    forall s, t | 0 <= s < t < |r|
      ensures r[s] != r[t]
    {
      assert r[s] == xs[idx[s]] && r[t] == xs[idx[t]] && idx[s] < idx[t];
    }
  }

  /** A quarter of d is below m exactly when d is below 4·m. */
  lemma {:induction false} QuarterBelow(d: int, m: int)
    ensures (d as real) / 4.0 < m as real <==> d < 4 * m
  {
  }
}
