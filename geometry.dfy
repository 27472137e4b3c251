/** Candidate quadrilaterals on the pixel grid: the winding test that
    `clockwiseCorners` applies, the near-duplicate rule of `notTooNear`
    and the cyclic shift of corners that `rotate2` performs. */
module Geometry {
  import opened Util

  /** A pixel position as the contour tracer reports it. */
  datatype Point = Point(x: int, y: int)

  predicate IsQuad(q: seq<Point>) {
    |q| == 4
  }

  /** The z component of (b - a) x (p - a): positive, zero or negative as
      p lies on one side of the directed line a->b, on it, or on the other. */
  function Side(a: Point, b: Point, p: Point): (r: int) {
    (b.x - a.x) * (p.y - a.y) - (b.y - a.y) * (p.x - a.x)
  }

  /** Swapping the last two points negates the side. */
  lemma {:induction false} SideSwap(a: Point, b: Point, p: Point)
    ensures Side(a, p, b) == -Side(a, b, p)
  {
    var bx, bY, px, pY := b.x - a.x, b.y - a.y, p.x - a.x, p.y - a.y;
    assert Side(a, b, p) == bx * pY - bY * px;
    assert Side(a, p, b) == px * bY - pY * bx;
  }

  /** The cross product `clockwiseCorners` tests: (c1 - c0) x (c2 - c0). */
  function Winding(q: seq<Point>): (r: int)
    requires IsQuad(q)
  {
    Side(q[0], q[1], q[2])
  }

  /** The quad with corners 1 and 3 exchanged. */
  function Swapped(q: seq<Point>): (r: seq<Point>)
    requires IsQuad(q)
    ensures IsQuad(r) && r[0] == q[0] && r[1] == q[3] && r[2] == q[2] && r[3] == q[1]
  {
    [q[0], q[3], q[2], q[1]]
  }

  /** What `clockwiseCorners` makes of one candidate. */
  function Oriented(q: seq<Point>): (r: seq<Point>)
    requires IsQuad(q)
    ensures IsQuad(r) && r[0] == q[0] && r[2] == q[2]
    ensures (r[1] == q[1] && r[3] == q[3]) || (r[1] == q[3] && r[3] == q[1])
  {
    if Winding(q) < 0 then Swapped(q) else q
  }

  /** The corners are only reordered. */
  lemma {:induction false} OrientedPermutes(q: seq<Point>)
    requires IsQuad(q)
    ensures multiset(Oriented(q)) == multiset(q)
  {
    assert q == [q[0]] + [q[1]] + [q[2]] + [q[3]];
    assert Swapped(q) == [q[0]] + [q[3]] + [q[2]] + [q[1]];
  }

  /** Only a negative cross product changes a quad, and it always does
      unless corners 1 and 3 coincide. */
  lemma {:induction false} OrientedChangesIff(q: seq<Point>)
    requires IsQuad(q)
    ensures Oriented(q) != q <==> Winding(q) < 0 && q[1] != q[3]
    ensures Winding(q) < 0 ==> Oriented(q) == Swapped(q)
  {
    if Winding(q) < 0 && q[1] != q[3] {
      assert Oriented(q)[1] != q[1];
    }
  }

  /** Corners 1 and 3 lie strictly on opposite sides of the diagonal from
      corner 0 to corner 2, as in every convex quadrilateral. */
  predicate AcrossDiagonal(q: seq<Point>)
    requires IsQuad(q)
  {
    var s1 := Side(q[0], q[2], q[1]);
    var s3 := Side(q[0], q[2], q[3]);
    (s1 < 0 && s3 > 0) || (s1 > 0 && s3 < 0)
  }

  /** For such a quad the cross product is positive afterwards, the quad
      keeps this shape, and a second pass changes nothing. */
  lemma {:induction false} OrientedConvex(q: seq<Point>)
    requires IsQuad(q) && AcrossDiagonal(q)
    ensures Winding(Oriented(q)) > 0
    ensures AcrossDiagonal(Oriented(q))
    ensures Oriented(Oriented(q)) == Oriented(q)
  {
    SideSwap(q[0], q[2], q[1]);
    SideSwap(q[0], q[2], q[3]);
  }

  /** In general a second pass changes the quad exactly when both orders of
      corners 1 and 3 give a negative cross product (a quad that is not
      convex) and those corners differ. */
  lemma {:induction false} OrientedIdempotentIff(q: seq<Point>)
    requires IsQuad(q)
    ensures Oriented(Oriented(q)) != Oriented(q)
            <==> Winding(q) < 0 && Winding(Swapped(q)) < 0 && q[1] != q[3]
  {
    if Winding(q) < 0 {
      OrientedChangesIff(Swapped(q));
      assert Swapped(Swapped(q)) == q;
    } else {
      assert Oriented(q) == q;
    }
  }

  // ---------------------------------------------------------------------
  // Near-duplicate candidates

  function SqDist(a: Point, b: Point): (d: int)
    ensures d >= 0
    ensures d == 0 <==> a == b
  {
    var dx, dy := a.x - b.x, a.y - b.y;
    Squared(dx) + Squared(dy)
  }

  function Squared(v: int): (r: int)
    ensures r >= 0 && (r == 0 <==> v == 0)
  {
    if v == 0 then 0 else (assert v * v > 0 by { ProductPositive(v); } v * v)
  }

  lemma {:induction false} ProductPositive(v: int)
    requires v != 0
    ensures v * v > 0
  {
    if v < 0 {
      assert v * v == (-v) * (-v);
    }
  }

  /** The sum of squared distances of the first k corresponding corners. */
  function CornerDistance(p: seq<Point>, q: seq<Point>, k: nat): (d: int)
    requires k <= |p| && k <= |q|
    ensures d >= 0
    ensures d == 0 <==> p[..k] == q[..k]
  {
    if k == 0 then 0
    else
      var d0 := CornerDistance(p, q, k - 1);
      assert p[..k] == p[..k - 1] + [p[k - 1]] && q[..k] == q[..k - 1] + [q[k - 1]];
      assert p[..k] == q[..k] ==> p[..k - 1] == q[..k - 1] && p[k - 1] == q[k - 1] by {
        if p[..k] == q[..k] {
          assert p[..k - 1] == p[..k][..k - 1] && q[..k - 1] == q[..k][..k - 1];
          assert p[k - 1] == p[..k][k - 1];
        }
      }
      d0 + SqDist(p[k - 1], q[k - 1])
  }

  /** `notTooNear`'s test: the mean squared corner distance is below
      minDist², which for integers is the sum being below 4·minDist². */
  predicate TooClose(p: seq<Point>, q: seq<Point>, minDist: int)
    requires IsQuad(p) && IsQuad(q)
  {
    CornerDistance(p, q, 4) < 4 * minDist * minDist
  }

  predicate AllQuads(ps: seq<seq<Point>>) {
    forall k :: 0 <= k < |ps| ==> IsQuad(ps[k])
  }

  /** Of a close pair a < b, the one that gets flagged: a when its perimeter
      is strictly smaller, else b. */
  function Loser(ps: seq<seq<Point>>, perimeter: seq<Point> -> real, a: nat, b: nat): (k: nat)
    requires a < b < |ps|
    ensures k == a || k == b
  {
    if perimeter(ps[a]) < perimeter(ps[b]) then a else b
  }

  /** Pair (a, b) is visited before pair (i, j) by the double loop. */
  predicate Before(a: int, b: int, i: int, j: int) {
    a < i || (a == i && b < j)
  }

  /** Candidate k has been flagged by one of the pairs the double loop
      visits before pair (i, j). */
  predicate FlaggedBefore(ps: seq<seq<Point>>, perimeter: seq<Point> -> real, minDist: int, k: nat, i: int, j: int)
    requires AllQuads(ps)
  {
    exists a, b :: 0 <= a < b < |ps| && Before(a, b, i, j) && TooClose(ps[a], ps[b], minDist)
                   && Loser(ps, perimeter, a, b) == k
  }

  /** Candidate k is flagged once every pair has been visited. */
  predicate Excluded(ps: seq<seq<Point>>, perimeter: seq<Point> -> real, minDist: int, k: nat)
    requires AllQuads(ps)
  {
    FlaggedBefore(ps, perimeter, minDist, k, |ps|, 0)
  }

  /** Row i of the double loop starts at j = i + 1: the pairs (i, b) with
      b <= i are not pairs at all. */
  lemma {:induction false} FlaggedRowStart(ps: seq<seq<Point>>, perimeter: seq<Point> -> real, minDist: int, k: nat, i: nat)
    requires AllQuads(ps)
    ensures FlaggedBefore(ps, perimeter, minDist, k, i, i + 1) <==> FlaggedBefore(ps, perimeter, minDist, k, i, 0)
  {
    if FlaggedBefore(ps, perimeter, minDist, k, i, i + 1) {
      var a, b :| 0 <= a < b < |ps| && Before(a, b, i, i + 1) && TooClose(ps[a], ps[b], minDist)
                  && Loser(ps, perimeter, a, b) == k;
      assert Before(a, b, i, 0);
    }
    if FlaggedBefore(ps, perimeter, minDist, k, i, 0) {
      var a, b :| 0 <= a < b < |ps| && Before(a, b, i, 0) && TooClose(ps[a], ps[b], minDist)
                  && Loser(ps, perimeter, a, b) == k;
      assert Before(a, b, i, i + 1);
    }
  }

  /** Visiting pair (i, j) adds exactly the flag that pair sets. */
  lemma {:induction false} FlaggedStep(ps: seq<seq<Point>>, perimeter: seq<Point> -> real, minDist: int, k: nat, i: nat, j: nat)
    requires AllQuads(ps) && i < j < |ps|
    ensures FlaggedBefore(ps, perimeter, minDist, k, i, j + 1)
            <==> FlaggedBefore(ps, perimeter, minDist, k, i, j)
                 || (TooClose(ps[i], ps[j], minDist) && Loser(ps, perimeter, i, j) == k)
  {
    if FlaggedBefore(ps, perimeter, minDist, k, i, j + 1) {
      var a, b :| 0 <= a < b < |ps| && Before(a, b, i, j + 1) && TooClose(ps[a], ps[b], minDist)
                  && Loser(ps, perimeter, a, b) == k;
      if !(a == i && b == j) {
        assert Before(a, b, i, j);
      }
    }
    if FlaggedBefore(ps, perimeter, minDist, k, i, j) {
      var a, b :| 0 <= a < b < |ps| && Before(a, b, i, j) && TooClose(ps[a], ps[b], minDist)
                  && Loser(ps, perimeter, a, b) == k;
      assert Before(a, b, i, j + 1);
    }
    if TooClose(ps[i], ps[j], minDist) && Loser(ps, perimeter, i, j) == k {
      assert Before(i, j, i, j + 1);
    }
  }

  /** After the last pair of row i, the pairs of row i + 1 come next. */
  lemma {:induction false} FlaggedRowEnd(ps: seq<seq<Point>>, perimeter: seq<Point> -> real, minDist: int, k: nat, i: nat)
    requires AllQuads(ps)
    ensures FlaggedBefore(ps, perimeter, minDist, k, i, |ps|) <==> FlaggedBefore(ps, perimeter, minDist, k, i + 1, 0)
  {
    if FlaggedBefore(ps, perimeter, minDist, k, i, |ps|) {
      var a, b :| 0 <= a < b < |ps| && Before(a, b, i, |ps|) && TooClose(ps[a], ps[b], minDist)
                  && Loser(ps, perimeter, a, b) == k;
      assert Before(a, b, i + 1, 0);
    }
    if FlaggedBefore(ps, perimeter, minDist, k, i + 1, 0) {
      var a, b :| 0 <= a < b < |ps| && Before(a, b, i + 1, 0) && TooClose(ps[a], ps[b], minDist)
                  && Loser(ps, perimeter, a, b) == k;
      assert Before(a, b, i, |ps|);
    }
  }

  /** Before the first pair nothing is flagged. */
  lemma {:induction false} FlaggedNone(ps: seq<seq<Point>>, perimeter: seq<Point> -> real, minDist: int, k: nat)
    requires AllQuads(ps)
    ensures !FlaggedBefore(ps, perimeter, minDist, k, 0, 0)
  {
  }

  /** The candidates `notTooNear` returns when none was flagged beforehand. */
  function Survivors(ps: seq<seq<Point>>, perimeter: seq<Point> -> real, minDist: int): (r: seq<seq<Point>>)
    requires AllQuads(ps)
  {
    Filter(ps, seq(|ps|, k requires 0 <= k < |ps| => !Excluded(ps, perimeter, minDist, k)))
  }

  /** The exclusion rule in plain words: k is dropped exactly when a later
      close candidate has a strictly larger perimeter, or an earlier close
      candidate has a perimeter at least as large. */
  lemma {:induction false} ExcludedIff(ps: seq<seq<Point>>, perimeter: seq<Point> -> real, minDist: int, k: nat)
    requires AllQuads(ps) && k < |ps|
    ensures Excluded(ps, perimeter, minDist, k) <==>
            (exists b :: k < b < |ps| && TooClose(ps[k], ps[b], minDist) && perimeter(ps[k]) < perimeter(ps[b]))
            || (exists a :: 0 <= a < k && TooClose(ps[a], ps[k], minDist) && !(perimeter(ps[a]) < perimeter(ps[k])))
  {
    if Excluded(ps, perimeter, minDist, k) {
      var a, b :| 0 <= a < b < |ps| && Before(a, b, |ps|, 0) && TooClose(ps[a], ps[b], minDist)
                  && Loser(ps, perimeter, a, b) == k;
      if perimeter(ps[a]) < perimeter(ps[b]) {
        assert a == k;
      } else {
        assert b == k;
      }
    }
    if exists b :: k < b < |ps| && TooClose(ps[k], ps[b], minDist) && perimeter(ps[k]) < perimeter(ps[b]) {
      var b :| k < b < |ps| && TooClose(ps[k], ps[b], minDist) && perimeter(ps[k]) < perimeter(ps[b]);
      assert Loser(ps, perimeter, k, b) == k;
    }
    if exists a :: 0 <= a < k && TooClose(ps[a], ps[k], minDist) && !(perimeter(ps[a]) < perimeter(ps[k])) {
      var a :| 0 <= a < k && TooClose(ps[a], ps[k], minDist) && !(perimeter(ps[a]) < perimeter(ps[k]));
      assert Loser(ps, perimeter, a, k) == k;
    }
  }

  /** Of a close pair, the strictly smaller perimeter is dropped; on a tie
      or a larger first perimeter, the later one is. */
  lemma {:induction false} CloseLoserExcluded(ps: seq<seq<Point>>, perimeter: seq<Point> -> real, minDist: int, i: nat, j: nat)
    requires AllQuads(ps) && i < j < |ps| && TooClose(ps[i], ps[j], minDist)
    ensures perimeter(ps[i]) < perimeter(ps[j]) ==> Excluded(ps, perimeter, minDist, i)
    ensures !(perimeter(ps[i]) < perimeter(ps[j])) ==> Excluded(ps, perimeter, minDist, j)
  {
    assert Before(i, j, |ps|, 0);
    assert Loser(ps, perimeter, i, j) == if perimeter(ps[i]) < perimeter(ps[j]) then i else j;
  }

  /** A candidate close to no other one is never dropped. */
  lemma {:induction false} LoneKept(ps: seq<seq<Point>>, perimeter: seq<Point> -> real, minDist: int, k: nat)
    requires AllQuads(ps) && k < |ps|
    requires forall m :: 0 <= m < |ps| && m != k ==> !TooClose(ps[k], ps[m], minDist) && !TooClose(ps[m], ps[k], minDist)
    ensures !Excluded(ps, perimeter, minDist, k)
  {
    ExcludedIff(ps, perimeter, minDist, k);
  }

  /** For a non-zero minDist (`detect` passes 10), of two identical
      candidates the later one is always dropped (the squared distance is
      0, the perimeters tie). With minDist 0 nothing is ever close. */
  lemma {:induction false} IdenticalLaterExcluded(ps: seq<seq<Point>>, perimeter: seq<Point> -> real, minDist: int, i: nat, j: nat)
    requires AllQuads(ps) && i < j < |ps| && ps[i] == ps[j] && minDist != 0
    ensures Excluded(ps, perimeter, minDist, j)
  {
    assert ps[i][..4] == ps[j][..4];
    ProductPositive(minDist);
    CloseLoserExcluded(ps, perimeter, minDist, i, j);
  }

  /** Of two identical candidates alone, the first is kept: the only pair
      ties, and a tie flags the later one. */
  lemma {:induction false} IdenticalPairFirstKept(q: seq<Point>, perimeter: seq<Point> -> real, minDist: int)
    requires IsQuad(q)
    ensures !Excluded([q, q], perimeter, minDist, 0)
  {
    var ps := [q, q];
    forall a, b | 0 <= a < b < |ps|
      ensures Loser(ps, perimeter, a, b) != 0
    {
      assert b == 1;
    }
  }

  /** Two identical candidates alone, for a non-zero minDist (`detect`
      passes 10): only the first survives. */
  lemma {:induction false} IdenticalPairSurvivor(q: seq<Point>, perimeter: seq<Point> -> real, minDist: int)
    requires IsQuad(q) && minDist != 0
    ensures Survivors([q, q], perimeter, minDist) == [q]
  {
    var ps := [q, q];
    IdenticalLaterExcluded(ps, perimeter, minDist, 0, 1);
    IdenticalPairFirstKept(q, perimeter, minDist);
    var keep := seq(|ps|, k requires 0 <= k < |ps| => !Excluded(ps, perimeter, minDist, k));
    assert keep == [true] + [false];
    assert ps == [q] + [q];
    FilterSnoc([q], [true], q, false);
    assert [q] == [] + [q] && [true] == [] + [true];
    FilterSnoc([], [], q, true);
  }

  /** With minDist 0 the test `dist / 4 < 0` never holds: nothing is
      dropped, not even an identical copy. */
  lemma {:induction false} ZeroDistanceKeepsAll(ps: seq<seq<Point>>, perimeter: seq<Point> -> real)
    requires AllQuads(ps)
    ensures Survivors(ps, perimeter, 0) == ps
  {
    var keep := seq(|ps|, k requires 0 <= k < |ps| => !Excluded(ps, perimeter, 0, k));
    forall a, b | 0 <= a < b < |ps|
      ensures !TooClose(ps[a], ps[b], 0)
    {
      assert CornerDistance(ps[a], ps[b], 4) >= 0;
    }
    FilterKeepsAll(ps, keep);
  }


  // ---------------------------------------------------------------------
  // Cyclic shift of corners

  /** `rotate2`: element i of the result is element (r + i) mod n of `src`. */
  function CyclicShift<T>(src: seq<T>, r: nat): (dst: seq<T>)
    ensures |dst| == |src|
  {
    seq(|src|, i requires 0 <= i < |src| => src[(r + i) % |src|])
  }

  /** Shifting by zero returns the input. */
  lemma {:induction false} CyclicShiftZero<T>(src: seq<T>)
    ensures CyclicShift(src, 0) == src
  {
    forall i | 0 <= i < |src|
      ensures CyclicShift(src, 0)[i] == src[i]
    {
      ModUnique(0 + i, |src|, 0, i);
    }
  }

  /** The shift moves the first r mod n elements to the end. */
  lemma {:induction false} CyclicShiftSplit<T>(src: seq<T>, r: nat)
    requires |src| > 0
    ensures var m := r % |src|; CyclicShift(src, r) == src[m..] + src[..m]
  {
    var n := |src|;
    var m := r % n;
    var split := src[m..] + src[..m];
    forall i | 0 <= i < n
      ensures CyclicShift(src, r)[i] == split[i]
    {
      ShiftedIndex(r, i, n);
    }
  }

  lemma {:induction false} ShiftedIndex(r: nat, i: nat, n: nat)
    requires i < n
    ensures var m := r % n;
            (r + i) % n == if i < n - m then m + i else m + i - n
  {
    var m := r % n;
    var q := r / n;
    var t := m + i;
    if t < n {
      ModUnique(r + i, n, q, t);
    } else {
      assert (q + 1) * n == q * n + n;
      ModUnique(r + i, n, q + 1, t - n);
    }
  }

  /** So the shift is a permutation. */
  lemma {:induction false} CyclicShiftPermutes<T>(src: seq<T>, r: nat)
    ensures multiset(CyclicShift(src, r)) == multiset(src)
  {
    if |src| > 0 {
      var m := r % |src|;
      CyclicShiftSplit(src, r);
      assert src == src[..m] + src[m..];
    }
  }
}
