/** The detector's candidate pipeline over mutable polygons: selecting
    quads among the approximated contours, fixing their winding in place,
    flagging and dropping near-duplicates, and reading a marker from a
    candidate's cell counts. The computer-vision routines the detector
    calls are passed in as functions. */
module Detection {
  import opened Util
  import opened Grid
  import opened Codec
  import opened Geometry
  import opened Reader

  /** A polygon from the contour approximation: its corner points, which
      `clockwiseCorners` reorders in place, and the `tooNear` flag that
      `notTooNear` sets on it (absent, so false, on a fresh polygon). */
  class Polygon {
    var points: seq<Point>
    var tooNear: bool

    constructor (ps: seq<Point>)
      ensures points == ps && !tooNear
    {
      points := ps;
      tooNear := false;
    }
  }

  /** The corner lists of a sequence of polygons. */
  function PointsOf(ps: seq<Polygon>): (r: seq<seq<Point>>)
    reads ps
    ensures |r| == |ps| && forall k :: 0 <= k < |ps| ==> r[k] == ps[k].points
  {
    seq(|ps|, k requires 0 <= k < |ps| reads ps => ps[k].points)
  }

  /** Which polygons carry no `tooNear` flag. */
  function Unflagged(ps: seq<Polygon>): (r: seq<bool>)
    reads ps
    ensures |r| == |ps| && forall k :: 0 <= k < |ps| ==> r[k] == !ps[k].tooNear
  {
    seq(|ps|, k requires 0 <= k < |ps| reads ps => !ps[k].tooNear)
  }

  /** Appending an unflagged polygon to unflagged ones leaves none flagged. */
  lemma {:induction false} UnflaggedSnoc(ps: seq<Polygon>, p: Polygon)
    requires (forall q :: q in ps ==> !q.tooNear) && !p.tooNear
    ensures forall q :: q in ps + [p] ==> !q.tooNear
  {
    forall q | q in ps + [p]
      ensures !q.tooNear
    {
      assert q in ps || q == p;
    }
  }

  lemma {:induction false} PointsOfSnoc(ps: seq<Polygon>, p: Polygon)
    ensures PointsOf(ps + [p]) == PointsOf(ps) + [p.points]
  {
  }

  // ---------------------------------------------------------------------
  // What findCandidates selects

  /** Which contours have at least minSize points. */
  function LongFlags(contours: seq<seq<Point>>, minSize: real): (r: seq<bool>)
    ensures |r| == |contours| && forall k :: 0 <= k < |contours| ==> (r[k] <==> |contours[k]| as real >= minSize)
  {
    seq(|contours|, k requires 0 <= k < |contours| => |contours[k]| as real >= minSize)
  }

  /** The polygon `findCandidates` approximates a contour by: the
      tolerance is epsilon times the contour's length. */
  function Approximated(approxPolyDP: (seq<Point>, real) -> seq<Point>, contour: seq<Point>, epsilon: real): (r: seq<Point>) {
    approxPolyDP(contour, |contour| as real * epsilon)
  }

  /** The polygon approximation of each contour, with a tolerance of epsilon
      times its length. */
  function ApproxOf(contours: seq<seq<Point>>, epsilon: real, approxPolyDP: (seq<Point>, real) -> seq<Point>): (r: seq<seq<Point>>)
    ensures |r| == |contours|
  {
    if |contours| == 0 then []
    else
      var last := contours[|contours| - 1];
      ApproxOf(contours[..|contours| - 1], epsilon, approxPolyDP) + [Approximated(approxPolyDP, last, epsilon)]
  }

  /** The approximations of the long contours, in order: what
      `findCandidates` records in `polys`. */
  function Approximations(contours: seq<seq<Point>>, minSize: real, epsilon: real,
                          approxPolyDP: (seq<Point>, real) -> seq<Point>): (r: seq<seq<Point>>)
  {
    ApproxOf(Filter(contours, LongFlags(contours, minSize)), epsilon, approxPolyDP)
  }

  /** A polygon worth decoding: four corners, convex, no edge shorter than minLength. */
  predicate Qualifies(p: seq<Point>, minLength: real,
                      isContourConvex: seq<Point> -> bool, minEdgeLength: seq<Point> -> real) {
    |p| == 4 && isContourConvex(p) && minEdgeLength(p) >= minLength
  }

  function QualifyFlags(ps: seq<seq<Point>>, minLength: real,
                        isContourConvex: seq<Point> -> bool, minEdgeLength: seq<Point> -> real): (r: seq<bool>)
    ensures |r| == |ps| && forall k :: 0 <= k < |ps| ==> (r[k] <==> Qualifies(ps[k], minLength, isContourConvex, minEdgeLength))
  {
    seq(|ps|, k requires 0 <= k < |ps| => Qualifies(ps[k], minLength, isContourConvex, minEdgeLength))
  }

  /** The fewest points `detect` asks of a contour: a fifth of the image width. */
  function MinContourSize(width: nat): (r: real)
  {
    width as real * 0.20
  }

  /** The approximations that qualify, in contour order. */
  function CandidatePolys(contours: seq<seq<Point>>, minSize: real, epsilon: real, minLength: real,
                          approxPolyDP: (seq<Point>, real) -> seq<Point>,
                          isContourConvex: seq<Point> -> bool, minEdgeLength: seq<Point> -> real): (r: seq<seq<Point>>)
  {
    var approx := Approximations(contours, minSize, epsilon, approxPolyDP);
    Filter(approx, QualifyFlags(approx, minLength, isContourConvex, minEdgeLength))
  }

  lemma {:induction false} ApproxOfSnoc(contours: seq<seq<Point>>, c: seq<Point>, epsilon: real,
                                        approxPolyDP: (seq<Point>, real) -> seq<Point>)
    ensures ApproxOf(contours + [c], epsilon, approxPolyDP)
            == ApproxOf(contours, epsilon, approxPolyDP) + [Approximated(approxPolyDP, c, epsilon)]
  {
    assert (contours + [c])[..|contours|] == contours;
  }

  lemma {:induction false} QualifyFlagsSnoc(ps: seq<seq<Point>>, p: seq<Point>, minLength: real,
                                            isContourConvex: seq<Point> -> bool, minEdgeLength: seq<Point> -> real)
    ensures QualifyFlags(ps + [p], minLength, isContourConvex, minEdgeLength)
            == QualifyFlags(ps, minLength, isContourConvex, minEdgeLength) + [Qualifies(p, minLength, isContourConvex, minEdgeLength)]
  {
  }

  /** One more contour adds its approximation when it is long enough. */
  lemma {:induction false} ApproximationsStep(contours: seq<seq<Point>>, minSize: real, epsilon: real,
                                              approxPolyDP: (seq<Point>, real) -> seq<Point>, i: nat)
    requires i < |contours|
    ensures var c := contours[i];
            Approximations(contours[..i + 1], minSize, epsilon, approxPolyDP)
            == Approximations(contours[..i], minSize, epsilon, approxPolyDP)
               + (if |c| as real >= minSize then [Approximated(approxPolyDP, c, epsilon)] else [])
  {
    var c := contours[i];
    var pre, post := contours[..i], contours[..i + 1];
    assert post == pre + [c];
    assert LongFlags(post, minSize) == LongFlags(pre, minSize) + [|c| as real >= minSize];
    FilterSnoc(pre, LongFlags(pre, minSize), c, |c| as real >= minSize);
    var long := Filter(pre, LongFlags(pre, minSize));
    if |c| as real >= minSize {
      ApproxOfSnoc(long, c, epsilon, approxPolyDP);
    } else {
      assert long + [] == long;
    }
  }

  /** What one contour adds to `polys`: its approximation when it is long
      enough. */
  function Recorded(c: seq<Point>, minSize: real, epsilon: real,
                    approxPolyDP: (seq<Point>, real) -> seq<Point>): (r: seq<seq<Point>>)
  {
    if |c| as real >= minSize then [Approximated(approxPolyDP, c, epsilon)] else []
  }

  /** What `findCandidates`'s loop has recorded in `polys` after the first
      n contours. */
  function RecordedUpTo(contours: seq<seq<Point>>, n: nat, minSize: real, epsilon: real,
                        approxPolyDP: (seq<Point>, real) -> seq<Point>): (r: seq<seq<Point>>)
    requires n <= |contours|
  {
    if n == 0 then []
    else RecordedUpTo(contours, n - 1, minSize, epsilon, approxPolyDP) + Recorded(contours[n - 1], minSize, epsilon, approxPolyDP)
  }

  /** The loop records exactly the approximations of the long contours. */
  lemma {:induction false} RecordedIsApproximations(contours: seq<seq<Point>>, n: nat, minSize: real, epsilon: real,
                                                    approxPolyDP: (seq<Point>, real) -> seq<Point>)
    requires n <= |contours|
    ensures RecordedUpTo(contours, n, minSize, epsilon, approxPolyDP)
            == Approximations(contours[..n], minSize, epsilon, approxPolyDP)
  {
    if n > 0 {
      RecordedIsApproximations(contours, n - 1, minSize, epsilon, approxPolyDP);
      ApproximationsStep(contours, minSize, epsilon, approxPolyDP, n - 1);
    } else {
      assert contours[..0] == [];
    }
  }

  /** After the last contour the loop has recorded the approximations of
      all the long contours. */
  lemma {:induction false} LoopRecordsApproximations(contours: seq<seq<Point>>, minSize: real, epsilon: real,
                                                     approxPolyDP: (seq<Point>, real) -> seq<Point>)
    ensures RecordedUpTo(contours, |contours|, minSize, epsilon, approxPolyDP)
            == Approximations(contours, minSize, epsilon, approxPolyDP)
  {
    RecordedIsApproximations(contours, |contours|, minSize, epsilon, approxPolyDP);
    assert contours[..|contours|] == contours;
  }

  /** Selecting polygons and then taking their corners is taking all the
      corners and then selecting. */
  lemma {:induction false} PointsOfFilter(ps: seq<Polygon>, keep: seq<bool>)
    requires |keep| == |ps|
    ensures PointsOf(Filter(ps, keep)) == Filter(PointsOf(ps), keep)
  {
    if |ps| > 0 {
      var n := |ps| - 1;
      PointsOfFilter(ps[..n], keep[..n]);
      assert PointsOf(ps)[..n] == PointsOf(ps[..n]);
      if keep[n] {
        PointsOfSnoc(Filter(ps[..n], keep[..n]), ps[n]);
      } else {
        assert Filter(ps[..n], keep[..n]) + [] == Filter(ps[..n], keep[..n]);
        assert Filter(PointsOf(ps[..n]), keep[..n]) + [] == Filter(PointsOf(ps[..n]), keep[..n]);
      }
    }
  }

  /** Every candidate is a qualifying approximation, candidates keep the
      order of their contours, and no qualifying approximation is missed. */
  lemma {:induction false} CandidatesQualify(contours: seq<seq<Point>>, minSize: real, epsilon: real, minLength: real,
                                             approxPolyDP: (seq<Point>, real) -> seq<Point>,
                                             isContourConvex: seq<Point> -> bool, minEdgeLength: seq<Point> -> real)
    ensures var approx := Approximations(contours, minSize, epsilon, approxPolyDP);
            var cands := CandidatePolys(contours, minSize, epsilon, minLength, approxPolyDP, isContourConvex, minEdgeLength);
            var keep := QualifyFlags(approx, minLength, isContourConvex, minEdgeLength);
            && (forall t :: 0 <= t < |cands| ==> Qualifies(cands[t], minLength, isContourConvex, minEdgeLength))
            && |cands| == |KeptIndices(keep)|
            && (forall t :: 0 <= t < |cands| ==> cands[t] == approx[KeptIndices(keep)[t]])
            && (forall k :: 0 <= k < |approx| && keep[k] ==> k in KeptIndices(keep))
  {
    var approx := Approximations(contours, minSize, epsilon, approxPolyDP);
    var keep := QualifyFlags(approx, minLength, isContourConvex, minEdgeLength);
    FilterIsSubsequence(approx, keep);
  }

  /** What `findCandidates` hands on: candidates without repeats, each one
      of the recorded polygons and still unflagged, whose corners are
      exactly the qualifying approximations, all of them quads. */
  lemma {:induction false} FoundCandidates(polys: seq<Polygon>, candidates: seq<Polygon>,
                                           contours: seq<seq<Point>>, minSize: real, epsilon: real, minLength: real,
                                           approxPolyDP: (seq<Point>, real) -> seq<Point>,
                                           isContourConvex: seq<Point> -> bool, minEdgeLength: seq<Point> -> real)
    requires PointsOf(polys) == Approximations(contours, minSize, epsilon, approxPolyDP)
    requires candidates == Filter(polys, QualifyFlags(PointsOf(polys), minLength, isContourConvex, minEdgeLength))
    requires Distinct(polys) && forall p :: p in polys ==> !p.tooNear
    ensures PointsOf(candidates) == CandidatePolys(contours, minSize, epsilon, minLength, approxPolyDP, isContourConvex, minEdgeLength)
    ensures AllQuads(PointsOf(candidates)) && Distinct(candidates)
    ensures forall c :: c in candidates ==> c in polys && !c.tooNear
  {
    var keep := QualifyFlags(PointsOf(polys), minLength, isContourConvex, minEdgeLength);
    PointsOfFilter(polys, keep);
    CandidatesQualify(contours, minSize, epsilon, minLength, approxPolyDP, isContourConvex, minEdgeLength);
    FilterDistinct(polys, keep);
    forall c | c in candidates
      ensures c in polys
    {
      FilterOnlyFrom(polys, keep, c);
    }
  }

  /** Flags that are set exactly at the excluded positions select the
      survivors. */
  lemma {:induction false} SurvivorsOfFlags(ps: seq<seq<Point>>, keep: seq<bool>, perimeter: seq<Point> -> real, minDist: int)
    requires AllQuads(ps) && |keep| == |ps|
    requires forall k :: 0 <= k < |ps| ==> keep[k] == !Excluded(ps, perimeter, minDist, k)
    ensures Filter(ps, keep) == Survivors(ps, perimeter, minDist)
  {
    assert keep == seq(|ps|, k requires 0 <= k < |ps| => !Excluded(ps, perimeter, minDist, k));
  }

  /** One turn of `findCandidates`'s loop: a contour that is long enough
      is approximated into a new, unflagged polygon, which is recorded and,
      when it qualifies, also taken as a candidate. `pre` is what has been
      recorded so far. */
  method TakeContour(ps: seq<Polygon>, cands: seq<Polygon>, ghost pre: seq<seq<Point>>, contour: seq<Point>,
                     minSize: real, epsilon: real, minLength: real,
                     approxPolyDP: (seq<Point>, real) -> seq<Point>,
                     isContourConvex: seq<Point> -> bool, minEdgeLength: seq<Point> -> real)
    returns (ps': seq<Polygon>, cands': seq<Polygon>)
    requires PointsOf(ps) == pre && Distinct(ps) && forall p :: p in ps ==> !p.tooNear
    requires cands == Filter(ps, QualifyFlags(pre, minLength, isContourConvex, minEdgeLength))
    ensures var post := pre + Recorded(contour, minSize, epsilon, approxPolyDP);
            && PointsOf(ps') == post && Distinct(ps') && (forall p :: p in ps' ==> !p.tooNear)
            && cands' == Filter(ps', QualifyFlags(post, minLength, isContourConvex, minEdgeLength))
    ensures forall p :: p in ps' ==> p in ps || fresh(p)
  {
    ps', cands' := ps, cands;
    if |contour| as real >= minSize {
      var poly := new Polygon(Approximated(approxPolyDP, contour, epsilon));
      ghost var q := Qualifies(poly.points, minLength, isContourConvex, minEdgeLength);
      QualifyFlagsSnoc(pre, poly.points, minLength, isContourConvex, minEdgeLength);
      FilterSnoc(ps, QualifyFlags(pre, minLength, isContourConvex, minEdgeLength), poly, q);
      DistinctSnoc(ps, poly);
      PointsOfSnoc(ps, poly);
      UnflaggedSnoc(ps, poly);
      ps' := ps + [poly];
      assert PointsOf(ps') == pre + Recorded(contour, minSize, epsilon, approxPolyDP);
      if 4 == |poly.points| && isContourConvex(poly.points) && minEdgeLength(poly.points) >= minLength {
        cands' := cands + [poly];
      } else {
        assert cands + [] == cands;
      }
    } else {
      assert pre + [] == pre;
    }
  }

  /** What `clockwiseCorners` makes of each candidate's corners. */
  function AllOriented(qs: seq<seq<Point>>): (r: seq<seq<Point>>)
    requires AllQuads(qs)
    ensures |r| == |qs| && forall k :: 0 <= k < |qs| ==> r[k] == Oriented(qs[k])
  {
    seq(|qs|, k requires 0 <= k < |qs| => Oriented(qs[k]))
  }

  /** `AR.Detector`: of its state only `polys`, the polygons the last
      `findCandidates` approximated, belongs to the model. */
  class Detector {
    var polys: seq<Polygon>
    var candidates: seq<Polygon>

    constructor ()
      ensures polys == [] && candidates == []
    {
      polys := [];
      candidates := [];
    }

    /** `findCandidates`: approximate every long contour, record each
        approximation in `polys` and return those that qualify. A returned
        candidate is the very polygon recorded in `polys`. */
    method FindCandidates(contours: seq<seq<Point>>, minSize: real, epsilon: real, minLength: real,
                          approxPolyDP: (seq<Point>, real) -> seq<Point>,
                          isContourConvex: seq<Point> -> bool, minEdgeLength: seq<Point> -> real)
      returns (found: seq<Polygon>)
      modifies this
      ensures PointsOf(polys) == Approximations(contours, minSize, epsilon, approxPolyDP)
      ensures found == Filter(polys, QualifyFlags(PointsOf(polys), minLength, isContourConvex, minEdgeLength))
      ensures Distinct(polys) && forall p :: p in polys ==> !p.tooNear
      ensures forall p :: p in polys ==> fresh(p)
      ensures candidates == old(candidates)
    {
      var ps, cands := ScanContours(contours, minSize, epsilon, minLength, approxPolyDP, isContourConvex, minEdgeLength);
      polys := ps;
      found := cands;
    }

    /** The loop of `findCandidates`, which allocates polygons and changes
        no existing object. */
    method ScanContours(contours: seq<seq<Point>>, minSize: real, epsilon: real, minLength: real,
                        approxPolyDP: (seq<Point>, real) -> seq<Point>,
                        isContourConvex: seq<Point> -> bool, minEdgeLength: seq<Point> -> real)
      returns (ps: seq<Polygon>, cands: seq<Polygon>)
      ensures PointsOf(ps) == Approximations(contours, minSize, epsilon, approxPolyDP)
      ensures cands == Filter(ps, QualifyFlags(PointsOf(ps), minLength, isContourConvex, minEdgeLength))
      ensures Distinct(ps) && forall p :: p in ps ==> !p.tooNear
      ensures forall p :: p in ps ==> fresh(p)
    {
      ps, cands := [], [];
      ghost var pre: seq<seq<Point>> := [];
      var i := 0;
      while i < |contours|
        invariant 0 <= i <= |contours|
        invariant pre == RecordedUpTo(contours, i, minSize, epsilon, approxPolyDP)
        invariant PointsOf(ps) == pre
        invariant Distinct(ps) && forall p :: p in ps ==> !p.tooNear
        invariant cands == Filter(ps, QualifyFlags(pre, minLength, isContourConvex, minEdgeLength))
        invariant forall p :: p in ps ==> fresh(p)
      {
        ps, cands := TakeContour(ps, cands, pre, contours[i],
                                 minSize, epsilon, minLength, approxPolyDP, isContourConvex, minEdgeLength);
        pre := pre + Recorded(contours[i], minSize, epsilon, approxPolyDP);
        i := i + 1;
      }
      LoopRecordsApproximations(contours, minSize, epsilon, approxPolyDP);
    }

    /** The candidate stages of `detect`, from the contours on: find the
        candidates (at least a fifth of the image width in points,
        tolerance 0.05, edges of at least 10), fix their winding and drop
        near-duplicates closer than 10, keeping the result in `candidates`. */
    method DetectCandidates(contours: seq<seq<Point>>, width: nat,
                            approxPolyDP: (seq<Point>, real) -> seq<Point>,
                            isContourConvex: seq<Point> -> bool, minEdgeLength: seq<Point> -> real,
                            perimeter: seq<Point> -> real)
      modifies this
      ensures var found := CandidatePolys(contours, MinContourSize(width), 0.05, 10.0, approxPolyDP, isContourConvex, minEdgeLength);
              AllQuads(found) && PointsOf(candidates) == Survivors(AllOriented(found), perimeter, 10)
    {
      var found := FoundQuads(contours, MinContourSize(width), 0.05, 10.0, approxPolyDP, isContourConvex, minEdgeLength);
      candidates := OrientAndThin(found, 10, perimeter);
    }

    /** `findCandidates` as `detect` sees it: new, distinct, unflagged
        polygons whose corners are the qualifying approximations. */
    method FoundQuads(contours: seq<seq<Point>>, minSize: real, epsilon: real, minLength: real,
                      approxPolyDP: (seq<Point>, real) -> seq<Point>,
                      isContourConvex: seq<Point> -> bool, minEdgeLength: seq<Point> -> real)
      returns (found: seq<Polygon>)
      modifies this
      ensures PointsOf(found) == CandidatePolys(contours, minSize, epsilon, minLength, approxPolyDP, isContourConvex, minEdgeLength)
      ensures AllQuads(PointsOf(found)) && Distinct(found)
      ensures fresh(set c | c in found) && forall c :: c in found ==> !c.tooNear
      ensures PointsOf(polys) == Approximations(contours, minSize, epsilon, approxPolyDP)
      ensures (forall c :: c in found ==> c in polys) && candidates == old(candidates)
    {
      found := FindCandidates(contours, minSize, epsilon, minLength, approxPolyDP, isContourConvex, minEdgeLength);
      FoundCandidates(polys, found, contours, minSize, epsilon, minLength, approxPolyDP, isContourConvex, minEdgeLength);
    }

    /** `clockwiseCorners` followed by `notTooNear` on candidates nobody
        has flagged yet. */
    method OrientAndThin(quads: seq<Polygon>, minDist: int, perimeter: seq<Point> -> real) returns (kept: seq<Polygon>)
      requires Distinct(quads) && AllQuads(PointsOf(quads))
      requires forall c :: c in quads ==> !c.tooNear
      modifies quads
      ensures PointsOf(quads) == AllOriented(old(PointsOf(quads)))
      ensures forall k :: 0 <= k < |quads| ==>
                quads[k].tooNear == Excluded(AllOriented(old(PointsOf(quads))), perimeter, minDist, k)
      ensures kept == Filter(quads, Unflagged(quads))
      ensures PointsOf(kept) == Survivors(AllOriented(old(PointsOf(quads))), perimeter, minDist)
    {
      ghost var pts := PointsOf(quads);
      var oriented := ClockwiseCorners(quads);
      ghost var turned := PointsOf(oriented);
      assert turned == AllOriented(pts);
      assert forall k :: 0 <= k < |oriented| ==> !oriented[k].tooNear;
      kept := NotTooNear(oriented, minDist, perimeter);
    }

    /** The body of `clockwiseCorners`'s loop for one candidate: exchange
        corners 1 and 3 when (c1 - c0) x (c2 - c0) is negative. */
    method OrientCorners(p: Polygon)
      requires IsQuad(p.points)
      modifies p
      ensures p.points == Oriented(old(p.points)) && p.tooNear == old(p.tooNear)
    {
      var q := p.points;
      var dx1 := q[1].x - q[0].x;
      var dy1 := q[1].y - q[0].y;
      var dx2 := q[2].x - q[0].x;
      var dy2 := q[2].y - q[0].y;
      assert dx1 * dy2 - dy1 * dx2 == Winding(q);
      if dx1 * dy2 - dy1 * dx2 < 0 {
        var swap := q[1];
        p.points := q[1 := q[3]][3 := swap];
      }
    }

    /** `clockwiseCorners`: on each candidate whose cross product
        (c1 - c0) x (c2 - c0) is negative, exchange corners 1 and 3 in
        place; the flags and the list itself are left as they are. */
    method ClockwiseCorners(quads: seq<Polygon>) returns (result: seq<Polygon>)
      requires Distinct(quads) && AllQuads(PointsOf(quads))
      modifies quads
      ensures result == quads
      ensures PointsOf(quads) == AllOriented(old(PointsOf(quads)))
      ensures Unflagged(quads) == old(Unflagged(quads))
    {
      ghost var before := PointsOf(quads);
      ghost var flags := Unflagged(quads);
      var len := |quads|;
      var i := 0;
      while i < len
        invariant 0 <= i <= len
        invariant forall k :: 0 <= k < i ==> quads[k].points == Oriented(before[k])
        invariant forall k :: i <= k < len ==> quads[k].points == before[k]
        invariant forall k :: 0 <= k < len ==> quads[k].tooNear == !flags[k]
      {
        OrientCorners(quads[i]);
        i := i + 1;
      }
      result := quads;
    }

    /** The innermost loop of `notTooNear`: the sum of the squared
        distances between corresponding corners. */
    method CornerDist(p: seq<Point>, q: seq<Point>) returns (dist: int)
      requires IsQuad(p) && IsQuad(q)
      ensures dist == CornerDistance(p, q, 4)
    {
      dist := 0;
      var k := 0;
      while k < 4
        invariant 0 <= k <= 4
        invariant dist == CornerDistance(p, q, k)
      {
        var dx := p[k].x - q[k].x;
        var dy := p[k].y - q[k].y;
        dist := dist + dx * dx + dy * dy;
        k := k + 1;
      }
    }

    /** The test of `notTooNear`: the mean squared corner distance is
        below the square of the minimum distance. */
    method IsTooClose(p: seq<Point>, q: seq<Point>, minDist: int) returns (close: bool)
      requires IsQuad(p) && IsQuad(q)
      ensures close == TooClose(p, q, minDist)
    {
      var dist := CornerDist(p, q);
      var bound := minDist * minDist;
      assert 4 * minDist * minDist == 4 * bound;
      QuarterBelow(dist, bound);
      close := (dist as real) / 4.0 < bound as real;
    }

    /** One step of the inner loop of `notTooNear`: when candidates i and j
        are too close, flag the one with the smaller perimeter, j on a tie.
        `pts` are the corners, which do not change, and `flags0` the
        flags before the first row. */
    method FlagPair(quads: seq<Polygon>, i: nat, j: nat, minDist: int, perimeter: seq<Point> -> real,
                    ghost pts: seq<seq<Point>>, ghost flags0: seq<bool>)
      requires Distinct(quads) && AllQuads(pts) && |pts| == |quads| && |flags0| == |quads|
      requires i < j < |quads|
      requires forall k :: 0 <= k < |quads| ==> quads[k].points == pts[k]
      requires forall k :: 0 <= k < |quads| ==>
                 quads[k].tooNear == (!flags0[k] || FlaggedBefore(pts, perimeter, minDist, k, i, j))
      modifies quads
      ensures forall k :: 0 <= k < |quads| ==> quads[k].points == pts[k]
      ensures forall k :: 0 <= k < |quads| ==>
                quads[k].tooNear == (!flags0[k] || FlaggedBefore(pts, perimeter, minDist, k, i, j + 1))
    {
      forall k | 0 <= k < |quads|
        ensures FlaggedBefore(pts, perimeter, minDist, k, i, j + 1)
                <==> FlaggedBefore(pts, perimeter, minDist, k, i, j)
                     || (TooClose(pts[i], pts[j], minDist) && Loser(pts, perimeter, i, j) == k)
      {
        FlaggedStep(pts, perimeter, minDist, k, i, j);
      }
      var close := IsTooClose(quads[i].points, quads[j].points, minDist);
      if close {
        if perimeter(quads[i].points) < perimeter(quads[j].points) {
          quads[i].tooNear := true;
        } else {
          quads[j].tooNear := true;
        }
      }
    }

    /** The middle loop of `notTooNear` for row i: compare candidate i with
        every later one. */
    method FlagRow(quads: seq<Polygon>, i: nat, minDist: int, perimeter: seq<Point> -> real,
                   ghost pts: seq<seq<Point>>, ghost flags0: seq<bool>)
      requires Distinct(quads) && AllQuads(pts) && |pts| == |quads| && |flags0| == |quads|
      requires i < |quads|
      requires forall k :: 0 <= k < |quads| ==> quads[k].points == pts[k]
      requires forall k :: 0 <= k < |quads| ==>
                 quads[k].tooNear == (!flags0[k] || FlaggedBefore(pts, perimeter, minDist, k, i, 0))
      modifies quads
      ensures forall k :: 0 <= k < |quads| ==> quads[k].points == pts[k]
      ensures forall k :: 0 <= k < |quads| ==>
                quads[k].tooNear == (!flags0[k] || FlaggedBefore(pts, perimeter, minDist, k, i + 1, 0))
    {
      var len := |quads|;
      forall k | 0 <= k < len
        ensures FlaggedBefore(pts, perimeter, minDist, k, i, i + 1) <==> FlaggedBefore(pts, perimeter, minDist, k, i, 0)
      {
        FlaggedRowStart(pts, perimeter, minDist, k, i);
      }
      var j := i + 1;
      while j < len
        invariant i + 1 <= j <= len
        invariant forall k :: 0 <= k < len ==> quads[k].points == pts[k]
        invariant forall k :: 0 <= k < len ==>
                    quads[k].tooNear == (!flags0[k] || FlaggedBefore(pts, perimeter, minDist, k, i, j))
      {
        FlagPair(quads, i, j, minDist, perimeter, pts, flags0);
        j := j + 1;
      }
      forall k | 0 <= k < len
        ensures FlaggedBefore(pts, perimeter, minDist, k, i, len) <==> FlaggedBefore(pts, perimeter, minDist, k, i + 1, 0)
      {
        FlaggedRowEnd(pts, perimeter, minDist, k, i);
      }
    }

    /** The candidates whose flag is clear, in order. */
    method KeepUnflagged(quads: seq<Polygon>) returns (kept: seq<Polygon>)
      ensures kept == Filter(quads, Unflagged(quads))
    {
      ghost var flags := Unflagged(quads);
      kept := [];
      var i := 0;
      while i < |quads|
        invariant 0 <= i <= |quads|
        invariant kept == Filter(quads[..i], flags[..i])
      {
        assert quads[..i + 1] == quads[..i] + [quads[i]];
        assert flags[..i + 1] == flags[..i] + [flags[i]];
        FilterSnoc(quads[..i], flags[..i], quads[i], flags[i]);
        if !quads[i].tooNear {
          kept := kept + [quads[i]];
        } else {
          assert kept + [] == kept;
        }
        i := i + 1;
      }
      assert quads[..i] == quads && flags[..i] == flags;
    }

    /** The double loop of `notTooNear`: flags the loser of every close
        pair (i, j), i < j, in place, and changes no corners. */
    method FlagClose(quads: seq<Polygon>, minDist: int, perimeter: seq<Point> -> real)
      requires Distinct(quads) && AllQuads(PointsOf(quads))
      modifies quads
      ensures PointsOf(quads) == old(PointsOf(quads))
      ensures forall k :: 0 <= k < |quads| ==>
                quads[k].tooNear == (old(quads[k].tooNear) || Excluded(old(PointsOf(quads)), perimeter, minDist, k))
    {
      ghost var pts := PointsOf(quads);
      ghost var flags0 := Unflagged(quads);
      var len := |quads|;
      forall k | 0 <= k < len
        ensures !FlaggedBefore(pts, perimeter, minDist, k, 0, 0)
      {
        FlaggedNone(pts, perimeter, minDist, k);
      }
      var i := 0;
      while i < len
        invariant 0 <= i <= len
        invariant forall k :: 0 <= k < len ==> quads[k].points == pts[k]
        invariant forall k :: 0 <= k < len ==>
                    quads[k].tooNear == (!flags0[k] || FlaggedBefore(pts, perimeter, minDist, k, i, 0))
      {
        FlagRow(quads, i, minDist, perimeter, pts, flags0);
        i := i + 1;
      }
      assert PointsOf(quads) == pts;
    }

    /** `notTooNear`: flag the loser of every close pair, then return the
        unflagged candidates in order; when none was flagged beforehand,
        their corners are the survivors of the exclusion rule. */
    method NotTooNear(quads: seq<Polygon>, minDist: int, perimeter: seq<Point> -> real) returns (kept: seq<Polygon>)
      requires Distinct(quads) && AllQuads(PointsOf(quads))
      modifies quads
      ensures PointsOf(quads) == old(PointsOf(quads))
      ensures forall k :: 0 <= k < |quads| ==>
                quads[k].tooNear == (old(quads[k].tooNear) || Excluded(old(PointsOf(quads)), perimeter, minDist, k))
      ensures kept == Filter(quads, Unflagged(quads))
      ensures old(forall k :: 0 <= k < |quads| ==> !quads[k].tooNear)
              ==> PointsOf(kept) == Survivors(old(PointsOf(quads)), perimeter, minDist)
    {
      ghost var pts := PointsOf(quads);
      ghost var fresh0 := forall k :: 0 <= k < |quads| ==> !quads[k].tooNear;
      FlagClose(quads, minDist, perimeter);
      kept := KeepUnflagged(quads);
      PointsOfFilter(quads, Unflagged(quads));
      if fresh0 {
        SurvivorsOfFlags(pts, Unflagged(quads), perimeter, minDist);
      }
    }

    /** `rotate`: a square grid turned a quarter clockwise, built row by row. */
    method Rotate(arr: seq<seq<int>>) returns (dst: seq<seq<int>>)
      requires IsSquare(arr)
      ensures dst == Rotated(arr)
    {
      ghost var want := Rotated(arr);
      dst := [];
      var len := |arr|;
      var i := 0;
      while i < len
        invariant 0 <= i <= len
        invariant dst == want[..i]
      {
        var row: seq<int> := [];
        var j := 0;
        while j < |arr[i]|
          invariant 0 <= j <= |arr[i]|
          invariant row == want[i][..j]
        {
          row := row + [arr[|arr[i]| - j - 1][i]];
          j := j + 1;
        }
        assert row == want[i];
        dst := dst + [row];
        i := i + 1;
      }
      assert dst == want;
    }

    /** `rotate2`: element i of the result is element (rotation + i) mod n
        of `src`. */
    method Rotate2<T>(src: seq<T>, rotation: nat) returns (dst: seq<T>)
      ensures dst == CyclicShift(src, rotation)
    {
      ghost var want := CyclicShift(src, rotation);
      dst := [];
      var len := |src|;
      var i := 0;
      while i < len
        invariant 0 <= i <= len
        invariant dst == want[..i]
      {
        dst := dst + [src[(rotation + i) % len]];
        i := i + 1;
      }
      assert dst == want;
    }

    /** The border scan of `getMarker`: rows 0 and 4 cell by cell, rows 1
        to 3 at their first and last cell, stopping at the first cell that
        is white by majority. */
    method BorderWhite(counts: seq<seq<int>>, minZero: int) returns (white: bool)
      requires IsCountGrid(counts)
      ensures white <==> !BorderDark(counts, minZero)
    {
      var i := 0;
      while i < 5
        invariant 0 <= i <= 5
        invariant forall a, b :: 0 <= a < i && 0 <= b < 5 && OnBorder(5, a, b) ==> counts[a][b] <= minZero
      {
        var inc := if i == 0 || i == 4 then 1 else 4;
        var j := 0;
        while j < 5
          invariant 0 <= j <= 8 && (inc == 4 ==> j % 4 == 0)
          invariant forall b :: 0 <= b < j && b < 5 && OnBorder(5, i, b) ==> counts[i][b] <= minZero
        {
          if counts[i][j] > minZero {
            assert OnBorder(5, i, j);
            return true;
          }
          j := j + inc;
        }
        i := i + 1;
      }
      return false;
    }

    /** The sampling loops of `getMarker`: each interior cell becomes 1 when
        more than half of it is white. */
    method SampleBits(counts: seq<seq<int>>, minZero: int) returns (bits: seq<seq<int>>)
      requires IsCountGrid(counts)
      ensures bits == Sampled(counts, minZero)
    {
      ghost var sampled := Sampled(counts, minZero);
      bits := [];
      var i := 0;
      while i < 3
        invariant 0 <= i <= 3
        invariant bits == sampled[..i]
      {
        var row: seq<int> := [];
        var j := 0;
        while j < 3
          invariant 0 <= j <= 3
          invariant row == sampled[i][..j]
        {
          row := row + [if counts[i + 1][j + 1] > minZero then 1 else 0];
          j := j + 1;
        }
        assert row == sampled[i];
        bits := bits + [row];
        i := i + 1;
      }
      assert bits == sampled;
    }

    /** The decoding steps of `getMarker` on the sampled 3x3 bits: reject
        corner sums other than 1 and 3, pick the turns that bring the odd
        corner to the bottom left, turn the bits upright and read the id,
        top bit first. */
    method DecodeBits(g: seq<seq<int>>) returns (d: Option<Decoded>)
      requires IsInnerGrid(g)
      ensures d == DecodeInner(g)
    {
      var bits := g;
      var corners := [bits[0][0], bits[0][2], bits[2][2], bits[2][0]];
      assert corners == OrientationCorners(g);
      var cornerSum := corners[0] + corners[1] + corners[2] + corners[3];
      var msg: int;
      if cornerSum == 3 {
        msg := 0;
      } else if cornerSum == 1 {
        msg := 1;
        corners := [1 - corners[0], 1 - corners[1], 1 - corners[2], 1 - corners[3]];
      } else {
        return None;
      }
      ghost var parity := msg;

      var rotations: nat;
      if corners[0] == 0 {
        rotations := 3;
      } else if corners[3] == 0 {
        rotations := 0;
      } else if corners[2] == 0 {
        rotations := 1;
      } else {
        rotations := 2;
      }
      assert Orientation(OrientationCorners(g)) == Some((parity, rotations));
      ghost var id := PayloadId(parity, g, rotations);
      assert DecodeInner(g) == Some(Decoded(id, rotations));

      var i := 0;
      while i < rotations
        invariant 0 <= i <= rotations
        invariant IsSquare(bits) && bits == RotateN(g, i)
      {
        bits := Rotate(bits);
        i := i + 1;
      }

      PayloadOfTurned(g, parity, rotations, bits);
      msg := msg * 2 + bits[0][1];
      msg := msg * 2 + bits[1][0];
      msg := msg * 2 + bits[1][1];
      msg := msg * 2 + bits[1][2];
      msg := msg * 2 + bits[2][1];
      assert msg == id;
      d := Some(Decoded(msg, rotations));
    }

    /** `getMarker`, over the white-pixel count of each of the 25 cells of
        the thresholded image: give up at the first white border cell, read
        the interior by majority, decode it and shift the candidate's
        corners by the rotations found. */
    method GetMarker(counts: seq<seq<int>>, width: nat, candidate: seq<Point>) returns (r: Option<Marker>)
      requires IsCountGrid(counts)
      ensures r == ReadMarker(counts, width, candidate)
    {
      var w := width / 5;
      var minZero := (w * w) / 2;
      assert minZero == MinZero(CellWidth(width));
      var white := BorderWhite(counts, minZero);
      if white {
        return None;
      }
      var bits := SampleBits(counts, minZero);
      var d := DecodeBits(bits);
      if d.None? {
        return None;
      }
      var shifted := Rotate2(candidate, d.value.rotations);
      r := Some(Marker(d.value.id, shifted));
    }
  }
}
