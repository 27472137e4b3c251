/** What `getMarker` reads from a candidate's warped, thresholded image,
    given as the number of white pixels in each cell of a 5x5 grid: the
    border test, the majority vote on the 3x3 interior, the decode and the
    realignment of the candidate's corners. */
module Reader {
  import opened Util
  import opened Grid
  import opened Codec
  import opened Geometry

  /** `AR.Marker`: an id and the corners of the quad it was read from. */
  datatype Marker = Marker(id: nat, corners: seq<Point>)

  /** White-pixel counts of the 5x5 cells, row by row: entry (i, j) counts
      the cell whose top-left pixel is (j·w, i·w). */
  predicate IsCountGrid(counts: seq<seq<int>>) {
    IsSquare(counts) && |counts| == 5
  }

  /** The side of one cell: the image width divided by five, rounded down. */
  function CellWidth(width: nat): (r: nat) {
    width / 5
  }

  /** Half the pixels of a cell, rounded down: the most white pixels a
      black cell may hold. */
  function MinZero(w: nat): (r: nat) {
    (w * w) / 2
  }

  /** Every one of the 16 border cells is black by majority. */
  predicate BorderDark(counts: seq<seq<int>>, minZero: int)
    requires IsCountGrid(counts)
  {
    forall i, j :: 0 <= i < 5 && 0 <= j < 5 && OnBorder(5, i, j) ==> counts[i][j] <= minZero
  }

  /** The interior cells turned to bits: 1 when more than half is white. */
  function Sampled(counts: seq<seq<int>>, minZero: int): (g: seq<seq<int>>)
    requires IsCountGrid(counts)
    ensures IsInnerGrid(g)
    ensures forall i, j :: 0 <= i < 3 && 0 <= j < 3 ==> (g[i][j] == 1 <==> counts[i + 1][j + 1] > minZero)
  {
    seq(3, i requires 0 <= i < 3 => seq(3, j requires 0 <= j < 3 => if counts[i + 1][j + 1] > minZero then 1 else 0))
  }

  /** `getMarker`: no marker when a border cell is white or the corners do
      not decode; otherwise the decoded id with the candidate's corners
      shifted by the rotations the decoder reports. */
  function ReadMarker(counts: seq<seq<int>>, width: nat, candidate: seq<Point>): (r: Option<Marker>)
    requires IsCountGrid(counts)
    ensures r.Some? ==> r.value.id < 64 && |r.value.corners| == |candidate|
  {
    var minZero := MinZero(CellWidth(width));
    if !BorderDark(counts, minZero) then None
    else
      var g := Sampled(counts, minZero);
      match DecodeInner(g)
      case None => None
      case Some(d) =>
        DecodedIdBound(g);
        Some(Marker(d.id, CyclicShift(candidate, d.rotations)))
  }

  /** No marker exactly when a border cell is white by majority or the
      sampled orientation corners sum to 0, 2 or 4. */
  lemma {:induction false} ReadMarkerNoneIff(counts: seq<seq<int>>, width: nat, candidate: seq<Point>)
    requires IsCountGrid(counts)
    ensures var minZero := MinZero(CellWidth(width));
            var c := OrientationCorners(Sampled(counts, minZero));
            ReadMarker(counts, width, candidate).None?
            <==> !BorderDark(counts, minZero) || c[0] + c[1] + c[2] + c[3] in {0, 2, 4}
  {
    DecodeRejects(Sampled(counts, MinZero(CellWidth(width))));
  }

  /** A found marker's corners are the candidate's, shifted as the decoder
      says, and its id is what the interior decodes to. */
  lemma {:induction false} ReadMarkerFound(counts: seq<seq<int>>, width: nat, candidate: seq<Point>)
    requires IsCountGrid(counts) && ReadMarker(counts, width, candidate).Some?
    ensures var minZero := MinZero(CellWidth(width));
            var d := DecodeInner(Sampled(counts, minZero));
            BorderDark(counts, minZero) && d.Some?
            && ReadMarker(counts, width, candidate).value == Marker(d.value.id, CyclicShift(candidate, d.value.rotations))
  {
  }

  /** An all-black image has a black border but four black corners: no marker. */
  lemma {:induction false} BlackImageRejected(width: nat, candidate: seq<Point>)
    ensures var counts := seq(5, i => seq(5, j => 0));
            IsCountGrid(counts) && BorderDark(counts, MinZero(CellWidth(width)))
            && ReadMarker(counts, width, candidate).None?
  {
    var counts := seq(5, i => seq(5, j => 0));
    var g := Sampled(counts, MinZero(CellWidth(width)));
    assert OrientationCorners(g) == [0, 0, 0, 0];
  }

  /** An image whose top-left cell is more than half white has a white
      border cell: no marker. */
  lemma {:induction false} WhiteBorderRejected(counts: seq<seq<int>>, width: nat, candidate: seq<Point>)
    requires IsCountGrid(counts) && counts[0][0] > MinZero(CellWidth(width))
    ensures ReadMarker(counts, width, candidate).None?
  {
    assert OnBorder(5, 0, 0);
  }

  // ---------------------------------------------------------------------
  // Reading what `generate` drew

  /** The counts of a sharp picture of the black-and-white grid `g` with
      cells of w by w pixels: w² white pixels in a white cell, none in a
      black one. */
  function Render(g: seq<seq<int>>, w: nat): (counts: seq<seq<int>>)
    requires IsSquare(g) && |g| == 5
    ensures IsCountGrid(counts)
  {
    seq(5, i requires 0 <= i < 5 => seq(5, j requires 0 <= j < 5 => if g[i][j] == 1 then w * w else 0))
  }

  /** A white cell of a picture with cells at least one pixel wide is white
      by majority, and a black one is not. */
  lemma {:induction false} MajorityOfFullCell(w: nat)
    requires w >= 1
    ensures 0 <= MinZero(w) < w * w
  {
    ProductPositive(w);
  }

  /** Sampling the picture of a black-and-white grid with a black border
      gives back its border test and its interior. */
  lemma {:induction false} SampleRendered(g: seq<seq<int>>, w: nat)
    requires IsSquare(g) && |g| == 5 && IsBinary(g) && BorderBlack(g) && w >= 1
    ensures CellWidth(5 * w) == w
    ensures BorderDark(Render(g, w), MinZero(w))
    ensures Sampled(Render(g, w), MinZero(w)) == Inner(g)
  {
    MajorityOfFullCell(w);
    var counts := Render(g, w);
    var s := Sampled(counts, MinZero(w));
    forall i, j | 0 <= i < 3 && 0 <= j < 3
      ensures s[i][j] == Inner(g)[i][j]
    {
      assert counts[i + 1][j + 1] == if g[i + 1][j + 1] == 1 then w * w else 0;
    }
    SameCells(s, Inner(g));
  }

  /** The picture of the marker for id, at any cell size, reads as that
      marker with the candidate's corners unchanged. */
  lemma {:induction false} RenderedMarkerReads(id: nat, w: nat, candidate: seq<Point>)
    requires id < 64 && w >= 1
    ensures ReadMarker(Render(EncodedGrid(id, 5), w), 5 * w, candidate) == Some(Marker(id, candidate))
  {
    EncodedGridBinary(id, 5);
    SampleRendered(EncodedGrid(id, 5), w);
    RoundTrip(id);
    CyclicShiftZero(candidate);
  }

  /** The picture of the marker turned r times clockwise reads as the same
      id, with the corners shifted by the turns that undo r. */
  lemma {:induction false} RenderedTurnedMarkerReads(id: nat, r: nat, w: nat, candidate: seq<Point>)
    requires id < 64 && w >= 1
    ensures var g := RotateN(EncodedGrid(id, 5), r);
            ReadMarker(Render(g, w), 5 * w, candidate) == Some(Marker(id, CyclicShift(candidate, (4 - r % 4) % 4)))
  {
    var e := EncodedGrid(id, 5);
    var g := RotateN(e, r);
    EncodedGridBinary(id, 5);
    RotateNBinary(e, r);
    RotateNBorderBlack(e, r);
    SampleRendered(g, w);
    InnerOfRotateN(e, r);
    RotatedMarkerDecodes(id, r);
  }
}
