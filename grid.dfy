/** Square grids of integers (rows of cells) and the quarter-turn the decoder
    uses to normalise a marker's orientation. */
module Grid {

  predicate IsSquare(g: seq<seq<int>>) {
    forall i :: 0 <= i < |g| ==> |g[i]| == |g|
  }

  /** Every row has the length of the first one. */
  predicate IsRectangular(g: seq<seq<int>>) {
    |g| > 0 && forall i :: 0 <= i < |g| ==> |g[i]| == |g[0]|
  }

  /** Every cell holds 0 (black) or 1 (white). */
  predicate IsBinary(g: seq<seq<int>>) {
    forall i, j :: 0 <= i < |g| && 0 <= j < |g[i]| ==> g[i][j] == 0 || g[i][j] == 1
  }

  /** A quarter turn clockwise: cell (i, j) of the result is cell
      (n-1-j, i) of the input. */
  function Rotated(g: seq<seq<int>>): (r: seq<seq<int>>)
    requires IsSquare(g)
    ensures IsSquare(r) && |r| == |g|
  {
    var n := |g|;
    seq(n, i requires 0 <= i < n => seq(n, j requires 0 <= j < n => g[n - 1 - j][i]))
  }

  /** `k` quarter turns. */
  function RotateN(g: seq<seq<int>>, k: nat): (r: seq<seq<int>>)
    requires IsSquare(g)
    ensures IsSquare(r) && |r| == |g|
    decreases k
  {
    if k == 0 then g else Rotated(RotateN(g, k - 1))
  }

  /** Rows become columns: cell (i, j) of the result is cell (j, i) of the input. */
  function Transpose(g: seq<seq<int>>): (r: seq<seq<int>>)
    requires IsRectangular(g)
    ensures |r| == |g[0]| && forall i :: 0 <= i < |r| ==> |r[i]| == |g|
  {
    seq(|g[0]|, i requires 0 <= i < |g[0]| => seq(|g|, k requires 0 <= k < |g| => g[k][i]))
  }

  /** The grid without its outer ring of cells. */
  function Inner(g: seq<seq<int>>): (r: seq<seq<int>>)
    requires IsSquare(g) && |g| >= 2
    ensures IsSquare(r) && |r| == |g| - 2
  {
    var n := |g| - 2;
    seq(n, i requires 0 <= i < n => seq(n, j requires 0 <= j < n => g[i + 1][j + 1]))
  }

  /** Turning moves cells about and invents none, so black and
      white grids stay black and white. */
  lemma {:induction false} RotatedBinary(g: seq<seq<int>>)
    requires IsSquare(g) && IsBinary(g)
    ensures IsBinary(Rotated(g))
  {
  }

  lemma {:induction false} RotateNBinary(g: seq<seq<int>>, k: nat)
    requires IsSquare(g) && IsBinary(g)
    ensures IsBinary(RotateN(g, k))
  {
    if k > 0 {
      RotateNBinary(g, k - 1);
      RotatedBinary(RotateN(g, k - 1));
    }
  }

  predicate OnBorder(n: int, i: int, j: int) {
    i == 0 || j == 0 || i == n - 1 || j == n - 1
  }

  /** Every cell of the outer ring is black. */
  predicate BorderBlack(g: seq<seq<int>>)
    requires IsSquare(g)
  {
    forall i, j :: 0 <= i < |g| && 0 <= j < |g| && OnBorder(|g|, i, j) ==> g[i][j] == 0
  }

  /** Two grids with the same shape and the same cells are equal. */
  lemma {:induction false} SameCells(a: seq<seq<int>>, b: seq<seq<int>>)
    requires |a| == |b| && forall i :: 0 <= i < |a| ==> |a[i]| == |b[i]|
    requires forall i, j :: 0 <= i < |a| && 0 <= j < |a[i]| ==> a[i][j] == b[i][j]
    ensures a == b
  {
    forall i | 0 <= i < |a|
      ensures a[i] == b[i]
    {
      assert forall j :: 0 <= j < |a[i]| ==> a[i][j] == b[i][j];
    }
  }

  /** Two quarter turns are a half turn: cell (i, j) comes from (n-1-i, n-1-j). */
  lemma {:induction false} HalfTurn(g: seq<seq<int>>, i: int, j: int)
    requires IsSquare(g) && 0 <= i < |g| && 0 <= j < |g|
    ensures Rotated(Rotated(g))[i][j] == g[|g| - 1 - i][|g| - 1 - j]
  {
    var n := |g|;
    var r1 := Rotated(g);
    assert Rotated(r1)[i][j] == r1[n - 1 - j][i];
  }

  /** Four explicit quarter turns restore any square grid. */
  lemma {:induction false} FourRotationsRestore(g: seq<seq<int>>)
    requires IsSquare(g)
    ensures Rotated(Rotated(Rotated(Rotated(g)))) == g
  {
    var n := |g|;
    var r2 := Rotated(Rotated(g));
    var r4 := Rotated(Rotated(r2));
    forall i, j | 0 <= i < n && 0 <= j < n
      ensures r4[i][j] == g[i][j]
    {
      HalfTurn(r2, i, j);
      HalfTurn(g, n - 1 - i, n - 1 - j);
    }
    SameCells(r4, g);
  }

  /** Four quarter turns restore any square grid. */
  lemma {:induction false} FourQuarterTurns(g: seq<seq<int>>)
    requires IsSquare(g)
    ensures RotateN(g, 4) == g
  {
    assert RotateN(g, 1) == Rotated(g);
    assert RotateN(g, 2) == Rotated(Rotated(g));
    FourRotationsRestore(g);
  }

  /** Turning `a` times and then `b` times is turning `a + b` times. */
  lemma {:induction false} RotateNAdd(g: seq<seq<int>>, a: nat, b: nat)
    requires IsSquare(g)
    ensures RotateN(RotateN(g, a), b) == RotateN(g, a + b)
  {
    if b > 0 {
      RotateNAdd(g, a, b - 1);
      assert RotateN(RotateN(g, a), b) == Rotated(RotateN(RotateN(g, a), b - 1));
      assert RotateN(g, a + b) == Rotated(RotateN(g, a + b - 1));
    }
  }

  /** Only the number of turns modulo four matters. */
  lemma {:induction false} RotateNMod4(g: seq<seq<int>>, k: nat)
    requires IsSquare(g)
    ensures RotateN(g, k) == RotateN(g, k % 4)
  {
    if k >= 4 {
      calc {
        RotateN(g, k);
        { RotateNAdd(g, 4, k - 4); }
        RotateN(RotateN(g, 4), k - 4);
        { FourQuarterTurns(g); }
        RotateN(g, k - 4);
        { RotateNMod4(g, k - 4); }
        RotateN(g, (k - 4) % 4);
      }
    }
  }

  /** A quarter turn maps the outer ring onto itself, so a black border stays black. */
  lemma {:induction false} RotatedBorderBlack(g: seq<seq<int>>)
    requires IsSquare(g) && BorderBlack(g)
    ensures BorderBlack(Rotated(g))
  {
    var n := |g|;
    forall i, j | 0 <= i < n && 0 <= j < n && OnBorder(n, i, j)
      ensures Rotated(g)[i][j] == 0
    {
      assert OnBorder(n, n - 1 - j, i);
    }
  }

  lemma {:induction false} RotateNBorderBlack(g: seq<seq<int>>, k: nat)
    requires IsSquare(g) && BorderBlack(g)
    ensures BorderBlack(RotateN(g, k))
  {
    if k > 0 {
      RotateNBorderBlack(g, k - 1);
      RotatedBorderBlack(RotateN(g, k - 1));
    }
  }

  /** Turning a grid turns its interior the same way. */
  lemma {:induction false} InnerOfRotated(g: seq<seq<int>>)
    requires IsSquare(g) && |g| >= 2
    ensures Inner(Rotated(g)) == Rotated(Inner(g))
  {
    SameCells(Inner(Rotated(g)), Rotated(Inner(g)));
  }

  lemma {:induction false} InnerOfRotateN(g: seq<seq<int>>, k: nat)
    requires IsSquare(g) && |g| >= 2
    ensures Inner(RotateN(g, k)) == RotateN(Inner(g), k)
  {
    if k > 0 {
      InnerOfRotateN(g, k - 1);
      InnerOfRotated(RotateN(g, k - 1));
    }
  }

  /** Transposing twice restores a grid whose rows are non-empty. */
  lemma {:induction false} TransposeTwice(g: seq<seq<int>>)
    requires IsRectangular(g) && |g[0]| > 0
    ensures IsRectangular(Transpose(g)) && Transpose(Transpose(g)) == g
  {
    SameCells(Transpose(Transpose(g)), g);
  }

  /** The quarter turn is the transpose of the grid read bottom row first. */
  lemma {:induction false} RotatedIsTransposeOfFlip(g: seq<seq<int>>)
    requires IsSquare(g) && |g| > 0
    ensures var flipped := seq(|g|, k requires 0 <= k < |g| => g[|g| - 1 - k]);
            IsRectangular(flipped) && Rotated(g) == Transpose(flipped)
  {
    var flipped := seq(|g|, k requires 0 <= k < |g| => g[|g| - 1 - k]);
    SameCells(Rotated(g), Transpose(flipped));
  }
}
