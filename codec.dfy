/** The marker codec: `AR.Marker.generate` turns an id into a square grid of
    black (0) and white (1) cells; the decode half of `getMarker` reads a
    3x3 interior back into an id and the number of quarter turns that
    normalise it.

    Layout of a marker of side `size`, with n = size - 2 the side of the
    interior: the outer ring is black; the four interior corners are the
    orientation feature, (1,1), (1,n) and (n,n) holding 1 - msb and (n,1)
    holding msb, where msb is the top bit of the id; the other interior
    cells hold the remaining bits, most significant first, in row-major
    order. */
module Codec {
  import opened Util
  import opened Grid

  // ---------------------------------------------------------------------
  // Sizes and bits

  /** `s || 5`: an absent (or zero) size means the default side of 5. */
  function MarkerSize(s: nat): (r: nat) {
    if s == 0 then 5 else s
  }

  /** x * x, by recursion on |x|, so that the layout proofs stay linear:
      SquareIsProduct shows it is the product. */
  function Square(x: int): (r: nat)
    decreases if x < 0 then -x else x
  {
    if x == 0 then 0
    else if x > 0 then Square(x - 1) + 2 * x - 1
    else Square(x + 1) - 2 * x - 1
  }

  lemma {:induction false} SquareIsProduct(x: int)
    ensures Square(x) == x * x
    decreases if x < 0 then -x else x
  {
    if x > 0 {
      SquareIsProduct(x - 1);
    } else if x < 0 {
      SquareIsProduct(x + 1);
    }
  }

  /** Id bits a marker of side `size` carries: (size - 2)^2 interior cells,
      less four orientation cells that together carry one bit. */
  function Bitdepth(size: nat): (r: int) {
    Square(size - 2) - 3
  }

  lemma {:induction false} BitdepthSign(size: nat)
    requires size >= 1
    ensures size >= 4 <==> Bitdepth(size) >= 1
    ensures size < 4 <==> Bitdepth(size) < 0
  {
    var n := size - 2;
    SquareIsProduct(n);
    if size >= 4 {
      assert n * n >= 2 * n;
    }
  }

  /** `id >= Math.pow(2, bitdepth)` for a non-negative integer id. A negative
      bitdepth makes the power a fraction in (0, 1), which every id but 0
      reaches. */
  predicate Overflows(id: nat, bitdepth: int) {
    if bitdepth >= 0 then id >= Pow2(bitdepth) else id >= 1
  }

  /** What `generate` throws. */
  datatype GenerateError =
    | IdOverflow(capacity: int)        // "ID overflow! This marker can only hold <capacity> bits"
    | InvalidArrayLength(length: int)  // `new Array(bitdepth)` with a negative bitdepth

  /** The `n` low bits of `x`, most significant first, as the countdown loop
      of `generate` lays them out: position n-1 holds x % 2. */
  function Bits(x: nat, n: nat): (r: seq<int>)
    ensures |r| == n
    ensures forall k :: 0 <= k < n ==> r[k] == 0 || r[k] == 1
  {
    if n == 0 then [] else Bits(x / 2, n - 1) + [x % 2]
  }

  /** The number a sequence of bits denotes, most significant first. */
  function Value(bs: seq<int>): (r: int) {
    if |bs| == 0 then 0 else 2 * Value(bs[..|bs| - 1]) + bs[|bs| - 1]
  }

  /** An id below 2^n is recovered from its n bits. */
  lemma {:induction false} ValueOfBits(x: nat, n: nat)
    requires x < Pow2(n)
    ensures Value(Bits(x, n)) == x
  {
    if n > 0 {
      ValueOfBits(x / 2, n - 1);
      var bs := Bits(x, n);
      assert bs[..n - 1] == Bits(x / 2, n - 1);
    }
  }

  /** Conversely, a sequence of bits is the bit pattern of the number it
      denotes. */
  lemma {:induction false} BitsOfValue(bs: seq<int>)
    requires forall k :: 0 <= k < |bs| ==> bs[k] == 0 || bs[k] == 1
    ensures 0 <= Value(bs) < Pow2(|bs|)
    ensures Bits(Value(bs), |bs|) == bs
  {
    if |bs| > 0 {
      var init := bs[..|bs| - 1];
      BitsOfValue(init);
      assert bs == init + [bs[|bs| - 1]];
    }
  }

  /** The first of the n bits is the top bit: set exactly when x >= 2^(n-1). */
  lemma {:induction false} TopBit(x: nat, n: nat)
    requires 1 <= n && x < Pow2(n)
    ensures Bits(x, n)[0] == if x >= Pow2(n - 1) then 1 else 0
  {
    if n > 1 {
      TopBit(x / 2, n - 1);
      assert Bits(x, n)[0] == Bits(x / 2, n - 1)[0];
    }
  }

  /** Six bits, written out. */
  lemma {:induction false} ValueOfSix(bs: seq<int>)
    requires |bs| == 6
    ensures Value(bs) == ((((bs[0] * 2 + bs[1]) * 2 + bs[2]) * 2 + bs[3]) * 2 + bs[4]) * 2 + bs[5]
  {
    assert bs[..5][..4] == bs[..4];
    assert bs[..4][..3] == bs[..3];
    assert bs[..3][..2] == bs[..2];
    assert bs[..2][..1] == bs[..1];
    assert bs[..1][..0] == [];
    assert Value(bs[..1]) == bs[0];
    assert Value(bs[..2]) == 2 * Value(bs[..1]) + bs[1];
    assert Value(bs[..3]) == 2 * Value(bs[..2]) + bs[2];
    assert Value(bs[..4]) == 2 * Value(bs[..3]) + bs[3];
    assert Value(bs[..5]) == 2 * Value(bs[..4]) + bs[4];
    assert Value(bs) == 2 * Value(bs[..5]) + bs[5];
  }

  // ---------------------------------------------------------------------
  // Cell layout (n = size - 2 is the side of the interior; interior cells
  // have coordinates 1..n)

  predicate IsOrientationCell(n: int, i: int, j: int) {
    (i == 1 || i == n) && (j == 1 || j == n)
  }

  predicate IsMessageCell(n: int, i: int, j: int) {
    1 <= i <= n && 1 <= j <= n && !IsOrientationCell(n, i, j)
  }

  /** How many message cells row i of the interior holds. */
  function RowMessages(n: nat, i: nat): (r: int) {
    if i == 1 || i == n then n - 2 else n
  }

  /** How many message cells lie in the rows above row i. */
  function RowStart(n: nat, i: nat): (r: nat)
    requires n >= 2 && 1 <= i <= n + 1
  {
    if i == 1 then 0 else RowStart(n, i - 1) + RowMessages(n, i - 1)
  }

  /** How many message cells lie in row i left of column j. */
  function InRow(n: nat, i: nat, j: nat): (r: int)
    requires n >= 2 && 1 <= i <= n && 1 <= j <= n + 1
  {
    if i == 1 || i == n then (if j <= 2 then 0 else if j <= n then j - 2 else n - 2)
    else j - 1
  }

  /** How many message cells come before (i, j) in row-major order: for a
      message cell, the number of the remaining bit it holds. */
  function MsgIndex(n: nat, i: nat, j: nat): (r: int)
    requires n >= 2 && 1 <= i <= n && 1 <= j <= n + 1
  {
    RowStart(n, i) + InRow(n, i, j)
  }

  /** n - 2 cells in the first row and n in each row after it. */
  lemma {:induction false} RowStartClosed(n: nat, i: nat)
    requires n >= 2 && 2 <= i <= n
    ensures RowStart(n, i) == (n - 2) + (i - 2) * n
  {
    if i > 2 {
      RowStartClosed(n, i - 1);
      assert (i - 2) * n == (i - 3) * n + n;
    }
  }

  /** The rows hold n*n - 4 message cells in all: one per remaining bit. */
  lemma {:induction false} RowStartTotal(n: nat)
    requires n >= 2
    ensures RowStart(n, n + 1) == Square(n) - 4
  {
    RowStartClosed(n, n);
    SquareIsProduct(n);
    assert (n - 2) + (n - 2) * n + (n - 2) == n * n - 4;
  }

  lemma {:induction false} RowStartMonotone(n: nat, i: nat, i2: nat)
    requires n >= 2 && 1 <= i <= i2 <= n + 1
    ensures RowStart(n, i) <= RowStart(n, i2)
    decreases i2 - i
  {
    if i < i2 {
      RowStartMonotone(n, i, i2 - 1);
    }
  }

  /** Every row's message cells fit among the n*n - 4 remaining bits. */
  lemma {:induction false} RowStartSteps(n: nat, i: nat)
    requires n >= 2 && 1 <= i <= n
    ensures RowStart(n, i) + RowMessages(n, i) <= Square(n) - 4
  {
    RowStartBelowTotal(n, i + 1);
  }

  lemma {:induction false} RowStartBelowTotal(n: nat, i: nat)
    requires n >= 2 && 1 <= i <= n + 1
    ensures RowStart(n, i) <= Square(n) - 4
  {
    RowStartMonotone(n, i, n + 1);
    RowStartTotal(n);
  }

  lemma {:induction false} MsgIndexBounds(n: nat, i: nat, j: nat)
    requires n >= 2 && IsMessageCell(n, i, j)
    ensures RowStart(n, i) <= MsgIndex(n, i, j) < RowStart(n, i) + RowMessages(n, i)
    ensures 0 <= MsgIndex(n, i, j) < Square(n) - 4
  {
    RowStartSteps(n, i);
  }

  /** Message cells are numbered in strictly increasing row-major order, so
      no two receive the same bit and earlier cells get more significant
      bits. */
  lemma {:induction false} MsgIndexIncreasing(n: nat, i: nat, j: nat, i2: nat, j2: nat)
    requires n >= 2 && IsMessageCell(n, i, j) && IsMessageCell(n, i2, j2)
    requires i < i2 || (i == i2 && j < j2)
    ensures MsgIndex(n, i, j) < MsgIndex(n, i2, j2)
  {
    if i < i2 {
      RowStartMonotone(n, i + 1, i2);
    }
  }

  lemma {:induction false} DivideByRow(n: nat, t: nat)
    requires n >= 2 && t < (n - 2) * n
    ensures t / n < n - 2 && t == (t / n) * n + t % n
  {
    var q, r := t / n, t % n;
    assert t == q * n + r && 0 <= r;
    if q >= n - 2 {
      MulMonotone(n - 2, q, n);
    }
  }

  /** Remaining bit (n - 2) + t, past the first row and before the last,
      sits in row 2 + t / n, column 1 + t % n. */
  lemma {:induction false} MiddleRow(n: nat, t: nat)
    requires n >= 2 && (n - 2) + t < RowStart(n, n)
    ensures 2 <= 2 + t / n <= n - 1
    ensures RowStart(n, 2 + t / n) + t % n == (n - 2) + t
  {
    RowStartClosed(n, n);
    DivideByRow(n, t);
    RowStartClosed(n, 2 + t / n);
  }

  /** The cell that receives remaining bit number k: every one of the
      Square(n) - 4 remaining bits has a message cell. */
  function MessageCell(n: nat, k: nat): (c: (nat, nat))
    requires n >= 2 && k < Square(n) - 4
    ensures IsMessageCell(n, c.0, c.1) && MsgIndex(n, c.0, c.1) == k
  {
    RowStartTotal(n);
    if k < n - 2 then (1, k + 2)
    else if k < RowStart(n, n) then
      MiddleRow(n, k - (n - 2));
      (2 + (k - (n - 2)) / n, 1 + (k - (n - 2)) % n)
    else
      (n, k - RowStart(n, n) + 2)
  }

  // ---------------------------------------------------------------------
  // Encoding

  /** The value of cell (i, j) of the marker that carries `bits`. */
  function CellValue(size: nat, bits: seq<int>, i: nat, j: nat): (r: int)
    requires size >= 4 && |bits| == Bitdepth(size) && i < size && j < size
  {
    BitdepthSign(size);
    var n := size - 2;
    if i == 0 || j == 0 || i == size - 1 || j == size - 1 then 0
    else if (i == 1 && j == 1) || (i == n && j == n) || (i == 1 && j == n) then 1 - bits[0]
    else if i == n && j == 1 then bits[0]
    else
      MsgIndexBounds(n, i, j);
      bits[1 + MsgIndex(n, i, j)]
  }

  /** The marker of side `size` that carries `bits`. */
  function MarkerGrid(size: nat, bits: seq<int>): (g: seq<seq<int>>)
    requires size >= 4 && |bits| == Bitdepth(size)
    ensures IsSquare(g) && |g| == size
  {
    seq(size, i requires 0 <= i < size => seq(size, j requires 0 <= j < size => CellValue(size, bits, i, j)))
  }

  /** The marker `generate(id, size)` returns. */
  function EncodedGrid(id: nat, size: nat): (g: seq<seq<int>>)
    requires size >= 4
    ensures IsSquare(g) && |g| == size
  {
    BitdepthSign(size);
    MarkerGrid(size, Bits(id, Bitdepth(size)))
  }

  /** A cell of the interior that has been written once the fill loops have
      reached row i, column j. */
  predicate Written(size: nat, r: int, c: int, i: int, j: int) {
    1 <= r && 1 <= c <= size - 2 && (r < i || (r == i && c < j))
  }

  /** `AR.Marker.generate(id, s)`: the marker grid for `id`, or the error it
      throws. */
  method Generate(id: nat, s: nat) returns (r: Result<seq<seq<int>>, GenerateError>)
    ensures var bitdepth := Bitdepth(MarkerSize(s));
            r.Failure? <==> Overflows(id, bitdepth) || bitdepth < 0
    ensures var bitdepth := Bitdepth(MarkerSize(s));
            r.Failure? ==> r.error == if Overflows(id, bitdepth) then IdOverflow(bitdepth) else InvalidArrayLength(bitdepth)
    ensures r.Success? ==> MarkerSize(s) >= 4 && r.value == EncodedGrid(id, MarkerSize(s))
  {
    var size := if s == 0 then 5 else s;
    var bitdepth := (size - 2) * (size - 2) - 3;
    SquareIsProduct(size - 2);
    if Overflows(id, bitdepth) {
      return Failure(IdOverflow(bitdepth));
    }
    BitdepthSign(size);
    if bitdepth < 0 {
      return Failure(InvalidArrayLength(bitdepth));
    }
    var m := ZeroGrid(size);
    var msg := IdBits(id, bitdepth);
    m := FillInterior(m, size, msg);
    return Success(m);
  }

  /** The `size` x `size` grid of zeros `generate` starts from. */
  method ZeroGrid(size: nat) returns (m: seq<seq<int>>)
    ensures |m| == size && forall r :: 0 <= r < size ==> |m[r]| == size
    ensures forall r, c :: 0 <= r < size && 0 <= c < size ==> m[r][c] == 0
  {
    m := [];
    var i := 0;
    while i < size
      invariant 0 <= i <= size && |m| == i
      invariant forall r :: 0 <= r < i ==> |m[r]| == size
      invariant forall r, c :: 0 <= r < i && 0 <= c < size ==> m[r][c] == 0
    {
      var row: seq<int> := [];
      var j := 0;
      while j < size
        invariant 0 <= j <= size && |row| == j
        invariant forall c :: 0 <= c < j ==> row[c] == 0
      {
        row := row + [0];
        j := j + 1;
      }
      m := m + [row];
      i := i + 1;
    }
  }

  /** The countdown loop of `generate`: the `bitdepth` low bits of `id`,
      least significant at the end. */
  method IdBits(id: nat, bitdepth: nat) returns (bits: seq<int>)
    ensures bits == Bits(id, bitdepth)
  {
    var msg := new int[bitdepth];
    var x: nat := id;
    var k := bitdepth - 1;
    while k >= 0
      invariant -1 <= k < bitdepth
      invariant Bits(x, k + 1) + msg[k + 1..] == Bits(id, bitdepth)
    {
      ghost var rest := msg[k + 1..];
      msg[k] := x % 2;
      assert msg[k + 1..] == rest;
      assert msg[k..] == [x % 2] + rest;
      x := x / 2;
      k := k - 1;
    }
    assert msg[..] == msg[0..];
    bits := msg[..];
  }

  /** The fill loops of `generate`: the top bit goes to the orientation
      cells and the rest, taken from the front of a queue, to the message
      cells in row-major order. */
  method FillInterior(m0: seq<seq<int>>, size: nat, bits: seq<int>) returns (m: seq<seq<int>>)
    requires size >= 4 && |bits| == Bitdepth(size)
    requires |m0| == size && forall r :: 0 <= r < size ==> |m0[r]| == size
    requires forall r, c :: 0 <= r < size && 0 <= c < size ==> m0[r][c] == 0
    ensures m == MarkerGrid(size, bits)
  {
    BitdepthSign(size);
    var n := size - 2;
    m := m0;
    var queue := bits;
    var msb := queue[0];
    queue := queue[1..];

    var i := 1;
    while i < size - 1
      invariant 1 <= i <= size - 1
      invariant |m| == size && forall r :: 0 <= r < size ==> |m[r]| == size
      invariant forall r, c :: 0 <= r < size && 0 <= c < size ==>
                  m[r][c] == if Written(size, r, c, i, 1) then CellValue(size, bits, r, c) else 0
      invariant 1 + RowStart(n, i) <= |bits| && queue == bits[1 + RowStart(n, i)..]
    {
      RowStartSteps(n, i);
      m, queue := FillRow(m, size, bits, i, msb, RowStart(n, i), queue);
      i := i + 1;
    }
    // every remaining bit has been placed
    RowStartTotal(n);
    assert queue == [];
    SameCells(m, MarkerGrid(size, bits));
  }

  /** One pass of the inner fill loop: row i of the interior, left to right.
      `start` is the number of remaining bits the rows above have taken. */
  method FillRow(m0: seq<seq<int>>, size: nat, bits: seq<int>, i: nat, msb: int, ghost start: nat, q0: seq<int>)
      returns (m: seq<seq<int>>, queue: seq<int>)
    requires size >= 4 && |bits| == Bitdepth(size) && 1 <= i <= size - 2
    requires |bits| >= 1 && msb == bits[0]
    requires |m0| == size && forall r :: 0 <= r < size ==> |m0[r]| == size
    requires forall r, c :: 0 <= r < size && 0 <= c < size ==>
               m0[r][c] == if Written(size, r, c, i, 1) then CellValue(size, bits, r, c) else 0
    requires start == RowStart(size - 2, i) && 1 + start + RowMessages(size - 2, i) <= |bits|
    requires q0 == bits[1 + start..]
    ensures |m| == size && forall r :: 0 <= r < size ==> |m[r]| == size
    ensures forall r, c :: 0 <= r < size && 0 <= c < size ==>
              m[r][c] == if Written(size, r, c, i + 1, 1) then CellValue(size, bits, r, c) else 0
    ensures queue == bits[1 + start + RowMessages(size - 2, i)..]
  {
    var n := size - 2;
    m, queue := m0, q0;
    var j := 1;
    while j < size - 1
      invariant 1 <= j <= size - 1
      invariant |m| == size && forall r :: 0 <= r < size ==> |m[r]| == size
      invariant forall r, c :: 0 <= r < size && 0 <= c < size ==>
                  m[r][c] == if Written(size, r, c, i, j) then CellValue(size, bits, r, c) else 0
      invariant InRow(n, i, j) <= RowMessages(n, i) && queue == bits[1 + start + InRow(n, i, j)..]
    {
      m, queue := FillCell(m, size, bits, i, j, msb, start, queue);
      j := j + 1;
    }
  }

  /** One turn of the inner fill loop: cell (i, j) gets the inverted or
      plain top bit when it is an orientation cell, else the next bit of
      the queue. */
  method FillCell(m0: seq<seq<int>>, size: nat, bits: seq<int>, i: nat, j: nat, msb: int, ghost start: nat, q0: seq<int>)
      returns (m: seq<seq<int>>, queue: seq<int>)
    requires size >= 4 && |bits| == Bitdepth(size) && 1 <= i <= size - 2 && 1 <= j <= size - 2
    requires |bits| >= 1 && msb == bits[0]
    requires |m0| == size && forall r :: 0 <= r < size ==> |m0[r]| == size
    requires forall r, c :: 0 <= r < size && 0 <= c < size ==>
               m0[r][c] == if Written(size, r, c, i, j) then CellValue(size, bits, r, c) else 0
    requires start == RowStart(size - 2, i) && 1 + start + RowMessages(size - 2, i) <= |bits|
    requires InRow(size - 2, i, j) <= RowMessages(size - 2, i) && q0 == bits[1 + start + InRow(size - 2, i, j)..]
    ensures |m| == size && forall r :: 0 <= r < size ==> |m[r]| == size
    ensures forall r, c :: 0 <= r < size && 0 <= c < size ==>
              m[r][c] == if Written(size, r, c, i, j + 1) then CellValue(size, bits, r, c) else 0
    ensures InRow(size - 2, i, j + 1) <= RowMessages(size - 2, i) && queue == bits[1 + start + InRow(size - 2, i, j + 1)..]
  {
    queue := q0;
    if (i == 1 && j == 1) || (i == size - 2 && j == size - 2) || (i == 1 && j == size - 2) {
      m := m0[i := m0[i][j := 1 - msb]];
    } else if i == size - 2 && j == 1 {
      m := m0[i := m0[i][j := msb]];
    } else {
      m := m0[i := m0[i][j := queue[0]]];
      queue := queue[1..];
    }
  }

  lemma {:induction false} CellBinary(size: nat, bits: seq<int>, i: nat, j: nat)
    requires size >= 4 && |bits| == Bitdepth(size) && i < size && j < size
    requires forall k :: 0 <= k < |bits| ==> bits[k] == 0 || bits[k] == 1
    ensures CellValue(size, bits, i, j) == 0 || CellValue(size, bits, i, j) == 1
  {
    BitdepthSign(size);
    var n := size - 2;
    if IsMessageCell(n, i, j) {
      MsgIndexBounds(n, i, j);
    }
  }

  /** Every marker is black and white with a black outer ring. */
  lemma {:induction false} EncodedGridBinary(id: nat, size: nat)
    requires size >= 4
    ensures IsBinary(EncodedGrid(id, size)) && BorderBlack(EncodedGrid(id, size))
  {
    BitdepthSign(size);
    var bits := Bits(id, Bitdepth(size));
    var g := EncodedGrid(id, size);
    forall i, j | 0 <= i < size && 0 <= j < size
      ensures g[i][j] == 0 || g[i][j] == 1
    {
      CellBinary(size, bits, i, j);
    }
  }

  /** The orientation feature: three interior corners agree and the
      bottom-left one, which holds the id's top bit, differs. */
  lemma {:induction false} EncodedOrientation(id: nat, size: nat)
    requires size >= 4 && !Overflows(id, Bitdepth(size))
    ensures Bitdepth(size) >= 1
    ensures var g := EncodedGrid(id, size); var n := size - 2;
            && g[1][1] == g[1][n] == g[n][n] == 1 - g[n][1]
            && g[n][1] == if id >= Pow2(Bitdepth(size) - 1) then 1 else 0
  {
    BitdepthSign(size);
    var g := EncodedGrid(id, size);
    var n := size - 2;
    TopBit(id, Bitdepth(size));
    assert g[n][1] == Bits(id, Bitdepth(size))[0];
  }

  /** Remaining bit number k (bit 1 + k of the id, counted from the most
      significant) is in cell MessageCell(k). */
  lemma {:induction false} EncodedMessageBit(id: nat, size: nat, k: nat)
    requires size >= 4 && k < Bitdepth(size) - 1
    ensures var c := MessageCell(size - 2, k);
            EncodedGrid(id, size)[c.0][c.1] == Bits(id, Bitdepth(size))[1 + k]
  {
    BitdepthSign(size);
    var bits := Bits(id, Bitdepth(size));
    assert EncodedGrid(id, size) == MarkerGrid(size, bits);
    MarkerMessageBit(size, bits, k);
  }

  lemma {:induction false} MarkerMessageBit(size: nat, bits: seq<int>, k: nat)
    requires size >= 4 && |bits| == Bitdepth(size) && k < Bitdepth(size) - 1
    ensures var c := MessageCell(size - 2, k);
            MarkerGrid(size, bits)[c.0][c.1] == bits[1 + k]
  {
    BitdepthSign(size);
    var c := MessageCell(size - 2, k);
    assert MarkerGrid(size, bits)[c.0][c.1] == CellValue(size, bits, c.0, c.1);
  }

  // ---------------------------------------------------------------------
  // Decoding a 3x3 interior

  datatype Decoded = Decoded(id: nat, rotations: nat)

  predicate IsInnerGrid(g: seq<seq<int>>) {
    IsSquare(g) && |g| == 3 && IsBinary(g)
  }

  /** The orientation cells, in the order top-left, top-right, bottom-right,
      bottom-left. */
  function OrientationCorners(g: seq<seq<int>>): (c: seq<int>)
    requires IsInnerGrid(g)
    ensures |c| == 4 && forall k :: 0 <= k < 4 ==> c[k] == 0 || c[k] == 1
  {
    [g[0][0], g[0][2], g[2][2], g[2][0]]
  }

  /** The quarter turns that bring the black corner of a three-white,
      one-black corner pattern to the bottom left. */
  function RotationsFor(c: seq<int>): (r: nat)
    requires |c| == 4
  {
    if c[0] == 0 then 3
    else if c[3] == 0 then 0
    else if c[2] == 0 then 1
    else 2
  }

  /** What the four corner cells say: the id's top bit (the parity) and the
      number of quarter turns that normalise the grid, or None unless the
      corners are three of one colour and one of the other. */
  function Orientation(c: seq<int>): (r: Option<(nat, nat)>)
    requires |c| == 4
    ensures r.Some? ==> r.value.0 <= 1 && r.value.1 < 4
  {
    var sum := c[0] + c[1] + c[2] + c[3];
    if sum == 3 || sum == 1 then
      var parity := if sum == 3 then 0 else 1;
      var normal := if sum == 3 then c else [1 - c[0], 1 - c[1], 1 - c[2], 1 - c[3]];
      Some((parity, RotationsFor(normal)))
    else
      None
  }

  /** Cell (i, j) of the 3x3 grid `g` after k quarter turns clockwise,
      read straight from `g`. */
  function TurnedCell(g: seq<seq<int>>, k: nat, i: nat, j: nat): (r: int)
    requires IsInnerGrid(g) && k < 4 && i < 3 && j < 3
  {
    if k == 0 then g[i][j]
    else if k == 1 then g[2 - j][i]
    else if k == 2 then g[2 - i][2 - j]
    else g[j][2 - i]
  }

  /** The id whose top bit is `parity` and whose other five bits are the
      non-corner cells of `g`, turned k times, in row-major order. */
  function PayloadId(parity: nat, g: seq<seq<int>>, k: nat): (r: nat)
    requires parity <= 1 && IsInnerGrid(g) && k < 4
  {
    ((((parity * 2 + TurnedCell(g, k, 0, 1)) * 2 + TurnedCell(g, k, 1, 0)) * 2
      + TurnedCell(g, k, 1, 1)) * 2 + TurnedCell(g, k, 1, 2)) * 2 + TurnedCell(g, k, 2, 1)
  }

  /** The decode half of `getMarker`: the id and the number of quarter
      turns that normalise the grid, or None when the orientation corners
      are not three of one colour and one of the other. */
  function DecodeInner(g: seq<seq<int>>): (r: Option<Decoded>)
    requires IsInnerGrid(g)
    ensures r.Some? ==> r.value.rotations < 4
  {
    match Orientation(OrientationCorners(g))
    case None => None
    case Some((parity, rotations)) => Some(Decoded(PayloadId(parity, g, rotations), rotations))
  }

  /** TurnedCell is the cell of the grid turned by RotateN. */
  lemma {:induction false} TurnedCellIsRotateN(g: seq<seq<int>>, k: nat, i: nat, j: nat)
    requires IsInnerGrid(g) && k < 4 && i < 3 && j < 3
    ensures TurnedCell(g, k, i, j) == RotateN(g, k)[i][j]
  {
    assert RotateN(g, 1) == Rotated(g);
    assert RotateN(g, 2) == Rotated(Rotated(g));
    if k == 2 {
      HalfTurn(g, i, j);
    } else if k == 3 {
      assert RotateN(g, 3) == Rotated(Rotated(Rotated(g)));
      HalfTurn(g, 2 - j, i);
    }
  }

  /** What `getMarker` does after reading the corners: turn the grid
      `rotations` times and read the five payload cells. */
  lemma {:induction false} DecodeReadsTurnedGrid(g: seq<seq<int>>)
    requires IsInnerGrid(g) && DecodeInner(g).Some?
    ensures var d := DecodeInner(g).value; var t := RotateN(g, d.rotations);
            IsInnerGrid(t)
            && d.id == ((((Orientation(OrientationCorners(g)).value.0 * 2 + t[0][1]) * 2 + t[1][0]) * 2 + t[1][1]) * 2 + t[1][2]) * 2 + t[2][1]
  {
    var k := DecodeInner(g).value.rotations;
    TurnedCellIsRotateN(g, k, 0, 1);
    TurnedCellIsRotateN(g, k, 1, 0);
    TurnedCellIsRotateN(g, k, 1, 1);
    TurnedCellIsRotateN(g, k, 1, 2);
    TurnedCellIsRotateN(g, k, 2, 1);
  }

  /** The payload is read from the grid turned k times, row by row. */
  lemma {:induction false} PayloadOfTurned(g: seq<seq<int>>, parity: nat, k: nat, t: seq<seq<int>>)
    requires parity <= 1 && IsInnerGrid(g) && k < 4 && t == RotateN(g, k)
    ensures |t| == 3 && |t[0]| == 3 && |t[1]| == 3 && |t[2]| == 3
    ensures PayloadId(parity, g, k) == ((((parity * 2 + t[0][1]) * 2 + t[1][0]) * 2 + t[1][1]) * 2 + t[1][2]) * 2 + t[2][1]
  {
    TurnedCellIsRotateN(g, k, 0, 1);
    TurnedCellIsRotateN(g, k, 1, 0);
    TurnedCellIsRotateN(g, k, 1, 1);
    TurnedCellIsRotateN(g, k, 1, 2);
    TurnedCellIsRotateN(g, k, 2, 1);
  }

  /** Decoding fails exactly when the four orientation cells sum to 0, 2 or 4. */
  lemma {:induction false} DecodeRejects(g: seq<seq<int>>)
    requires IsInnerGrid(g)
    ensures var c := OrientationCorners(g);
            DecodeInner(g).None? <==> c[0] + c[1] + c[2] + c[3] in {0, 2, 4}
  {
    var c := OrientationCorners(g);
    assert 0 <= c[0] + c[1] + c[2] + c[3] <= 4;
  }

  /** Every decoded id fits in six bits. */
  lemma {:induction false} DecodedIdBound(g: seq<seq<int>>)
    requires IsInnerGrid(g) && DecodeInner(g).Some?
    ensures DecodeInner(g).value.id < 64
  {
    var o := Orientation(OrientationCorners(g)).value;
    assert TurnedCell(g, o.1, 0, 1) <= 1 && TurnedCell(g, o.1, 1, 0) <= 1 && TurnedCell(g, o.1, 1, 1) <= 1
        && TurnedCell(g, o.1, 1, 2) <= 1 && TurnedCell(g, o.1, 2, 1) <= 1;
  }

  /** The 3x3 interior that carries six bits b0 (the top bit) .. b5. */
  function InnerLayout(b: seq<int>): (g: seq<seq<int>>)
    requires |b| == 6
  {
    [[1 - b[0], b[1], 1 - b[0]],
     [b[2],     b[3], b[4]],
     [b[0],     b[5], 1 - b[0]]]
  }

  /** A message cell of the size-5 marker holds remaining bit k. */
  lemma {:induction false} FiveMessageCell(b: seq<int>, i: nat, j: nat, k: nat)
    requires |b| == 6 && IsMessageCell(3, i, j) && RowStart(3, i) + InRow(3, i, j) == k
    ensures Bitdepth(5) == 6 && k < 5
    ensures CellValue(5, b, i, j) == b[1 + k]
  {
    assert Bitdepth(5) == 6;
    MsgIndexBounds(3, i, j);
  }

  /** An orientation cell of the size-5 marker holds the top bit or its complement. */
  lemma {:induction false} FiveOrientationCell(b: seq<int>, i: nat, j: nat)
    requires |b| == 6 && IsOrientationCell(3, i, j)
    ensures Bitdepth(5) == 6
    ensures CellValue(5, b, i, j) == if i == 3 && j == 1 then b[0] else 1 - b[0]
  {
    assert Bitdepth(5) == 6;
  }

  /** The interior of the size-5 marker that carries `b` is laid out as
      InnerLayout says. */
  lemma {:induction false} InnerFiveBits(b: seq<int>)
    requires |b| == 6
    ensures Bitdepth(5) == 6
    ensures Inner(MarkerGrid(5, b)) == InnerLayout(b)
  {
    assert Bitdepth(5) == 6;
    var m := MarkerGrid(5, b);
    FiveOrientationCell(b, 1, 1);
    FiveOrientationCell(b, 1, 3);
    FiveOrientationCell(b, 3, 1);
    FiveOrientationCell(b, 3, 3);
    FiveMessageCell(b, 1, 2, 0);
    FiveMessageCell(b, 2, 1, 1);
    FiveMessageCell(b, 2, 2, 2);
    FiveMessageCell(b, 2, 3, 3);
    FiveMessageCell(b, 3, 2, 4);
    assert Inner(m)[0] == [m[1][1], m[1][2], m[1][3]];
    assert Inner(m)[1] == [m[2][1], m[2][2], m[2][3]];
    assert Inner(m)[2] == [m[3][1], m[3][2], m[3][3]];
  }

  lemma {:induction false} InnerFive(id: nat)
    ensures Inner(EncodedGrid(id, 5)) == InnerLayout(Bits(id, 6))
  {
    assert Bitdepth(5) == 6;
    InnerFiveBits(Bits(id, 6));
  }

  /** A layout of binary bits decodes, unturned, to the number they denote. */
  lemma {:induction false} DecodeLayout(b: seq<int>)
    requires |b| == 6 && forall k :: 0 <= k < 6 ==> b[k] == 0 || b[k] == 1
    ensures IsInnerGrid(InnerLayout(b)) && 0 <= Value(b) < 64
    ensures DecodeInner(InnerLayout(b)) == Some(Decoded(Value(b), 0))
  {
    var g := InnerLayout(b);
    assert Orientation(OrientationCorners(g)) == Some((b[0], 0));
    ValueOfSix(b);
  }

  /** Round trip: the interior of every size-5 marker decodes to its id, unturned. */
  lemma {:induction false} RoundTrip(id: nat)
    requires id < 64
    ensures IsInnerGrid(Inner(EncodedGrid(id, 5)))
    ensures DecodeInner(Inner(EncodedGrid(id, 5))) == Some(Decoded(id, 0))
  {
    InnerFive(id);
    DecodeLayout(Bits(id, 6));
    assert Pow2(6) == 64;
    ValueOfBits(id, 6);
  }

  /** A grid decoded unturned to `id` is the interior of the marker for
      `id`: no other grid is read as that marker. */
  lemma {:induction false} OnlyEncodedDecodesUnturned(g: seq<seq<int>>, id: nat)
    requires IsInnerGrid(g) && DecodeInner(g) == Some(Decoded(id, 0))
    ensures g == Inner(EncodedGrid(id, 5))
  {
    UnturnedLayout(g, id);
    InnerFive(id);
  }

  /** Corners that need no turn are three of one colour with the other one
      at the bottom left, and that one is the parity. */
  lemma {:induction false} UnturnedCorners(c: seq<int>)
    requires |c| == 4 && forall k :: 0 <= k < 4 ==> c[k] == 0 || c[k] == 1
    requires Orientation(c).Some? && Orientation(c).value.1 == 0
    ensures var p := Orientation(c).value.0;
            c == [1 - p, 1 - p, 1 - p, p]
  {
  }

  lemma {:induction false} UnturnedLayout(g: seq<seq<int>>, id: nat)
    requires IsInnerGrid(g) && DecodeInner(g) == Some(Decoded(id, 0))
    ensures g == InnerLayout(Bits(id, 6))
  {
    var c := OrientationCorners(g);
    UnturnedCorners(c);
    var p := Orientation(c).value.0;
    PayloadBits(g, p, id);
    SameCells(g, InnerLayout(Bits(id, 6)));
  }

  /** The six bits of an unturned payload are the parity and the five
      payload cells. */
  lemma {:induction false} PayloadBits(g: seq<seq<int>>, p: nat, id: nat)
    requires IsInnerGrid(g) && p <= 1 && PayloadId(p, g, 0) == id
    ensures Bits(id, 6) == [p, g[0][1], g[1][0], g[1][1], g[1][2], g[2][1]]
  {
    var b := [p, g[0][1], g[1][0], g[1][1], g[1][2], g[2][1]];
    ValueOfSix(b);
    BitsOfValue(b);
  }

  /** A quarter turn moves each orientation corner one place clockwise. */
  lemma {:induction false} CornersOfRotated(g: seq<seq<int>>)
    requires IsInnerGrid(g)
    ensures IsInnerGrid(Rotated(g))
    ensures var c := OrientationCorners(g);
            OrientationCorners(Rotated(g)) == [c[3], c[0], c[1], c[2]]
  {
  }

  /** Moving the corners one place clockwise keeps the parity and adds
      three (modulo four) to the turns that normalise them. */
  lemma {:induction false} OrientationTurned(c: seq<int>)
    requires |c| == 4 && forall k :: 0 <= k < 4 ==> c[k] == 0 || c[k] == 1
    ensures Orientation([c[3], c[0], c[1], c[2]]) == match Orientation(c)
                                                       case None => None
                                                       case Some(o) => Some((o.0, (o.1 + 3) % 4))
  {
  }

  /** Reading a turned grid with three more turns (modulo four) reads the
      same cells. */
  lemma {:induction false} TurnedCellOfRotated(g: seq<seq<int>>, k: nat, i: nat, j: nat)
    requires IsInnerGrid(g) && k < 4 && i < 3 && j < 3
    ensures IsInnerGrid(Rotated(g)) && TurnedCell(Rotated(g), (k + 3) % 4, i, j) == TurnedCell(g, k, i, j)
  {
  }

  /** Turning a grid a quarter turn clockwise leaves its id and adds three
      (modulo four) to the turns that normalise it. */
  lemma {:induction false} DecodeRotated(g: seq<seq<int>>)
    requires IsInnerGrid(g)
    ensures IsInnerGrid(Rotated(g))
    ensures DecodeInner(Rotated(g)) == match DecodeInner(g)
                                         case None => None
                                         case Some(d) => Some(Decoded(d.id, (d.rotations + 3) % 4))
  {
    var c := OrientationCorners(g);
    CornersOfRotated(g);
    OrientationTurned(c);
    match Orientation(c)
    case None =>
    case Some(o) =>
      var k := o.1;
      TurnedCellOfRotated(g, k, 0, 1);
      TurnedCellOfRotated(g, k, 1, 0);
      TurnedCellOfRotated(g, k, 1, 1);
      TurnedCellOfRotated(g, k, 1, 2);
      TurnedCellOfRotated(g, k, 2, 1);
  }

  // ---------------------------------------------------------------------
  // Rotation invariance, in small steps. `DecodeGrid` and the `Unturned*`,
  // `UndoTurns` and `DecodeStep` lemmas below are proof steps, split so
  // that each stays cheap for the solver; together they give
  // `UnturnedRotated` and `RotatedMarkerDecodes`.

  /** Decoding any grid: None unless it is a 3x3 black-and-white interior. */
  function DecodeGrid(t: seq<seq<int>>): (r: Option<Decoded>)
    ensures r.Some? ==> IsInnerGrid(t) && DecodeInner(t) == r
  {
    if IsInnerGrid(t) then DecodeInner(t) else None
  }

  /** An interior read unturned as `id`, turned one, two or three times,
      is read as `id` with three, two or one more turns. */
  lemma {:induction false} UnturnedOneTurn(g: seq<seq<int>>, id: nat)
    requires DecodeGrid(g) == Some(Decoded(id, 0))
    ensures DecodeGrid(RotateN(g, 1)) == Some(Decoded(id, 3))
  {
    DecodeStep(g, RotateN(g, 1), id, 0, 3);
  }

  lemma {:induction false} UnturnedTwoTurns(g: seq<seq<int>>, id: nat)
    requires DecodeGrid(g) == Some(Decoded(id, 0))
    ensures DecodeGrid(RotateN(g, 2)) == Some(Decoded(id, 2))
  {
    UnturnedOneTurn(g, id);
    DecodeStep(RotateN(g, 1), RotateN(g, 2), id, 3, 2);
  }

  lemma {:induction false} UnturnedThreeTurns(g: seq<seq<int>>, id: nat)
    requires DecodeGrid(g) == Some(Decoded(id, 0))
    ensures DecodeGrid(RotateN(g, 3)) == Some(Decoded(id, 1))
  {
    UnturnedTwoTurns(g, id);
    DecodeStep(RotateN(g, 2), RotateN(g, 3), id, 2, 1);
  }

  /** Fewer than four turns of an interior read unturned: the turns the
      decoder reports undo them. */
  lemma {:induction false} UnturnedFewTurns(g: seq<seq<int>>, id: nat, k: nat)
    requires DecodeGrid(g) == Some(Decoded(id, 0)) && k < 4
    ensures DecodeGrid(RotateN(g, k)) == Some(Decoded(id, if k == 0 then 0 else 4 - k))
  {
    if k < 2 {
      UnturnedUpToOneTurn(g, id, k);
    } else {
      UnturnedTwoOrThreeTurns(g, id, k);
    }
  }

  lemma {:induction false} UnturnedUpToOneTurn(g: seq<seq<int>>, id: nat, k: nat)
    requires DecodeGrid(g) == Some(Decoded(id, 0)) && k < 2
    ensures DecodeGrid(RotateN(g, k)) == Some(Decoded(id, if k == 0 then 0 else 3))
  {
    if k == 0 {
      assert RotateN(g, 0) == g;
    } else {
      assert k == 1;
      UnturnedOneTurn(g, id);
    }
  }

  lemma {:induction false} UnturnedTwoOrThreeTurns(g: seq<seq<int>>, id: nat, k: nat)
    requires DecodeGrid(g) == Some(Decoded(id, 0)) && 2 <= k < 4
    ensures DecodeGrid(RotateN(g, k)) == Some(Decoded(id, 4 - k))
  {
    if k == 2 {
      UnturnedTwoTurns(g, id);
    } else {
      assert k == 3;
      UnturnedThreeTurns(g, id);
    }
  }

  /** The turns that undo r turns. */
  lemma {:induction false} UndoTurns(r: nat)
    ensures (4 - r % 4) % 4 == if r % 4 == 0 then 0 else 4 - r % 4
  {
  }

  /** One more quarter turn: the id stays, three turns are added. */
  lemma {:induction false} DecodeStep(h: seq<seq<int>>, t: seq<seq<int>>, id: nat, before: nat, after: nat)
    requires DecodeGrid(h) == Some(Decoded(id, before)) && t == Rotated(h) && after == (before + 3) % 4
    ensures DecodeGrid(t) == Some(Decoded(id, after))
  {
    DecodeRotated(h);
  }

  /** A grid read unturned as `id`, turned r times, is read as `id` with the
      turn undone by the reported rotations. */
  lemma {:induction false} UnturnedRotated(g: seq<seq<int>>, id: nat, r: nat)
    requires IsInnerGrid(g) && DecodeInner(g) == Some(Decoded(id, 0))
    ensures var t := RotateN(g, r);
            IsInnerGrid(t) && DecodeInner(t) == Some(Decoded(id, (4 - r % 4) % 4))
  {
    RotateNMod4(g, r);
    UnturnedFewTurns(g, id, r % 4);
    UndoTurns(r);
  }

  /** Every quarter turn of an encoded interior decodes to its id, with the
      turn undone by the reported rotations. */
  lemma {:induction false} RotatedMarkerDecodes(id: nat, r: nat)
    requires id < 64
    ensures var g := RotateN(Inner(EncodedGrid(id, 5)), r);
            IsInnerGrid(g) && DecodeInner(g) == Some(Decoded(id, (4 - r % 4) % 4))
  {
    RoundTrip(id);
    UnturnedRotated(Inner(EncodedGrid(id, 5)), id, r);
  }

  /** The interior of the marker for id 5 (bits 000101), written out. */
  lemma {:induction false} MarkerFive()
    ensures Inner(EncodedGrid(5, 5)) == [[1, 0, 1], [0, 1, 0], [0, 1, 1]]
  {
    var bits := Bits(5, 6);
    assert bits == [0, 0, 0, 1, 0, 1];
    InnerFive(5);
  }

  /** The same interior turned once clockwise: the decoder reports three
      turns to undo it. */
  lemma {:induction false} MarkerFiveTurned()
    ensures var g := [[0, 0, 1], [1, 1, 0], [1, 0, 1]];
            IsInnerGrid(g) && g == Rotated([[1, 0, 1], [0, 1, 0], [0, 1, 1]])
            && DecodeInner(g) == Some(Decoded(5, 3))
  {
    var g := [[0, 0, 1], [1, 1, 0], [1, 0, 1]];
    SameCells(g, Rotated([[1, 0, 1], [0, 1, 0], [0, 1, 1]]));
  }
}
