/** Rectangular fields indexed `[x][y]`, the clipped slice sums the direct engines take over a
    cell's 3x3 block, and the zero-bordered 3x3 convolution the convolution engines use instead. */
module Grid {

  /** `g` has `numx` columns (first index) of `numy` cells each (second index). */
  predicate IsShape<T>(g: seq<seq<T>>, numx: nat, numy: nat) {
    |g| == numx && forall x | 0 <= x < numx :: |g[x]| == numy
  }

  /** Every entry is 0 or 1: the shape of an "is alive" field. */
  predicate IsMask(m: seq<seq<nat>>) {
    forall x, y | 0 <= x < |m| && 0 <= y < |m[x]| :: m[x][y] <= 1
  }

  /** The value at `(x, y)` under a constant-zero border: outside the field reads as 0. */
  function Pad(m: seq<seq<nat>>, x: int, y: int): nat {
    if 0 <= x < |m| && 0 <= y < |m[x]| then m[x][y] else 0
  }

  /** Lower end of the clipped window around `i` (`if i > 1 { i - 1 } else { 0 }`). */
  function ClipLow(i: nat): (lo: nat)
    ensures lo <= i && i - lo <= 1
    ensures i >= 1 ==> lo == i - 1
  {
    if i > 1 then i - 1 else 0
  }

  /** Upper (exclusive) end of the clipped window around `i < n` (`if i + 1 < n { i + 2 } else { n }`). */
  function ClipHigh(i: nat, n: nat): (hi: nat)
    requires i < n
    ensures i < hi <= n && hi <= i + 2
    ensures i + 1 < n ==> hi == i + 2
  {
    if i + 1 < n then i + 2 else n
  }

  /** Sum of `row[lo..hi]`. */
  function RowSum(row: seq<nat>, lo: nat, hi: nat): nat
    requires lo <= hi <= |row|
    decreases hi - lo
  {
    if lo == hi then 0 else row[lo] + RowSum(row, lo + 1, hi)
  }

  /** Sum of the slice `m[x0..x1, y0..y1]`. */
  function SliceSum(m: seq<seq<nat>>, x0: nat, x1: nat, y0: nat, y1: nat): nat
    requires x0 <= x1 <= |m| && y0 <= y1
    requires forall x | x0 <= x < x1 :: y1 <= |m[x]|
    decreases x1 - x0
  {
    if x0 == x1 then 0 else RowSum(m[x0], y0, y1) + SliceSum(m, x0 + 1, x1, y0, y1)
  }

  /** Padded sum of the three cells `(x, y-1)`, `(x, y)`, `(x, y+1)`. */
  function Triple(m: seq<seq<nat>>, x: int, y: int): nat {
    Pad(m, x, y - 1) + Pad(m, x, y) + Pad(m, x, y + 1)
  }

  /** Padded sum of the full 3x3 block centred on `(x, y)`, centre included. */
  function Block(m: seq<seq<nat>>, x: int, y: int): nat {
    Triple(m, x - 1, y) + Triple(m, x, y) + Triple(m, x + 1, y)
  }

  /** Summing one row over the clipped window around `y` is summing the three padded cells. */
  lemma RowWindow(m: seq<seq<nat>>, x: nat, y: nat)
    requires x < |m| && y < |m[x]|
    ensures RowSum(m[x], ClipLow(y), ClipHigh(y, |m[x]|)) == Triple(m, x, y)
  {
    var row, lo, hi := m[x], ClipLow(y), ClipHigh(y, |m[x]|);
    assert RowSum(row, hi, hi) == 0;
    if y >= 1 && y + 1 < |row| {
      assert RowSum(row, y + 1, hi) == row[y + 1];
      assert RowSum(row, y, hi) == row[y] + row[y + 1];
    } else if y >= 1 {
      assert RowSum(row, y, hi) == row[y];
    } else if y + 1 < |row| {
      assert RowSum(row, y + 1, hi) == row[y + 1];
    }
  }

  /** The clipped slice around an in-bounds cell, as the direct engines sum it, equals the
      zero-bordered 3x3 block: clipping omits exactly the cells the border would read as 0. */
  lemma {:induction false} ClippedSliceIsBlock(m: seq<seq<nat>>, numx: nat, numy: nat, x: nat, y: nat)
    requires IsShape(m, numx, numy) && x < numx && y < numy
    ensures SliceSum(m, ClipLow(x), ClipHigh(x, numx), ClipLow(y), ClipHigh(y, numy)) == Block(m, x, y)
  {
    var lo, hi, y0, y1 := ClipLow(x), ClipHigh(x, numx), ClipLow(y), ClipHigh(y, numy);
    forall r | lo <= r < hi
      ensures RowSum(m[r], y0, y1) == Triple(m, r, y)
    {
      RowWindow(m, r, y);
    }
    assert SliceSum(m, hi, hi, y0, y1) == 0;
    if x >= 1 && x + 1 < numx {
      assert SliceSum(m, x + 1, hi, y0, y1) == Triple(m, x + 1, y);
      assert SliceSum(m, x, hi, y0, y1) == Triple(m, x, y) + Triple(m, x + 1, y);
    } else if x >= 1 {
      assert Triple(m, x + 1, y) == 0;
      assert SliceSum(m, x, hi, y0, y1) == Triple(m, x, y);
    } else if x + 1 < numx {
      assert Triple(m, x - 1, y) == 0;
      assert SliceSum(m, x + 1, hi, y0, y1) == Triple(m, x + 1, y);
    } else {
      assert Triple(m, x - 1, y) == 0 && Triple(m, x + 1, y) == 0;
    }
  }

  /** A 3x3 kernel of non-negative weights, centre at `[1][1]`. */
  type Kernel = k: seq<seq<nat>> | |k| == 3 && forall i | 0 <= i < 3 :: |k[i]| == 3
    witness [[0, 0, 0], [0, 0, 0], [0, 0, 0]]

  /** All eight surrounding cells. */
  const MooreKernel: Kernel := [[1, 1, 1], [1, 0, 1], [1, 1, 1]]

  /** The four axis-adjacent cells. */
  const VonNeumannKernel: Kernel := [[0, 1, 0], [1, 0, 1], [0, 1, 0]]

  /** One kernel tap of the convolution at `(x, y)`: the kernel is flipped, so weight `k[i][j]`
      meets the input at `(x + 1 - i, y + 1 - j)`. */
  function Tap(m: seq<seq<nat>>, k: Kernel, x: int, y: int, i: nat, j: nat): nat
    requires i < 3 && j < 3
  {
    k[i][j] * Pad(m, x + 1 - i, y + 1 - j)
  }

  /** Output of a 3x3 convolution with a constant-zero border at `(x, y)`. */
  function ConvolveAt(m: seq<seq<nat>>, k: Kernel, x: int, y: int): nat {
    Tap(m, k, x, y, 0, 0) + Tap(m, k, x, y, 0, 1) + Tap(m, k, x, y, 0, 2)
    + Tap(m, k, x, y, 1, 0) + Tap(m, k, x, y, 1, 1) + Tap(m, k, x, y, 1, 2)
    + Tap(m, k, x, y, 2, 0) + Tap(m, k, x, y, 2, 1) + Tap(m, k, x, y, 2, 2)
  }

  /** The whole convolved field, of the same shape as the input. */
  function Convolve(m: seq<seq<nat>>, k: Kernel, numx: nat, numy: nat): (c: seq<seq<nat>>)
    ensures IsShape(c, numx, numy)
    ensures forall x, y | 0 <= x < numx && 0 <= y < numy :: c[x][y] == ConvolveAt(m, k, x, y)
  {
    seq(numx, x => seq(numy, y => ConvolveAt(m, k, x, y)))
  }

  /** The Moore kernel sums the 3x3 block without its centre. */
  lemma MooreIsBlockWithoutCentre(m: seq<seq<nat>>, x: int, y: int)
    ensures ConvolveAt(m, MooreKernel, x, y) + Pad(m, x, y) == Block(m, x, y)
  {
  }

  /** On a 0/1 field the Moore convolution counts at most the eight surrounding cells. */
  lemma MooreAtMostEight(m: seq<seq<nat>>, x: int, y: int)
    requires IsMask(m)
    ensures ConvolveAt(m, MooreKernel, x, y) <= 8
  {
    MooreIsBlockWithoutCentre(m, x, y);
  }

  /** The Von Neumann kernel sums the four axis-adjacent cells. */
  lemma VonNeumannIsAxisSum(m: seq<seq<nat>>, x: int, y: int)
    ensures ConvolveAt(m, VonNeumannKernel, x, y)
         == Pad(m, x - 1, y) + Pad(m, x + 1, y) + Pad(m, x, y - 1) + Pad(m, x, y + 1)
  {
  }

  /** On a 0/1 field the Von Neumann convolution counts at most four cells. */
  lemma VonNeumannAtMostFour(m: seq<seq<nat>>, x: int, y: int)
    requires IsMask(m)
    ensures ConvolveAt(m, VonNeumannKernel, x, y) <= 4
  {
    VonNeumannIsAxisSum(m, x, y);
  }

  /** How many of `i - 1`, `i`, `i + 1` lie in `[0, n)`, for `i` inside it: the width of the
      clipped window. */
  function Span(i: nat, n: nat): (k: nat)
    requires i < n
    ensures 1 <= k <= 3
    ensures k == ClipHigh(i, n) - ClipLow(i)
  {
    (if i >= 1 then 1 else 0) + 1 + (if i + 1 < n then 1 else 0)
  }

  /** A field whose every cell is 1. */
  predicate AllOnes(m: seq<seq<nat>>, numx: nat, numy: nat) {
    IsShape(m, numx, numy) && forall x, y | 0 <= x < numx && 0 <= y < numy :: m[x][y] == 1
  }

  /** On an all-ones field the padded column of three around an in-bounds `y` holds `Span(y)`
      ones when column `x` exists, and none when it does not. */
  lemma TripleOnOnes(m: seq<seq<nat>>, numx: nat, numy: nat, x: int, y: nat)
    requires AllOnes(m, numx, numy) && y < numy
    ensures Triple(m, x, y) == if 0 <= x < numx then Span(y, numy) else 0
  {
  }

  /** On an all-ones field a cell sees `Span(x) * Span(y) - 1` Moore neighbours and
      `Span(x) + Span(y) - 2` Von Neumann neighbours: the clipped window less the centre. */
  lemma ConvolveOnOnes(m: seq<seq<nat>>, numx: nat, numy: nat, x: nat, y: nat)
    requires AllOnes(m, numx, numy) && x < numx && y < numy
    ensures ConvolveAt(m, MooreKernel, x, y) == Span(x, numx) * Span(y, numy) - 1
    ensures ConvolveAt(m, VonNeumannKernel, x, y) == Span(x, numx) + Span(y, numy) - 2
  {
    MooreIsBlockWithoutCentre(m, x, y);
    VonNeumannIsAxisSum(m, x, y);
    TripleOnOnes(m, numx, numy, x - 1, y);
    TripleOnOnes(m, numx, numy, x, y);
    TripleOnOnes(m, numx, numy, x + 1, y);
    var sy := Span(y, numy);
    assert Span(x, numx) * sy
        == (if x >= 1 then sy else 0) + sy + (if x + 1 < numx then sy else 0);
  }

  /** Two 3x3 fields with the same nine cells are equal. */
  lemma SameCells3<T>(a: seq<seq<T>>, b: seq<seq<T>>)
    requires |a| == 3 && |a[0]| == 3 && |a[1]| == 3 && |a[2]| == 3
    requires |b| == 3 && |b[0]| == 3 && |b[1]| == 3 && |b[2]| == 3
    requires a[0][0] == b[0][0] && a[0][1] == b[0][1] && a[0][2] == b[0][2]
    requires a[1][0] == b[1][0] && a[1][1] == b[1][1] && a[1][2] == b[1][2]
    requires a[2][0] == b[2][0] && a[2][1] == b[2][1] && a[2][2] == b[2][2]
    ensures a == b
  {
    assert a[0] == b[0];
    assert a[1] == b[1];
    assert a[2] == b[2];
  }
}
