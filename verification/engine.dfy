/** The generation-stepping engine over a field of `u8` states indexed `[x][y]`: neighbour
    counting under Moore or Von Neumann adjacency with open (non-wrapping) edges, the direct
    per-cell update, and the update computed from a zero-bordered kernel convolution. */
module Engine {
  import opened Wrappers
  import opened Grid
  import opened Rules

  /** A simulation: the current field, its rule, and its shape (`numx` columns of `numy`). */
  datatype Life = Life(field: seq<seq<nat>>, rules: Rule, numx: nat, numy: nat)

  /** The field has the recorded shape. */
  predicate Valid(l: Life) {
    IsShape(l.field, l.numx, l.numy)
  }

  /** Additionally the alive state is at least 1 and every cell lies between dead (0) and
      alive (`state`), so every cell fits a `u8`. */
  predicate WellFormed(l: Life) {
    Valid(l) && l.rules.state >= 1
    && forall x, y | 0 <= x < l.numx && 0 <= y < l.numy :: l.field[x][y] <= l.rules.state
  }

  /** Builds a simulation from a field and a rule, reading the shape off the field. */
  function NewLife(field: seq<seq<nat>>, numx: nat, numy: nat, rules: Rule): (l: Life)
    requires IsShape(field, numx, numy)
    ensures Valid(l) && l.field == field && l.rules == rules
    ensures l.numx == numx && l.numy == numy
  {
    Life(field, rules, numx, numy)
  }

  /** The state at `(x, y)`, or `None` off the field. */
  function Cell(l: Life, x: nat, y: nat): (r: Option<nat>)
    requires Valid(l)
    ensures r.Some? <==> x < l.numx && y < l.numy
    ensures r.Some? ==> r.value == l.field[x][y]
  {
    if x < l.numx && y < l.numy then Some(l.field[x][y]) else None
  }

  /** 1 where a cell is alive (equal to `state`), 0 elsewhere. */
  function AliveMask(field: seq<seq<nat>>, state: nat): (m: seq<seq<nat>>)
    ensures |m| == |field| && forall x | 0 <= x < |field| :: |m[x]| == |field[x]|
    ensures IsMask(m)
    ensures forall x, y | 0 <= x < |field| && 0 <= y < |field[x]| ::
      m[x][y] == if field[x][y] == state then 1 else 0
  {
    seq(|field|, x requires 0 <= x < |field| =>
      seq(|field[x]|, y requires 0 <= y < |field[x]| => if field[x][y] == state then 1 else 0))
  }

  /** The convolution kernel of a neighbour mode. */
  function KernelOf(n: NeighborRule): (k: Kernel)
    ensures forall i, j | 0 <= i < 3 && 0 <= j < 3 ::
      k[i][j] <= 1 && (k[i][j] == 1 <==> (i != 1 || j != 1) && (n == Moore || i == 1 || j == 1))
  {
    match n
    case Moore => MooreKernel
    case VonNeumann => VonNeumannKernel
  }

  /** Neither kernel sees more than eight alive cells. */
  lemma KernelCountBounded(m: seq<seq<nat>>, n: NeighborRule, x: int, y: int)
    requires IsMask(m)
    ensures ConvolveAt(m, KernelOf(n), x, y) <= 8
    ensures n == VonNeumann ==> ConvolveAt(m, KernelOf(n), x, y) <= 4
  {
    if n == Moore { MooreAtMostEight(m, x, y); } else { VonNeumannAtMostFour(m, x, y); }
  }

  /** Moore count as the source takes it: the alive cells of the 3x3 slice clipped to the
      field, minus the centre if it is alive. It is the Moore convolution of the alive mask. */
  function MooreCount(l: Life, x: nat, y: nat): (r: nat)
    requires Valid(l) && x < l.numx && y < l.numy
    ensures r == ConvolveAt(AliveMask(l.field, l.rules.state), MooreKernel, x, y)
    ensures r <= 8
  {
    var m := AliveMask(l.field, l.rules.state);
    ClippedSliceIsBlock(m, l.numx, l.numy, x, y);
    MooreIsBlockWithoutCentre(m, x, y);
    MooreAtMostEight(m, x, y);
    SliceSum(m, ClipLow(x), ClipHigh(x, l.numx), ClipLow(y), ClipHigh(y, l.numy)) - m[x][y]
  }

  /** 1 for a present alive cell, 0 for a present other cell or a missing one. */
  function Hit(c: Option<nat>, state: nat): nat {
    if c.Some? && c.value == state then 1 else 0
  }

  /** Von Neumann count as the source takes it: each of the four axis neighbours that exists
      and is alive. It is the plus-kernel convolution of the alive mask. */
  function VonNeumannCount(l: Life, x: nat, y: nat): (r: nat)
    requires Valid(l) && x < l.numx && y < l.numy
    ensures r == ConvolveAt(AliveMask(l.field, l.rules.state), VonNeumannKernel, x, y)
    ensures r <= 4
  {
    var m := AliveMask(l.field, l.rules.state);
    VonNeumannIsAxisSum(m, x, y);
    VonNeumannAtMostFour(m, x, y);
    var state := l.rules.state;
    (if x != 0 then Hit(Cell(l, x - 1, y), state) else 0)
    + Hit(Cell(l, x + 1, y), state)
    + (if y != 0 then Hit(Cell(l, x, y - 1), state) else 0)
    + Hit(Cell(l, x, y + 1), state)
  }

  /** The number of alive neighbours of `(x, y)` under the rule's neighbour mode. */
  function CountLivingNeighbors(l: Life, x: nat, y: nat): (r: nat)
    requires Valid(l) && x < l.numx && y < l.numy
    ensures r == ConvolveAt(AliveMask(l.field, l.rules.state), KernelOf(l.rules.neighbor), x, y)
    ensures r <= 8
    ensures l.rules.neighbor == VonNeumann ==> r <= 4
  {
    match l.rules.neighbor
    case Moore => MooreCount(l, x, y)
    case VonNeumann => VonNeumannCount(l, x, y)
  }

  /** One step of decay: `v - 1`, but 0 stays 0. */
  function SatDec(v: nat): nat {
    if v != 0 then v - 1 else 0
  }

  /** The direct update of one cell: alive when the count gives birth, or when it was alive
      and the count lets it survive; otherwise one step further towards dead. */
  function StdCell(prev: nat, count: nat, r: Rule): (v: nat)
    requires count < 9
    ensures v == r.state || v == SatDec(prev)
    ensures prev <= r.state ==> v <= r.state
    ensures r.birth[count] ==> v == r.state
  {
    if r.birth[count] || (prev == r.state && r.survival[count]) then r.state else SatDec(prev)
  }

  /** The direct update of the cell at `(x, y)`, read from the previous generation only. */
  function NextStdAt(l: Life, x: nat, y: nat): nat
    requires Valid(l) && x < l.numx && y < l.numy
  {
    StdCell(l.field[x][y], CountLivingNeighbors(l, x, y), l.rules)
  }

  /** The direct update of the whole field, every cell read from the previous generation. */
  function NextGenerationStd(l: Life): (l': Life)
    requires Valid(l)
    ensures Valid(l') && l'.numx == l.numx && l'.numy == l.numy && l'.rules == l.rules
    ensures forall x, y | 0 <= x < l.numx && 0 <= y < l.numy :: l'.field[x][y] == NextStdAt(l, x, y)
  {
    l.(field := seq(l.numx, x requires 0 <= x < l.numx =>
      seq(l.numy, y requires 0 <= y < l.numy => NextStdAt(l, x, y))))
  }

  /** A `numx` by `numy` field of dead cells (`Array2::default`). */
  function Zeros(numx: nat, numy: nat): (z: seq<seq<nat>>)
    ensures IsShape(z, numx, numy)
    ensures forall x, y | 0 <= x < numx && 0 <= y < numy :: z[x][y] == 0
  {
    seq(numx, x => seq(numy, y => 0))
  }

  /** The work of one cell of the direct step on a buffer column that still holds 0 there:
      write `state` on birth or survival, else the old value decremented when it is non-zero. */
  method UpdateStdCell(l: Life, x: nat, y: nat, column: seq<nat>) returns (column': seq<nat>)
    requires Valid(l) && x < l.numx && y < l.numy && |column| == l.numy && column[y] == 0
    ensures column' == column[y := NextStdAt(l, x, y)]
  {
    var count := CountLivingNeighbors(l, x, y);
    var prev := l.field[x][y];
    column' := column;
    if l.rules.birth[count] || (prev == l.rules.state && l.rules.survival[count]) {
      column' := column[y := l.rules.state];
    } else if prev != 0 {
      column' := column[y := prev - 1];
    }
  }

  /** The direct step as the source performs it: a fresh all-dead buffer filled cell by cell,
      each cell reading only the previous generation, so the order of the cells is immaterial. */
  method ComputeNextGenerationStd(l: Life) returns (l': Life)
    requires Valid(l)
    ensures l' == NextGenerationStd(l)
  {
    ghost var want := NextGenerationStd(l).field;
    var temp := Zeros(l.numx, l.numy);
    var x := 0;
    while x < l.numx
      invariant 0 <= x <= l.numx
      invariant IsShape(temp, l.numx, l.numy)
      invariant forall i | 0 <= i < x :: temp[i] == want[i]
      invariant forall i, j | x <= i < l.numx && 0 <= j < l.numy :: temp[i][j] == 0
    {
      var column := temp[x];
      var y := 0;
      while y < l.numy
        invariant 0 <= y <= l.numy
        invariant |column| == l.numy
        invariant forall j | 0 <= j < y :: column[j] == want[x][j]
        invariant forall j | y <= j < l.numy :: column[j] == 0
      {
        column := UpdateStdCell(l, x, y, column);
        y := y + 1;
      }
      temp := temp[x := column];
      x := x + 1;
    }
    l' := l.(field := temp);
  }

  /** The convolution update of one cell, with `u8` arithmetic as the source writes it:
      `alive * survive + dec(prev * (1 - survive))`, then `+ (state - that) * birth`. Birth
      always gives `state`; no survival decays the cell; survival without birth yields 1 for
      an alive cell and 0 for any other. */
  function ConvCell(prev: nat, count: nat, r: Rule): (v: nat)
    requires count < 9 && 1 <= r.state && prev <= r.state
    ensures v <= r.state
    ensures r.birth[count] ==> v == r.state
    ensures !r.birth[count] && !r.survival[count] ==> v == SatDec(prev)
    ensures !r.birth[count] && r.survival[count] ==> v == if prev == r.state then 1 else 0
  {
    var alive: u8 := if prev == r.state then 1 else 0;
    var survive: u8 := if r.survival[count] then 1 else 0;
    var born: u8 := if r.birth[count] then 1 else 0;
    var kept: u8 := alive * survive + SatDec(prev * (1 - survive));
    var gap: u8 := r.state - kept;
    kept + gap * born
  }

  /** The convolved alive mask: every cell's neighbour count, computed at once. */
  function ConvolvedCounts(l: Life): (counts: seq<seq<nat>>)
    requires Valid(l)
    ensures IsShape(counts, l.numx, l.numy)
    ensures forall x, y | 0 <= x < l.numx && 0 <= y < l.numy ::
      counts[x][y] == ConvolveAt(AliveMask(l.field, l.rules.state), KernelOf(l.rules.neighbor), x, y)
      && counts[x][y] <= 8
  {
    var m := AliveMask(l.field, l.rules.state);
    var counts := Convolve(m, KernelOf(l.rules.neighbor), l.numx, l.numy);
    assert forall x, y | 0 <= x < l.numx && 0 <= y < l.numy :: counts[x][y] <= 8 by {
      forall x, y | 0 <= x < l.numx && 0 <= y < l.numy ensures counts[x][y] <= 8 {
        KernelCountBounded(m, l.rules.neighbor, x, y);
      }
    }
    counts
  }

  /** The convolution step: count alive neighbours of every cell at once by convolving the
      alive mask with the mode's kernel under a zero border, then update each cell from its
      prev value and its count. */
  function NextGenerationConv(l: Life): (l': Life)
    requires WellFormed(l)
    ensures WellFormed(l') && l'.numx == l.numx && l'.numy == l.numy && l'.rules == l.rules
    ensures forall x, y | 0 <= x < l.numx && 0 <= y < l.numy ::
      l'.field[x][y] == ConvCell(l.field[x][y], ConvolvedCounts(l)[x][y], l.rules)
  {
    var counts := ConvolvedCounts(l);
    l.(field := seq(l.numx, x requires 0 <= x < l.numx =>
      seq(l.numy, y requires 0 <= y < l.numy => ConvCell(l.field[x][y], counts[x][y], l.rules))))
  }
}
