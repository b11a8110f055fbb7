/** The older two-state engine: a field of booleans stepped by Conway's rule (born on 3,
    survive on 2 or 3, Moore adjacency), either directly or from a convolution of the field. */
module Classic {
  import opened Grid
  import Rules
  import Engine
  import Strategies

  /** A two-state simulation: the field and its shape. */
  datatype Classic = Classic(field: seq<seq<bool>>, numx: nat, numy: nat)

  /** The field has the recorded shape. */
  predicate Valid(c: Classic) {
    IsShape(c.field, c.numx, c.numy)
  }

  /** The state at `(x, y)`; the source indexes directly, so the cell must exist. */
  function Cell(c: Classic, x: nat, y: nat): (alive: bool)
    requires Valid(c) && x < c.numx && y < c.numy
    ensures alive <==> Bits(c.field)[x][y] == 1
  {
    c.field[x][y]
  }

  /** The field as 0/1 numbers (`x as u8`). */
  function Bits(field: seq<seq<bool>>): (m: seq<seq<nat>>)
    ensures |m| == |field| && forall x | 0 <= x < |field| :: |m[x]| == |field[x]|
    ensures IsMask(m)
    ensures forall x, y | 0 <= x < |field| && 0 <= y < |field[x]| :: m[x][y] == if field[x][y] then 1 else 0
  {
    seq(|field|, x requires 0 <= x < |field| =>
      seq(|field[x]|, y requires 0 <= y < |field[x]| => if field[x][y] then 1 else 0))
  }

  /** Alive neighbours of `(x, y)` as the source takes them: the clipped 3x3 slice summed,
      less the centre. It is the Moore convolution of the field. */
  function CountLivingNeighbors(c: Classic, x: nat, y: nat): (r: nat)
    requires Valid(c) && x < c.numx && y < c.numy
    ensures r == ConvolveAt(Bits(c.field), MooreKernel, x, y)
    ensures r <= 8
  {
    var m := Bits(c.field);
    ClippedSliceIsBlock(m, c.numx, c.numy, x, y);
    MooreIsBlockWithoutCentre(m, x, y);
    MooreAtMostEight(m, x, y);
    SliceSum(m, ClipLow(x), ClipHigh(x, c.numx), ClipLow(y), ClipHigh(y, c.numy)) - m[x][y]
  }

  /** Conway's rule for one cell: born on 3, survives on 2. Fewer than two neighbours or more
      than three always leave the cell dead. */
  function Conway(alive: bool, count: nat): (next: bool)
    ensures count < 2 || count > 3 ==> !next
    ensures count == 3 ==> next
    ensures count == 2 ==> next == alive
  {
    count == 3 || (alive && count == 2)
  }

  /** Conway's rule is the multi-state engine's default rule on the cell's 0/1 value. */
  lemma ConwayIsDefaultRule(alive: bool, count: nat)
    requires count < 9
    ensures Conway(alive, count) <==> Engine.StdCell(if alive then 1 else 0, count, Rules.DefaultRule()) == 1
    ensures !Conway(alive, count) <==> Engine.StdCell(if alive then 1 else 0, count, Rules.DefaultRule()) == 0
  {
    var d := Rules.DefaultRule();
    assert d.birth[count] <==> count == 3;
    assert d.survival[count] <==> count == 2 || count == 3;
  }

  /** The direct step: every cell of a fresh all-dead field is set alive when Conway's rule
      applied to the previous generation says so. */
  function NextGenerationStd(c: Classic): (c': Classic)
    requires Valid(c)
    ensures Valid(c') && c'.numx == c.numx && c'.numy == c.numy
    ensures forall x, y | 0 <= x < c.numx && 0 <= y < c.numy ::
      c'.field[x][y] == Conway(c.field[x][y], CountLivingNeighbors(c, x, y))
  {
    c.(field := seq(c.numx, x requires 0 <= x < c.numx =>
      seq(c.numy, y requires 0 <= y < c.numy => Conway(c.field[x][y], CountLivingNeighbors(c, x, y)))))
  }

  /** The convolution step: all counts come from one zero-bordered Moore convolution of the
      previous field, then every cell takes Conway's rule on its own count. */
  function NextGenerationConv(c: Classic): (c': Classic)
    requires Valid(c)
    ensures Valid(c') && c'.numx == c.numx && c'.numy == c.numy
    ensures forall x, y | 0 <= x < c.numx && 0 <= y < c.numy ::
      c'.field[x][y] == Conway(c.field[x][y], Convolve(Bits(c.field), MooreKernel, c.numx, c.numy)[x][y])
  {
    var counts := Convolve(Bits(c.field), MooreKernel, c.numx, c.numy);
    c.(field := seq(c.numx, x requires 0 <= x < c.numx =>
      seq(c.numy, y requires 0 <= y < c.numy => Conway(c.field[x][y], counts[x][y]))))
  }

  /** One cell of the in-place update: the column still holds the previous generation at `y`,
      and gets Conway's rule on that value and the precomputed count. */
  method UpdateCell(column: seq<bool>, y: nat, count: nat) returns (column': seq<bool>)
    requires y < |column|
    ensures column' == column[y := Conway(column[y], count)]
  {
    if count == 3 || (column[y] && count == 2) {
      column' := column[y := true];
    } else {
      column' := column[y := false];
    }
  }

  /** Overwrites column `x` in place from the precomputed counts. */
  method StepColumn(c: Classic, counts: seq<seq<nat>>, x: nat) returns (column: seq<bool>)
    requires Valid(c) && x < c.numx && counts == Convolve(Bits(c.field), MooreKernel, c.numx, c.numy)
    ensures column == NextGenerationConv(c).field[x]
  {
    ghost var want := NextGenerationConv(c).field[x];
    column := c.field[x];
    var y := 0;
    while y < c.numy
      invariant 0 <= y <= c.numy
      invariant |column| == c.numy
      invariant forall j | 0 <= j < y :: column[j] == want[j]
      invariant forall j | y <= j < c.numy :: column[j] == c.field[x][j]
    {
      column := UpdateCell(column, y, counts[x][y]);
      y := y + 1;
    }
  }

  /** The convolution step as the source performs it: the counts are computed first from the
      whole previous field, then the field is overwritten cell by cell. Each cell reads only
      its own previous value, which no earlier write has touched, so the in-place result is
      the pure convolution step. */
  method NextGenerationConvInPlace(c: Classic) returns (c': Classic)
    requires Valid(c)
    ensures c' == NextGenerationConv(c)
  {
    ghost var want := NextGenerationConv(c).field;
    var counts := Convolve(Bits(c.field), MooreKernel, c.numx, c.numy);
    var field := c.field;
    var x := 0;
    while x < c.numx
      invariant 0 <= x <= c.numx
      invariant |field| == c.numx
      invariant forall i | 0 <= i < x :: field[i] == want[i]
      invariant forall i | x <= i < c.numx :: field[i] == c.field[i]
    {
      var column := StepColumn(c, counts, x);
      field := field[x := column];
      x := x + 1;
    }
    c' := c.(field := field);
  }

  /** For every field the two steps give the same next generation. */
  lemma ConvMatchesStd(c: Classic)
    requires Valid(c)
    ensures NextGenerationConv(c) == NextGenerationStd(c)
  {
    var a, b := NextGenerationConv(c), NextGenerationStd(c);
    forall x | 0 <= x < c.numx
      ensures a.field[x] == b.field[x]
    {
      assert forall y | 0 <= y < c.numy :: a.field[x][y] == b.field[x][y];
    }
  }

  /** The same field in the general engine: alive is 1, dead is 0, under Conway's rule. */
  function Lift(c: Classic): (l: Engine.Life)
    requires Valid(c)
    ensures Engine.WellFormed(l) && l.rules == Rules.DefaultRule()
    ensures l.numx == c.numx && l.numy == c.numy
    ensures forall x, y | 0 <= x < c.numx && 0 <= y < c.numy :: (l.field[x][y] == 1 <==> c.field[x][y])
  {
    Engine.Life(Bits(c.field), Rules.DefaultRule(), c.numx, c.numy)
  }

  /** With alive = 1 the alive mask of a 0/1 field is the field itself. */
  lemma AliveMaskOfBits(field: seq<seq<bool>>)
    ensures Engine.AliveMask(Bits(field), 1) == Bits(field)
  {
    var a, b := Engine.AliveMask(Bits(field), 1), Bits(field);
    forall x | 0 <= x < |field|
      ensures a[x] == b[x]
    {
      assert forall y | 0 <= y < |field[x]| :: a[x][y] == b[x][y];
    }
  }

  /** The two-state engine is the general engine at alive = 1 under Conway's rule: stepping
      then lifting is lifting then stepping, for either strategy. */
  lemma RefinesEngine(c: Classic)
    requires Valid(c)
    ensures Lift(NextGenerationStd(c)) == Engine.NextGenerationStd(Lift(c))
    ensures Lift(NextGenerationConv(c)) == Engine.NextGenerationConv(Lift(c))
  {
    var l := Lift(c);
    var a, b := Lift(NextGenerationStd(c)), Engine.NextGenerationStd(l);
    AliveMaskOfBits(c.field);
    forall x | 0 <= x < c.numx
      ensures a.field[x] == b.field[x]
    {
      forall y | 0 <= y < c.numy
        ensures a.field[x][y] == b.field[x][y]
      {
        assert b.field[x][y] == Engine.NextStdAt(l, x, y);
        assert Engine.CountLivingNeighbors(l, x, y) == CountLivingNeighbors(c, x, y);
      }
    }
    ConvMatchesStd(c);
    Strategies.ConvMatchesStdWhenTwoState(l);
  }

  /** Every cell is alive. */
  predicate AllAlive(c: Classic) {
    Valid(c) && forall x, y | 0 <= x < c.numx && 0 <= y < c.numy :: c.field[x][y]
  }

  /** All-alive 3x3: corners see 3, edges 5, the centre 8, in the Moore convolution and in the
      clipped-slice count alike. */
  lemma CountsOnFullBlock(c: Classic)
    requires AllAlive(c) && c.numx == 3 && c.numy == 3
    ensures Convolve(Bits(c.field), MooreKernel, 3, 3) == [[3, 5, 3], [5, 8, 5], [3, 5, 3]]
    ensures forall x, y | 0 <= x < 3 && 0 <= y < 3 ::
      CountLivingNeighbors(c, x, y) == Convolve(Bits(c.field), MooreKernel, 3, 3)[x][y]
  {
    var n := Convolve(Bits(c.field), MooreKernel, 3, 3);
    assert n[0][0] == 3 by { ConvolveOnOnes(Bits(c.field), 3, 3, 0, 0); }
    assert n[0][1] == 5 by { ConvolveOnOnes(Bits(c.field), 3, 3, 0, 1); }
    assert n[0][2] == 3 by { ConvolveOnOnes(Bits(c.field), 3, 3, 0, 2); }
    assert n[1][0] == 5 by { ConvolveOnOnes(Bits(c.field), 3, 3, 1, 0); }
    assert n[1][1] == 8 by { ConvolveOnOnes(Bits(c.field), 3, 3, 1, 1); }
    assert n[1][2] == 5 by { ConvolveOnOnes(Bits(c.field), 3, 3, 1, 2); }
    assert n[2][0] == 3 by { ConvolveOnOnes(Bits(c.field), 3, 3, 2, 0); }
    assert n[2][1] == 5 by { ConvolveOnOnes(Bits(c.field), 3, 3, 2, 1); }
    assert n[2][2] == 3 by { ConvolveOnOnes(Bits(c.field), 3, 3, 2, 2); }
    SameCells3(n, [[3, 5, 3], [5, 8, 5], [3, 5, 3]]);
  }

  /** On an all-alive field a cell stays alive exactly when its clipped window less itself
      holds 2 or 3 cells. */
  lemma StdOnAllAlive(c: Classic, x: nat, y: nat)
    requires AllAlive(c) && x < c.numx && y < c.numy
    ensures NextGenerationStd(c).field[x][y] == Conway(true, Span(x, c.numx) * Span(y, c.numy) - 1)
  {
    ConvolveOnOnes(Bits(c.field), c.numx, c.numy, x, y);
  }

  /** On an all-alive 3x3 field both steps keep only the four corners. */
  lemma StepsOnFullBlock(c: Classic)
    requires AllAlive(c) && c.numx == 3 && c.numy == 3
    ensures NextGenerationStd(c).field == [[true, false, true], [false, false, false], [true, false, true]]
    ensures NextGenerationConv(c).field == [[true, false, true], [false, false, false], [true, false, true]]
  {
    var n := NextGenerationStd(c).field;
    assert n[0][0] == true by { StdOnAllAlive(c, 0, 0); }
    assert n[0][1] == false by { StdOnAllAlive(c, 0, 1); }
    assert n[0][2] == true by { StdOnAllAlive(c, 0, 2); }
    assert n[1][0] == false by { StdOnAllAlive(c, 1, 0); }
    assert n[1][1] == false by { StdOnAllAlive(c, 1, 1); }
    assert n[1][2] == false by { StdOnAllAlive(c, 1, 2); }
    assert n[2][0] == true by { StdOnAllAlive(c, 2, 0); }
    assert n[2][1] == false by { StdOnAllAlive(c, 2, 1); }
    assert n[2][2] == true by { StdOnAllAlive(c, 2, 2); }
    SameCells3(n, [[true, false, true], [false, false, false], [true, false, true]]);
    ConvMatchesStd(c);
  }
}
