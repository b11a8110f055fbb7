/** The fields the engine's unit tests pin down, stated for every field of that shape and rule
    whose cells are all alive, and the smallest such field on which the two strategies part. */
module Scenarios {
  import opened Grid
  import opened Rules
  import opened Engine
  import opened Strategies

  /** Every cell holds the alive state. */
  predicate AllAlive(l: Life) {
    Valid(l) && forall x, y | 0 <= x < l.numx && 0 <= y < l.numy :: l.field[x][y] == l.rules.state
  }

  /** On an all-alive field a cell's count is its clipped window less itself: `Span(x) * Span(y) - 1`
      under Moore adjacency, `Span(x) + Span(y) - 2` under Von Neumann adjacency. */
  lemma AllAliveCounts(l: Life, x: nat, y: nat)
    requires AllAlive(l) && x < l.numx && y < l.numy
    ensures l.rules.neighbor == Moore ==> CountLivingNeighbors(l, x, y) == Span(x, l.numx) * Span(y, l.numy) - 1
    ensures l.rules.neighbor == VonNeumann ==> CountLivingNeighbors(l, x, y) == Span(x, l.numx) + Span(y, l.numy) - 2
  {
    ConvolveOnOnes(AliveMask(l.field, l.rules.state), l.numx, l.numy, x, y);
  }

  /** On an all-alive field under Moore adjacency, each step takes a cell's update formula at
      the alive state and the clipped window less the cell. */
  lemma StepsOnAllAlive(l: Life, x: nat, y: nat)
    requires AllAlive(l) && l.rules.state >= 1 && l.rules.neighbor == Moore && x < l.numx && y < l.numy
    ensures WellFormed(l)
    ensures NextGenerationStd(l).field[x][y] == StdCell(l.rules.state, Span(x, l.numx) * Span(y, l.numy) - 1, l.rules)
    ensures NextGenerationConv(l).field[x][y] == ConvCell(l.rules.state, Span(x, l.numx) * Span(y, l.numy) - 1, l.rules)
  {
    AllAliveCounts(l, x, y);
    ConvolvedCountIsNeighborCount(l, x, y);
    assert NextGenerationStd(l).field[x][y] == NextStdAt(l, x, y);
  }

  /** On an all-alive field under Moore adjacency, the direct step takes a cell's update at the
      alive state and the clipped window less the cell. */
  lemma StdOnAllAlive(l: Life, x: nat, y: nat)
    requires AllAlive(l) && l.rules.neighbor == Moore && x < l.numx && y < l.numy
    ensures NextGenerationStd(l).field[x][y] == StdCell(l.rules.state, Span(x, l.numx) * Span(y, l.numy) - 1, l.rules)
  {
    AllAliveCounts(l, x, y);
    assert NextGenerationStd(l).field[x][y] == NextStdAt(l, x, y);
  }

  /** All-alive 3x3 under Moore adjacency: corners see 3, edges 5, the centre 8, in the convolved
      counts and in the direct count alike. */
  lemma MooreCountsOnFullBlock(l: Life)
    requires AllAlive(l) && l.numx == 3 && l.numy == 3 && l.rules.neighbor == Moore
    ensures ConvolvedCounts(l) == [[3, 5, 3], [5, 8, 5], [3, 5, 3]]
    ensures forall x, y | 0 <= x < 3 && 0 <= y < 3 :: CountLivingNeighbors(l, x, y) == ConvolvedCounts(l)[x][y]
  {
    var c := ConvolvedCounts(l);
    assert c[0][0] == 3 by { AllAliveCounts(l, 0, 0); }
    assert c[0][1] == 5 by { AllAliveCounts(l, 0, 1); }
    assert c[0][2] == 3 by { AllAliveCounts(l, 0, 2); }
    assert c[1][0] == 5 by { AllAliveCounts(l, 1, 0); }
    assert c[1][1] == 8 by { AllAliveCounts(l, 1, 1); }
    assert c[1][2] == 5 by { AllAliveCounts(l, 1, 2); }
    assert c[2][0] == 3 by { AllAliveCounts(l, 2, 0); }
    assert c[2][1] == 5 by { AllAliveCounts(l, 2, 1); }
    assert c[2][2] == 3 by { AllAliveCounts(l, 2, 2); }
    SameCells3(c, [[3, 5, 3], [5, 8, 5], [3, 5, 3]]);
  }

  /** All-alive 3x3 under Von Neumann adjacency: corners see 2, edges 3, the centre 4, in the
      convolved counts and in the direct count alike. */
  lemma VonNeumannCountsOnFullBlock(l: Life)
    requires AllAlive(l) && l.numx == 3 && l.numy == 3 && l.rules.neighbor == VonNeumann
    ensures ConvolvedCounts(l) == [[2, 3, 2], [3, 4, 3], [2, 3, 2]]
    ensures forall x, y | 0 <= x < 3 && 0 <= y < 3 :: CountLivingNeighbors(l, x, y) == ConvolvedCounts(l)[x][y]
  {
    var c := ConvolvedCounts(l);
    assert c[0][0] == 2 by { AllAliveCounts(l, 0, 0); }
    assert c[0][1] == 3 by { AllAliveCounts(l, 0, 1); }
    assert c[0][2] == 2 by { AllAliveCounts(l, 0, 2); }
    assert c[1][0] == 3 by { AllAliveCounts(l, 1, 0); }
    assert c[1][1] == 4 by { AllAliveCounts(l, 1, 1); }
    assert c[1][2] == 3 by { AllAliveCounts(l, 1, 2); }
    assert c[2][0] == 2 by { AllAliveCounts(l, 2, 0); }
    assert c[2][1] == 3 by { AllAliveCounts(l, 2, 1); }
    assert c[2][2] == 2 by { AllAliveCounts(l, 2, 2); }
    SameCells3(c, [[2, 3, 2], [3, 4, 3], [2, 3, 2]]);
  }

  /** Under Conway's rule an alive cell stays alive on 2 or 3 neighbours and dies otherwise. */
  lemma DefaultOnAlive(c: nat)
    requires c < 9
    ensures StdCell(1, c, DefaultRule()) == if c == 2 || c == 3 then 1 else 0
  {
  }

  /** Conway's rule on an all-alive 3x3 field keeps only the corners. */
  lemma StdOnFullBlock(l: Life)
    requires AllAlive(l) && l.numx == 3 && l.numy == 3 && l.rules == DefaultRule()
    ensures NextGenerationStd(l).field == [[1, 0, 1], [0, 0, 0], [1, 0, 1]]
  {
    var n := NextGenerationStd(l).field;
    assert n[0][0] == 1 by { StdOnAllAlive(l, 0, 0); DefaultOnAlive(3); }
    assert n[0][1] == 0 by { StdOnAllAlive(l, 0, 1); DefaultOnAlive(5); }
    assert n[0][2] == 1 by { StdOnAllAlive(l, 0, 2); DefaultOnAlive(3); }
    assert n[1][0] == 0 by { StdOnAllAlive(l, 1, 0); DefaultOnAlive(5); }
    assert n[1][1] == 0 by { StdOnAllAlive(l, 1, 1); DefaultOnAlive(8); }
    assert n[1][2] == 0 by { StdOnAllAlive(l, 1, 2); DefaultOnAlive(5); }
    assert n[2][0] == 1 by { StdOnAllAlive(l, 2, 0); DefaultOnAlive(3); }
    assert n[2][1] == 0 by { StdOnAllAlive(l, 2, 1); DefaultOnAlive(5); }
    assert n[2][2] == 1 by { StdOnAllAlive(l, 2, 2); DefaultOnAlive(3); }
    SameCells3(n, [[1, 0, 1], [0, 0, 0], [1, 0, 1]]);
  }

  /** With alive = 2, the convolution step on an all-alive 3x3 field keeps the corners alive
      and leaves every other cell at 1. */
  lemma ConvOnFullBlockStateTwo(l: Life)
    requires AllAlive(l) && l.numx == 3 && l.numy == 3 && l.rules == DefaultRule().(state := 2)
    ensures NextGenerationConv(l).field == [[2, 1, 2], [1, 1, 1], [2, 1, 2]]
  {
    var n := NextGenerationConv(l).field;
    assert n[0][0] == 2 by { StepsOnAllAlive(l, 0, 0); }
    assert n[0][1] == 1 by { StepsOnAllAlive(l, 0, 1); }
    assert n[0][2] == 2 by { StepsOnAllAlive(l, 0, 2); }
    assert n[1][0] == 1 by { StepsOnAllAlive(l, 1, 0); }
    assert n[1][1] == 1 by { StepsOnAllAlive(l, 1, 1); }
    assert n[1][2] == 1 by { StepsOnAllAlive(l, 1, 2); }
    assert n[2][0] == 2 by { StepsOnAllAlive(l, 2, 0); }
    assert n[2][1] == 1 by { StepsOnAllAlive(l, 2, 1); }
    assert n[2][2] == 2 by { StepsOnAllAlive(l, 2, 2); }
    SameCells3(n, [[2, 1, 2], [1, 1, 1], [2, 1, 2]]);
  }

  /** The smallest kind of field where the strategies part: one column of three alive cells
      with alive = 2. The middle cell has two neighbours, so it survives without being born;
      the direct step keeps it at 2 while the convolution step drops it to 1. */
  lemma StrategiesPartOnShortColumn(l: Life)
    requires AllAlive(l) && l.numx == 1 && l.numy == 3 && l.rules == DefaultRule().(state := 2)
    ensures NextGenerationStd(l).field == [[1, 2, 1]]
    ensures NextGenerationConv(l).field == [[1, 1, 1]]
  {
    var s, c := NextGenerationStd(l).field, NextGenerationConv(l).field;
    assert s[0][0] == 1 && c[0][0] == 1 by { StepsOnAllAlive(l, 0, 0); }
    assert s[0][1] == 2 && c[0][1] == 1 by { StepsOnAllAlive(l, 0, 1); }
    assert s[0][2] == 1 && c[0][2] == 1 by { StepsOnAllAlive(l, 0, 2); }
    assert s[0] == [1, 2, 1];
    assert c[0] == [1, 1, 1];
  }

  /** The same divergence on the literal field `[[2, 2, 2]]`. */
  lemma ShortColumnCounterexample()
    ensures var l := Life([[2, 2, 2]], DefaultRule().(state := 2), 1, 3);
      WellFormed(l) && NextGenerationConv(l) != NextGenerationStd(l)
  {
    var l := Life([[2, 2, 2]], DefaultRule().(state := 2), 1, 3);
    StrategiesPartOnShortColumn(l);
    assert NextGenerationConv(l).field[0][1] != NextGenerationStd(l).field[0][1];
  }
}
