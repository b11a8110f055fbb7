/** How the two stepping strategies of the engine relate: where they agree, exactly where they
    part when cells have more than two states, a convolution update that agrees everywhere,
    and what repeated steps preserve. */
module Strategies {
  import opened Grid
  import opened Rules
  import opened Engine

  /** The convolution output at an in-bounds cell is that cell's neighbour count. */
  lemma ConvolvedCountIsNeighborCount(l: Life, x: nat, y: nat)
    requires Valid(l) && x < l.numx && y < l.numy
    ensures ConvolvedCounts(l)[x][y] == CountLivingNeighbors(l, x, y)
  {
  }

  /** The direct step keeps every cell between dead and alive. */
  lemma StdStaysInRange(l: Life)
    requires WellFormed(l)
    ensures WellFormed(NextGenerationStd(l))
  {
    var l' := NextGenerationStd(l);
    forall x, y | 0 <= x < l.numx && 0 <= y < l.numy
      ensures l'.field[x][y] <= l.rules.state
    {
      assert l'.field[x][y] == NextStdAt(l, x, y);
    }
  }

  /** Whether the direct rule keeps or makes `(x, y)` alive: birth, or alive and surviving. */
  predicate Revives(l: Life, x: nat, y: nat)
    requires Valid(l) && x < l.numx && y < l.numy
  {
    var c := CountLivingNeighbors(l, x, y);
    l.rules.birth[c] || (l.field[x][y] == l.rules.state && l.rules.survival[c])
  }

  /** Per cell, the direct step makes the cell alive exactly when the rule revives it, and
      otherwise moves it one state towards dead. */
  lemma StdCellMeaning(l: Life, x: nat, y: nat)
    requires Valid(l) && x < l.numx && y < l.numy
    ensures Revives(l, x, y) ==> NextGenerationStd(l).field[x][y] == l.rules.state
    ensures !Revives(l, x, y) && l.field[x][y] > 0 ==> NextGenerationStd(l).field[x][y] == l.field[x][y] - 1
    ensures !Revives(l, x, y) && l.field[x][y] == 0 ==> NextGenerationStd(l).field[x][y] == 0
  {
    assert NextGenerationStd(l).field[x][y] == NextStdAt(l, x, y);
  }

  /** The two update formulas at one cell differ exactly when the count lets the cell survive
      but not be born and the cell holds at least 2: then the convolution gives 1 to an alive
      cell where the direct step keeps `state`, and 0 to a decaying cell where the direct
      step gives the old value minus one. */
  lemma ConvCellVersusStdCell(prev: nat, c: nat, r: Rule)
    requires c < 9 && 1 <= r.state && prev <= r.state
    ensures ConvCell(prev, c, r) != StdCell(prev, c, r) <==> r.survival[c] && !r.birth[c] && prev >= 2
    ensures r.survival[c] && !r.birth[c] ==> ConvCell(prev, c, r) == (if prev == r.state then 1 else 0)
    ensures r.survival[c] && !r.birth[c] ==> StdCell(prev, c, r) == (if prev == r.state then r.state else SatDec(prev))
  {
  }

  /** With two states (dead 0, alive 1) the convolution step and the direct step give the
      same next generation. */
  lemma ConvMatchesStdWhenTwoState(l: Life)
    requires WellFormed(l) && l.rules.state == 1
    ensures NextGenerationConv(l) == NextGenerationStd(l)
  {
    var a, b := NextGenerationConv(l), NextGenerationStd(l);
    forall x | 0 <= x < l.numx
      ensures a.field[x] == b.field[x]
    {
      forall y | 0 <= y < l.numy
        ensures a.field[x][y] == b.field[x][y]
      {
        ConvolvedCountIsNeighborCount(l, x, y);
        ConvCellVersusStdCell(l.field[x][y], CountLivingNeighbors(l, x, y), l.rules);
        assert b.field[x][y] == NextStdAt(l, x, y);
      }
    }
  }

  /** With any number of states, the two steps part at exactly the cells whose count lets
      them survive without birth and that hold at least 2. */
  lemma ConvDiffersFromStdExactly(l: Life, x: nat, y: nat)
    requires WellFormed(l) && x < l.numx && y < l.numy
    ensures var c := CountLivingNeighbors(l, x, y);
      NextGenerationConv(l).field[x][y] != NextGenerationStd(l).field[x][y]
      <==> l.rules.survival[c] && !l.rules.birth[c] && l.field[x][y] >= 2
  {
    ConvolvedCountIsNeighborCount(l, x, y);
    ConvCellVersusStdCell(l.field[x][y], CountLivingNeighbors(l, x, y), l.rules);
    assert NextGenerationStd(l).field[x][y] == NextStdAt(l, x, y);
  }

  /** For any number of states, the two steps agree on a field whose cells are all 0 or 1:
      no cell holds 2 or more, so none is where they part. */
  lemma ConvMatchesStdOnZeroOneField(l: Life)
    requires WellFormed(l)
    requires forall x, y | 0 <= x < l.numx && 0 <= y < l.numy :: l.field[x][y] <= 1
    ensures NextGenerationConv(l) == NextGenerationStd(l)
  {
    var a, b := NextGenerationConv(l), NextGenerationStd(l);
    forall x | 0 <= x < l.numx
      ensures a.field[x] == b.field[x]
    {
      forall y | 0 <= y < l.numy
        ensures a.field[x][y] == b.field[x][y]
      {
        ConvDiffersFromStdExactly(l, x, y);
      }
    }
  }

  /** The convolution update as evidently intended, still in `u8` arithmetic: a cell that is
      alive and may survive is kept at `state` (`keep * state`), and only the other cells decay. */
  function ConvCellIntended(prev: nat, count: nat, r: Rule): (v: nat)
    requires count < 9 && 1 <= r.state && prev <= r.state
    ensures v <= r.state
  {
    var alive: u8 := if prev == r.state then 1 else 0;
    var survive: u8 := if r.survival[count] then 1 else 0;
    var born: u8 := if r.birth[count] then 1 else 0;
    var keep: u8 := alive * survive;
    var kept: u8 := keep * r.state + SatDec(prev * (1 - keep));
    var gap: u8 := r.state - kept;
    kept + gap * born
  }

  /** The convolution step with the intended update formula. */
  function NextGenerationConvIntended(l: Life): (l': Life)
    requires WellFormed(l)
    ensures WellFormed(l') && l'.numx == l.numx && l'.numy == l.numy && l'.rules == l.rules
    ensures forall x, y | 0 <= x < l.numx && 0 <= y < l.numy ::
      l'.field[x][y] == ConvCellIntended(l.field[x][y], ConvolvedCounts(l)[x][y], l.rules)
  {
    var counts := ConvolvedCounts(l);
    l.(field := seq(l.numx, x requires 0 <= x < l.numx =>
      seq(l.numy, y requires 0 <= y < l.numy => ConvCellIntended(l.field[x][y], counts[x][y], l.rules))))
  }

  /** The intended formula is the direct rule at every cell, for any number of states. */
  lemma ConvCellIntendedIsStdCell(prev: nat, c: nat, r: Rule)
    requires c < 9 && 1 <= r.state && prev <= r.state
    ensures ConvCellIntended(prev, c, r) == StdCell(prev, c, r)
  {
    if prev == r.state && r.survival[c] {
      assert ConvCellIntended(prev, c, r) == r.state;
    } else {
      assert ConvCellIntended(prev, c, r) == if r.birth[c] then r.state else SatDec(prev);
    }
  }

  /** With the intended formula the two strategies agree for every rule. */
  lemma ConvIntendedMatchesStd(l: Life)
    requires WellFormed(l)
    ensures NextGenerationConvIntended(l) == NextGenerationStd(l)
  {
    var a, b := NextGenerationConvIntended(l), NextGenerationStd(l);
    forall x | 0 <= x < l.numx
      ensures a.field[x] == b.field[x]
    {
      forall y | 0 <= y < l.numy
        ensures a.field[x][y] == b.field[x][y]
      {
        ConvolvedCountIsNeighborCount(l, x, y);
        ConvCellIntendedIsStdCell(l.field[x][y], CountLivingNeighbors(l, x, y), l.rules);
        assert b.field[x][y] == NextStdAt(l, x, y);
      }
    }
  }

  /** `n` generations of the direct step. */
  function RunStd(l: Life, n: nat): (l': Life)
    requires WellFormed(l)
    ensures WellFormed(l') && l'.numx == l.numx && l'.numy == l.numy && l'.rules == l.rules
    decreases n
  {
    if n == 0 then l
    else
      StdStaysInRange(l);
      RunStd(NextGenerationStd(l), n - 1)
  }

  /** `n` generations of the convolution step. */
  function RunConv(l: Life, n: nat): (l': Life)
    requires WellFormed(l)
    ensures WellFormed(l') && l'.numx == l.numx && l'.numy == l.numy && l'.rules == l.rules
    decreases n
  {
    if n == 0 then l else RunConv(NextGenerationConv(l), n - 1)
  }

  /** `n` generations of the intended convolution step. */
  function RunConvIntended(l: Life, n: nat): (l': Life)
    requires WellFormed(l)
    ensures WellFormed(l') && l'.numx == l.numx && l'.numy == l.numy && l'.rules == l.rules
    decreases n
  {
    if n == 0 then l else RunConvIntended(NextGenerationConvIntended(l), n - 1)
  }

  /** With two states the strategies agree generation after generation. */
  lemma {:induction false} TwoStateRunsAgree(l: Life, n: nat)
    requires WellFormed(l) && l.rules.state == 1
    ensures RunConv(l, n) == RunStd(l, n)
    decreases n
  {
    if n > 0 {
      ConvMatchesStdWhenTwoState(l);
      StdStaysInRange(l);
      TwoStateRunsAgree(NextGenerationStd(l), n - 1);
    }
  }

  /** With the intended formula the strategies agree generation after generation, for every
      number of states. */
  lemma {:induction false} IntendedRunsAgree(l: Life, n: nat)
    requires WellFormed(l)
    ensures RunConvIntended(l, n) == RunStd(l, n)
    decreases n
  {
    if n > 0 {
      ConvIntendedMatchesStd(l);
      StdStaysInRange(l);
      IntendedRunsAgree(NextGenerationStd(l), n - 1);
    }
  }

  /** A cell the rule does not revive for `n` generations counts down one state per
      generation and then stays dead. */
  lemma {:induction false} DecayCountdown(l: Life, n: nat, x: nat, y: nat)
    requires WellFormed(l) && x < l.numx && y < l.numy
    requires forall k | 0 <= k < n :: !Revives(RunStd(l, k), x, y)
    ensures RunStd(l, n).field[x][y] == if l.field[x][y] >= n then l.field[x][y] - n else 0
    decreases n
  {
    if n > 0 {
      StdStaysInRange(l);
      var l1 := NextGenerationStd(l);
      assert RunStd(l, 0) == l;
      StdCellMeaning(l, x, y);
      forall k | 0 <= k < n - 1
        ensures !Revives(RunStd(l1, k), x, y)
      {
        assert RunStd(l, k + 1) == RunStd(l1, k);
      }
      DecayCountdown(l1, n - 1, x, y);
    }
  }
}
