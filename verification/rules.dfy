/** The rule of a Life-like automaton: which neighbour counts keep an alive cell alive, which
    give birth, how many generations a cell takes to die, and which cells count as neighbours. */
module Rules {
  import opened Wrappers
  import opened Text

  /** Rust's `u8`. */
  type u8 = n: nat | n < 256

  /** A set of neighbour counts 0..8 as nine flags: `m[c]` holds when count `c` is selected. */
  type Mask = m: seq<bool> | |m| == 9 witness [false, false, false, false, false, false, false, false, false]

  const NoCounts: Mask := [false, false, false, false, false, false, false, false, false]

  /** Which cells count as neighbours. */
  datatype NeighborRule = Moore | VonNeumann

  /** The four convenience forms a survival or birth set may be given in. */
  datatype LifeRule =
    | One(count: nat)
    | Range(start: nat, end: nat)
    | Numbers(counts: seq<nat>)
    | Raw(flags: Mask)

  /** Writing a flag past the ninth entry (a panicking array index in the source). */
  datatype RuleError = IndexOutOfBounds(index: nat)

  /** The counts a form names: a single count, the half-open range `[start, end)`, the listed
      counts in any order and multiplicity, or the flagged entries. */
  predicate Selects(r: LifeRule, c: nat) {
    match r
    case One(n) => c == n
    case Range(a, b) => a <= c < b
    case Numbers(xs) => c in xs
    case Raw(flags) => c < 9 && flags[c]
  }

  /** Sets flag `c`; an index beyond 8 fails. */
  function SetCount(m: Mask, c: nat): (r: Result<Mask, RuleError>)
    ensures r.Success? <==> c < 9
    ensures r.Success? ==> forall i | 0 <= i < 9 :: r.value[i] == (m[i] || i == c)
    ensures r.Failure? ==> r.error.index == c
  {
    if c < 9 then Success(m[c := true]) else Failure(IndexOutOfBounds(c))
  }

  /** Sets the flags `a, a+1, ..., b-1` in increasing order, stopping at the first bad index. */
  function SetRange(m: Mask, a: nat, b: nat): (r: Result<Mask, RuleError>)
    ensures r.Success? <==> (a >= b || b <= 9)
    ensures r.Success? ==> forall i | 0 <= i < 9 :: r.value[i] == (m[i] || a <= i < b)
    ensures r.Failure? ==> r.error.index == if a < 9 then 9 else a
    decreases b - a
  {
    if a >= b then Success(m)
    else
      var m' :- SetCount(m, a);
      SetRange(m', a + 1, b)
  }

  /** Sets the flags named in `xs` in list order, stopping at the first bad index. */
  function SetAll(m: Mask, xs: seq<nat>): (r: Result<Mask, RuleError>)
    ensures r.Success? <==> forall k | 0 <= k < |xs| :: xs[k] < 9
    ensures r.Success? ==> forall i | 0 <= i < 9 :: r.value[i] == (m[i] || i in xs)
    ensures r.Failure? ==> exists k | 0 <= k < |xs| ::
      xs[k] == r.error.index && xs[k] >= 9 && forall j | 0 <= j < k :: xs[j] < 9
    decreases |xs|
  {
    if xs == [] then Success(m)
    else
      var m' :- SetCount(m, xs[0]);
      var r := SetAll(m', xs[1..]);
      assert forall k | 1 <= k < |xs| :: xs[k] == xs[1..][k - 1];
      assert forall i :: i in xs <==> i == xs[0] || i in xs[1..];
      r
  }

  /** The nine-flag mask a form stands for (`LifeRule::into_array`). */
  function IntoArray(r: LifeRule): (res: Result<Mask, RuleError>)
    ensures res.Success? <==> forall c: nat | Selects(r, c) :: c < 9
    ensures res.Success? ==> forall c | 0 <= c < 9 :: res.value[c] == Selects(r, c)
    ensures res.Failure? ==> res.error.index >= 9 && Selects(r, res.error.index)
    ensures r.Raw? ==> res == Success(r.flags)
  {
    match r
    case One(n) =>
      assert Selects(r, n);
      SetCount(NoCounts, n)
    case Range(a, b) =>
      var res := SetRange(NoCounts, a, b);
      assert res.Success? <== forall c: nat | Selects(r, c) :: c < 9 by {
        if a < b && 9 < b { assert Selects(r, if a < 9 then 9 else a); }
      }
      res
    case Numbers(xs) =>
      var res := SetAll(NoCounts, xs);
      assert (forall c: nat | Selects(r, c) :: c < 9) ==> res.Success? by {
        if forall c: nat | Selects(r, c) :: c < 9 {
          forall k | 0 <= k < |xs| ensures xs[k] < 9 { assert Selects(r, xs[k]); }
        }
      }
      res
    case Raw(flags) => Success(flags)
  }

  /** A list of counts converts by the set it names: order and repetition do not matter. */
  lemma NumbersIgnoreOrder(xs: seq<nat>, ys: seq<nat>)
    requires forall c :: c in xs <==> c in ys
    ensures IntoArray(Numbers(xs)).Success? == IntoArray(Numbers(ys)).Success?
    ensures IntoArray(Numbers(xs)).Success? ==> IntoArray(Numbers(xs)) == IntoArray(Numbers(ys))
  {
    var rx, ry := IntoArray(Numbers(xs)), IntoArray(Numbers(ys));
    if rx.Success? && ry.Success? {
      assert forall c | 0 <= c < 9 :: rx.value[c] == ry.value[c];
      assert rx.value == ry.value;
    }
  }

  /** A survival set, a birth set, the alive state and the neighbour mode. */
  datatype Rule = Rule(survival: Mask, birth: Mask, state: u8, neighbor: NeighborRule)

  /** Builds a rule from two convenience forms (`Rule::new`): the survival form is converted
      first, and neither the state nor the neighbour mode is checked. */
  function NewRule(survival: LifeRule, birth: LifeRule, state: u8, neighbor: NeighborRule): (r: Result<Rule, RuleError>)
    ensures r.Success? <==> forall c: nat | Selects(survival, c) || Selects(birth, c) :: c < 9
    ensures r.Success? ==> r.value.state == state && r.value.neighbor == neighbor
    ensures r.Success? ==> forall c | 0 <= c < 9 ::
      (r.value.survival[c] <==> Selects(survival, c)) && (r.value.birth[c] <==> Selects(birth, c))
    ensures r.Failure? ==> r.error.index >= 9 && (Selects(survival, r.error.index) || Selects(birth, r.error.index))
    ensures (exists c: nat | Selects(survival, c) :: c >= 9) ==> r.Failure? && Selects(survival, r.error.index)
  {
    var s :- IntoArray(survival);
    var b :- IntoArray(birth);
    Success(Rule(s, b, state, neighbor))
  }

  /** The rule of Conway's Game of Life: survive on 2 or 3, born on 3, two states, Moore. */
  function DefaultRule(): (r: Rule)
    ensures forall c | 0 <= c < 9 :: (r.survival[c] <==> c == 2 || c == 3) && (r.birth[c] <==> c == 3)
    ensures r.state == 1 && r.neighbor == Moore
  {
    Rule([false, false, true, true, false, false, false, false, false],
         [false, false, false, true, false, false, false, false, false],
         1, Moore)
  }

  /** The default rule is what the range and single-count forms build for S23/B3. */
  lemma DefaultIsConway()
    ensures NewRule(Range(2, 4), One(3), 1, Moore) == Success(DefaultRule())
    ensures NewRule(Numbers([3, 2, 3]), Raw(DefaultRule().birth), 1, Moore) == Success(DefaultRule())
  {
    var d := DefaultRule();
    var r1 := NewRule(Range(2, 4), One(3), 1, Moore);
    assert r1.value.survival == d.survival;
    assert r1.value.birth == d.birth;
    var r2 := NewRule(Numbers([3, 2, 3]), Raw(d.birth), 1, Moore);
    assert forall c: nat | Selects(Numbers([3, 2, 3]), c) :: c < 9;
    assert r2.value.survival == d.survival;
  }

  const MooreNames: set<string> := {"m", "moore"}
  const VonNeumannNames: set<string> := {"v", "vn", "vonneumann"}

  /** Reads a neighbour mode case-insensitively (`NeighborRule::from_str`). */
  function ParseNeighborRule(s: string): (r: Result<NeighborRule, ()>)
    ensures r == Success(Moore) <==> Lower(s) in MooreNames
    ensures r == Success(VonNeumann) <==> Lower(s) in VonNeumannNames
    ensures r.Failure? <==> Lower(s) !in MooreNames + VonNeumannNames
  {
    match Lower(s)
    case "m" => Success(Moore)
    case "moore" => Success(Moore)
    case "v" => Success(VonNeumann)
    case "vn" => Success(VonNeumann)
    case "vonneumann" => Success(VonNeumann)
    case _ => Failure(())
  }

  /** The display text of a neighbour mode. */
  function ShowNeighborRule(n: NeighborRule): (s: string)
    ensures n == Moore ==> Lower(s) in MooreNames
    ensures n == VonNeumann ==> Lower(s) !in MooreNames + VonNeumannNames
  {
    match n
    case Moore =>
      assert Lower("Moore") == "moore";
      "Moore"
    case VonNeumann => "von Neumann"
  }

  /** Case never matters to the parser. */
  lemma ParseNeighborRuleIgnoresCase(s: string)
    ensures ParseNeighborRule(s) == ParseNeighborRule(Lower(s))
  {
    LowerIdempotent(s);
  }

  /** Moore's display text reads back as Moore; Von Neumann's, with its space, is rejected. */
  lemma ShowNeighborRuleReadsBack()
    ensures ParseNeighborRule(ShowNeighborRule(Moore)) == Success(Moore)
    ensures ParseNeighborRule(ShowNeighborRule(VonNeumann)).Failure?
  {
    assert Lower("Moore") == "moore";
    assert Lower("von Neumann") == "von neumann";
  }
}
