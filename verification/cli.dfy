/** The pure part of the command-line front end: reading the algorithm name, resolving absent
    options to their defaults, and turning the random start vector into the first field. */
module Cli {
  import opened Wrappers
  import opened Text
  import opened Grid
  import opened Arith
  import opened Rules
  import opened Engine

  /** Which stepping strategy runs the simulation. */
  datatype Algorithm = Std | Conv

  const StdNames: set<string> := {"std", "standard"}
  const ConvNames: set<string> := {"conv", "convolution"}

  /** Reads an algorithm name case-insensitively (`Algorithm::from_str`). */
  function ParseAlgorithm(s: string): (r: Result<Algorithm, ()>)
    ensures r == Success(Std) <==> Lower(s) in StdNames
    ensures r == Success(Conv) <==> Lower(s) in ConvNames
    ensures r.Failure? <==> Lower(s) !in StdNames + ConvNames
  {
    match Lower(s)
    case "std" => Success(Std)
    case "standard" => Success(Std)
    case "conv" => Success(Conv)
    case "convolution" => Success(Conv)
    case _ => Failure(())
  }

  /** The display text of an algorithm. */
  function ShowAlgorithm(a: Algorithm): (s: string)
    ensures Lower(s) == s
    ensures a == Std ==> s in StdNames
    ensures a == Conv ==> s in ConvNames
  {
    match a
    case Std => "standard"
    case Conv => "convolution"
  }

  /** Every algorithm's display text reads back as that algorithm. */
  lemma ShowAlgorithmReadsBack(a: Algorithm)
    ensures ParseAlgorithm(ShowAlgorithm(a)) == Success(a)
  {
    assert Lower("standard") == "standard";
    assert Lower("convolution") == "convolution";
  }

  /** Case never matters to the parser. */
  lemma ParseAlgorithmIgnoresCase(s: string)
    ensures ParseAlgorithm(s) == ParseAlgorithm(Lower(s))
  {
    LowerIdempotent(s);
  }

  /** The two ways of presenting a run. */
  datatype Command = Gif(output: string) | Tui

  /** The raw command line: every option may be absent. Sizes, counts and the time per
      generation are unbounded here (`u32`/`usize` in the source), the probability a real. */
  datatype CliArgs = CliArgs(
    command: Option<Command>,
    iterations: Option<nat>,
    timeiter: Option<nat>,
    x: Option<nat>,
    y: Option<nat>,
    algorithm: Option<string>,
    neighbor: Option<string>,
    probability: Option<real>,
    state: Option<u8>)

  /** The resolved run settings (`Arguments`); `outputFile` is the GIF name as given. */
  datatype Arguments = Arguments(
    command: Command,
    iterations: nat,
    timePerIteration: nat,
    numx: nat,
    numy: nat,
    algorithm: Algorithm,
    rule: Rule,
    probability: real)

  /** Why the source aborts with a configuration error. */
  datatype CliError = InvalidAlgorithm | InvalidNeighbor | InvalidProbability

  /** Survival on 2 or 3 and birth on 3, as nine flags. */
  const ConwaySurvival: Mask := [false, false, true, true, false, false, false, false, false]
  const ConwayBirth: Mask := [false, false, false, true, false, false, false, false, false]

  /** The rule the command line builds: Conway's counts with the chosen state and mode. */
  function CliRule(state: u8, neighbor: NeighborRule): (r: Rule)
    ensures forall c | 0 <= c < 9 :: (r.survival[c] <==> c == 2 || c == 3) && (r.birth[c] <==> c == 3)
    ensures r.state == state && r.neighbor == neighbor
  {
    var built := NewRule(Raw(ConwaySurvival), Raw(ConwayBirth), state, neighbor);
    built.value
  }

  /** At state 1 under Moore adjacency the command-line rule is the default rule. */
  lemma CliRuleIsDefault()
    ensures CliRule(1, Moore) == DefaultRule()
  {
    var r, d := CliRule(1, Moore), DefaultRule();
    assert r.survival == d.survival;
    assert r.birth == d.birth;
  }

  /** Rust's `u16`, the unit of a terminal dimension. */
  type u16 = n: nat | n < 0x1_0000

  /** `w - 2` in `u16` arithmetic, as a release build computes it: below 2 it wraps around. */
  function LessBorder(w: u16): (r: u16)
    ensures w >= 2 ==> r + 2 == w
    ensures w < 2 ==> r == w + 0x1_0000 - 2
  {
    if w >= 2 then w - 2 else w + 0x1_0000 - 2
  }

  /** The terminal field size (`get_size`): an explicit `-x`/`-y` wins, otherwise the terminal's
      width and height less a two-cell border, otherwise 10. `terminal` is what the terminal
      size query returned, `None` when it failed. */
  function GetSize(x: Option<nat>, y: Option<nat>, terminal: Option<(u16, u16)>): (size: (nat, nat))
    ensures x.Some? ==> size.0 == x.value
    ensures y.Some? ==> size.1 == y.value
    ensures x.None? && terminal.Some? ==> size.0 == LessBorder(terminal.value.0)
    ensures y.None? && terminal.Some? ==> size.1 == LessBorder(terminal.value.1)
    ensures x.None? && terminal.None? ==> size.0 == 10
    ensures y.None? && terminal.None? ==> size.1 == 10
  {
    var width := match terminal case Some(t) => Some(LessBorder(t.0) as nat) case None => None;
    var height := match terminal case Some(t) => Some(LessBorder(t.1) as nat) case None => None;
    (x.Or(width).GetOr(10), y.Or(height).GetOr(10))
  }

  /** Resolves the command line (`Arguments::parse_cli`), which the source only reaches when a
      subcommand was given. The algorithm is checked first, then the neighbour mode, then the
      probability; absent options default to convolution, Moore, state 1, 10 generations,
      500 ms each and probability 0.2. A GIF field defaults to 10 by 10; a terminal field takes
      `GetSize` of the options and `terminal`, the result of the terminal size query. */
  function ParseCli(cli: CliArgs, terminal: Option<(u16, u16)>): (r: Result<Arguments, CliError>)
    requires cli.command.Some?
    ensures r == Failure(InvalidAlgorithm) <==> cli.algorithm.Some? && ParseAlgorithm(cli.algorithm.value).Failure?
    ensures r == Failure(InvalidNeighbor) <==>
      r != Failure(InvalidAlgorithm) && cli.neighbor.Some? && ParseNeighborRule(cli.neighbor.value).Failure?
    ensures r == Failure(InvalidProbability) <==>
      r != Failure(InvalidAlgorithm) && r != Failure(InvalidNeighbor) && !(0.0 <= cli.probability.GetOr(0.2) <= 1.0)
    ensures r.Success? ==>
      && r.value.command == cli.command.value
      && r.value.algorithm == (if cli.algorithm.None? then Conv else ParseAlgorithm(cli.algorithm.value).value)
      && r.value.rule.neighbor == (if cli.neighbor.None? then Moore else ParseNeighborRule(cli.neighbor.value).value)
      && r.value.rule == CliRule(cli.state.GetOr(1), r.value.rule.neighbor)
      && r.value.iterations == cli.iterations.GetOr(10)
      && r.value.timePerIteration == cli.timeiter.GetOr(500)
      && r.value.probability == cli.probability.GetOr(0.2)
    ensures r.Success? && cli.command.value.Gif? ==> r.value.numx == cli.x.GetOr(10) && r.value.numy == cli.y.GetOr(10)
    ensures r.Success? && cli.command.value.Tui? ==> (r.value.numx, r.value.numy) == GetSize(cli.x, cli.y, terminal)
    ensures r.Success? && cli.command.value.Tui? && cli.x.Some? ==> r.value.numx == cli.x.value
    ensures r.Success? && cli.command.value.Tui? && cli.y.Some? ==> r.value.numy == cli.y.value
  {
    var algorithm :- match cli.algorithm
      case None => Success(Conv)
      case Some(s) => if ParseAlgorithm(s).Success? then Success(ParseAlgorithm(s).value) else Failure(InvalidAlgorithm);
    var neighbor :- match cli.neighbor
      case None => Success(Moore)
      case Some(s) => if ParseNeighborRule(s).Success? then Success(ParseNeighborRule(s).value) else Failure(InvalidNeighbor);
    var state := cli.state.GetOr(1);
    var rule := CliRule(state, neighbor);
    var iterations := cli.iterations.GetOr(10);
    var timePerIteration := cli.timeiter.GetOr(500);
    var probability := cli.probability.GetOr(0.2);
    if !(0.0 <= probability <= 1.0) then Failure(InvalidProbability)
    else
      var (numx, numy) := match cli.command.value
        case Gif(_) => (cli.x.GetOr(10), cli.y.GetOr(10))
        case Tui => GetSize(cli.x, cli.y, terminal);
      Success(Arguments(cli.command.value, iterations, timePerIteration, numx, numy, algorithm, rule, probability))
  }

  /** With no option but the subcommand, a run uses the convolution strategy under Conway's
      default rule for 10 generations of 500 ms at probability 0.2. */
  lemma DefaultsWhenAbsent(command: Command, terminal: Option<(u16, u16)>)
    ensures var r := ParseCli(CliArgs(Some(command), None, None, None, None, None, None, None, None), terminal);
      && r.Success?
      && r.value.algorithm == Conv && r.value.rule == DefaultRule()
      && r.value.iterations == 10 && r.value.timePerIteration == 500 && r.value.probability == 0.2
  {
    CliRuleIsDefault();
  }

  /** The start vector: each sample is alive (`state`) or dead (0), as `sample as u8 * state`. */
  function InitialVector(samples: seq<bool>, state: u8): (v: seq<nat>)
    ensures |v| == |samples|
    ensures forall i | 0 <= i < |v| :: v[i] == 0 || v[i] == state
    ensures state != 0 ==> forall i | 0 <= i < |v| :: (v[i] == state <==> samples[i])
  {
    seq(|samples|, i requires 0 <= i < |samples| => (if samples[i] then 1 else 0) * state)
  }

  /** Where cell `(x, y)` of a field with `numy` cells per column sits in row-major order. */
  function RowMajor(x: nat, y: nat, numy: nat): nat {
    x * numy + y
  }

  /** Every cell of a `numx` by `numy` field has its row-major place inside the vector. */
  lemma RowMajorInRange(numx: nat, numy: nat, x: nat, y: nat)
    requires x < numx && y < numy
    ensures RowMajor(x, y, numy) < numx * numy
  {
    PosInField(numy, numx, y, x);
  }

  /** One column further on is `numy` places further on. */
  lemma RowMajorStep(x: nat, y: nat, numy: nat)
    requires x > 0
    ensures RowMajor(x, y, numy) == numy + RowMajor(x - 1, y, numy)
  {
    assert x * numy == (x - 1) * numy + numy;
  }

  /** The cell `(x, y)` of a row-major `numx` by `numy` reading of `v`. */
  function RowMajorAt(v: seq<nat>, numx: nat, numy: nat, x: nat, y: nat): nat
    requires |v| == numx * numy && x < numx && y < numy
  {
    RowMajorInRange(numx, numy, x, y);
    v[RowMajor(x, y, numy)]
  }

  /** Reads a flat vector as a `numx` by `numy` field in row-major order (`into_shape`), which
      fails unless the lengths match. */
  function Reshape(v: seq<nat>, numx: nat, numy: nat): (r: Result<seq<seq<nat>>, ()>)
    ensures r.Success? <==> |v| == numx * numy
    ensures r.Success? ==> IsShape(r.value, numx, numy)
    ensures r.Success? ==> forall x, y | 0 <= x < numx && 0 <= y < numy ::
      RowMajor(x, y, numy) < |v| && r.value[x][y] == v[RowMajor(x, y, numy)]
  {
    if |v| != numx * numy then Failure(())
    else
      assert forall x, y | 0 <= x < numx && 0 <= y < numy :: RowMajor(x, y, numy) < |v| by {
        forall x, y | 0 <= x < numx && 0 <= y < numy ensures RowMajor(x, y, numy) < |v| {
          RowMajorInRange(numx, numy, x, y);
        }
      }
      Success(seq(numx, x requires 0 <= x < numx =>
        seq(numy, y requires 0 <= y < numy => RowMajorAt(v, numx, numy, x, y))))
  }

  /** The rows of a field laid end to end. */
  function Flatten(g: seq<seq<nat>>): seq<nat> {
    if g == [] then [] else g[0] + Flatten(g[1..])
  }

  /** A flattened `numx` by `numy` field holds `numx * numy` values. */
  lemma {:induction false} FlattenLength(g: seq<seq<nat>>, numx: nat, numy: nat)
    requires IsShape(g, numx, numy)
    ensures |Flatten(g)| == numx * numy
    decreases numx
  {
    if numx > 0 {
      FlattenLength(g[1..], numx - 1, numy);
      assert numx * numy == numy + (numx - 1) * numy;
    }
  }

  /** Flattening puts cell `(x, y)` at its row-major place. */
  lemma {:induction false} FlattenCell(g: seq<seq<nat>>, numx: nat, numy: nat, x: nat, y: nat)
    requires IsShape(g, numx, numy) && x < numx && y < numy
    ensures RowMajor(x, y, numy) < |Flatten(g)| && Flatten(g)[RowMajor(x, y, numy)] == g[x][y]
    decreases x
  {
    FlattenLength(g, numx, numy);
    RowMajorInRange(numx, numy, x, y);
    assert Flatten(g) == g[0] + Flatten(g[1..]);
    if x > 0 {
      RowMajorStep(x, y, numy);
      FlattenCell(g[1..], numx - 1, numy, x - 1, y);
    }
  }

  /** Reshaping a flattened field gives the field back. */
  lemma ReshapeFlatten(g: seq<seq<nat>>, numx: nat, numy: nat)
    requires IsShape(g, numx, numy)
    ensures Reshape(Flatten(g), numx, numy) == Success(g)
  {
    FlattenLength(g, numx, numy);
    var r := Reshape(Flatten(g), numx, numy).value;
    forall x | 0 <= x < numx
      ensures r[x] == g[x]
    {
      forall y | 0 <= y < numy
        ensures r[x][y] == g[x][y]
      {
        FlattenCell(g, numx, numy, x, y);
      }
    }
    assert r == g;
  }

  /** Every place of a `numx` by `numy` vector is the row-major place of some cell. */
  lemma PlaceOfCell(i: nat, numx: nat, numy: nat) returns (x: nat, y: nat)
    requires i < numx * numy
    ensures x < numx && y < numy && i == RowMajor(x, y, numy)
  {
    if numy == 0 {
      assert false;
    }
    x, y := i / numy, i % numy;
    PosInField(numy, numx, y, x);
  }

  /** Flattening a reshaped vector gives the vector back. */
  lemma FlattenReshape(v: seq<nat>, numx: nat, numy: nat)
    requires |v| == numx * numy
    ensures Flatten(Reshape(v, numx, numy).value) == v
  {
    var g := Reshape(v, numx, numy).value;
    FlattenLength(g, numx, numy);
    var f := Flatten(g);
    forall i | 0 <= i < |v|
      ensures f[i] == v[i]
    {
      var x, y := PlaceOfCell(i, numx, numy);
      FlattenCell(g, numx, numy, x, y);
    }
  }

  /** The first simulation of a run (the end of `main`): `numx * numy` samples become the start
      vector, reshaped to the field. Both strategies are handed the same field. */
  function InitialLife(samples: seq<bool>, args: Arguments): (l: Life)
    requires |samples| == args.numx * args.numy
    ensures Valid(l) && l.rules == args.rule && l.numx == args.numx && l.numy == args.numy
    ensures forall x, y | 0 <= x < l.numx && 0 <= y < l.numy ::
      RowMajor(x, y, l.numy) < |samples|
      && (l.field[x][y] == 0 || l.field[x][y] == args.rule.state)
      && (args.rule.state != 0 ==> (l.field[x][y] == args.rule.state <==> samples[RowMajor(x, y, l.numy)]))
  {
    var v := InitialVector(samples, args.rule.state);
    var field := Reshape(v, args.numx, args.numy).value;
    Life(field, args.rule, args.numx, args.numy)
  }

  /** With a non-zero state the first simulation meets the convolution step's requirement. */
  lemma InitialLifeWellFormed(samples: seq<bool>, args: Arguments)
    requires |samples| == args.numx * args.numy && args.rule.state >= 1
    ensures WellFormed(InitialLife(samples, args))
  {
  }
}
