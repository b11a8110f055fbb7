# Game of Life engine — a Dafny model

This project models the simulation core of the ChHecker/GameOfLife program, a Life-like cellular
automaton written in Rust. It models:

- the rule model: `LifeRule`, `Rule`, `NeighborRule` with its parser;
- neighbour counting under Moore and Von Neumann adjacency, with open edges;
- the two stepping strategies of the multi-state engine:
  - the direct per-cell update (`GameOfLifeStd`);
  - the update computed from a zero-bordered kernel convolution (`GameOfLifeConvolution`);
- the engine's flat cell iterator;
- the older boolean engine in `src/game_of_life.rs`;
- the pure part of the command line in `src/main.rs`:
  - reading the algorithm name;
  - resolving absent options to their defaults;
  - building the first field from the random start vector.

A field is a `seq<seq<nat>>` indexed `[x][y]`. It has `numx` columns of `numy` cells. A cell
holds 0 when dead and `state` when alive; values in between are cells that are dying one step
per generation. The convolution is a true convolution: the kernel is flipped, and cells outside
the field read as 0.

Modules, in dependency order:

| module | file | contents |
|---|---|---|
| `Wrappers` | wrappers.dfy | `Option` and `Result` with the `:-` protocol |
| `Text` | text.dfy | ASCII lowercasing, as both parsers use |
| `Grid` | grid.dfy | field shape, clipped slices and their sums, 3x3 convolution, both kernels |
| `Arith` | arith.dfy | division and bounds facts about row-major positions `y * n + x` |
| `Rules` | rules.dfy | `LifeRule`, `into_array`, `Rule`, the default rule, `NeighborRule` parsing and display |
| `Engine` | engine.dfy | the simulation, its accessors, both neighbour counts, the direct step, the convolution step |
| `Strategies` | strategies.dfy | where the two steps agree or part, the corrected convolution update, runs of many generations |
| `Scenarios` | scenarios.dfy | the engine's unit-test fields, for every all-alive field of that shape |
| `LifeIterator` | lifeiterator.dfy | `GameOfLifeIter` as written and as corrected |
| `Classic` | classic.dfy | the boolean engine and its refinement into the multi-state one |
| `Cli` | cli.dfy | `Algorithm`, `parse_cli`, the start vector and its reshape into the first field |

## Model

| member | source | states |
|---|---|---|
| Text.Lower | src/gameoflife.rs:20 | Lowercasing keeps the length and lowers exactly the letters `A`–`Z`, leaving every other character unchanged |
| Text.LowerIdempotent | src/main.rs:79 | Lowercasing twice is lowercasing once |
| Rules.SetCount | src/gameoflife.rs:54 | Setting one flag succeeds iff the index is below 9; it adds exactly that count, and a failure names the index |
| Rules.SetRange | src/gameoflife.rs:55-59 | Setting flags over `[a, b)` succeeds iff the range is empty or ends by 9; it adds exactly the range; a failure names the first bad index |
| Rules.SetAll | src/gameoflife.rs:60-64 | Setting listed flags succeeds iff every listed count is below 9; it adds exactly the listed counts; a failure names the first bad entry in list order |
| Rules.IntoArray | src/gameoflife.rs:51-68 | The mask holds exactly the counts the form selects; conversion fails iff a selected count is 9 or more, naming such a count; a raw mask is returned unchanged |
| Rules.NumbersIgnoreOrder | src/gameoflife.rs:60-64 | Two count lists naming the same set convert to the same mask, whatever their order or repetition |
| Rules.NewRule | src/gameoflife.rs:85-92 | The built rule has exactly the selected survival and birth counts and the given state and mode; it fails iff some selected count is out of range; a bad survival form is reported first |
| Rules.DefaultRule | src/gameoflife.rs:95-104 | The default rule survives on 2 or 3 neighbours, gives birth on 3, has two states and Moore adjacency |
| Rules.DefaultIsConway | src/gameoflife.rs:95-104 | The range, single-count, list and raw forms of S23/B3 all build the default rule |
| Rules.ParseNeighborRule | src/gameoflife.rs:16-29 | Moore iff the lowercased text is `m` or `moore`; Von Neumann iff it is `v`, `vn` or `vonneumann`; an error otherwise |
| Rules.ParseNeighborRuleIgnoresCase | src/gameoflife.rs:19-20 | The neighbour parser gives the same answer for a text and its lowercase form |
| Rules.ShowNeighborRule | src/gameoflife.rs:31-38 | Moore's display text lowercases to a Moore keyword; Von Neumann's display text lowercases to no keyword at all |
| Rules.ShowNeighborRuleReadsBack | src/gameoflife.rs:31-38 | Moore's display text parses back to Moore; Von Neumann's display text, `von Neumann`, is rejected by the parser |
| Grid.ClipLow | src/gameoflife.rs:157 | The window's low edge is one below the index, clipped at 0 |
| Grid.ClipHigh | src/gameoflife.rs:156 | The window's exclusive high edge is two above the index, clipped at the field size, and always past the index |
| Grid.RowWindow | src/gameoflife.rs:158-161 | Summing a column over its clipped window equals summing the three zero-padded neighbours along it |
| Grid.ClippedSliceIsBlock | src/gameoflife.rs:156-163 | The sum of the clipped 3x3 slice equals the zero-padded 3x3 block sum |
| Grid.Convolve | src/gameoflife.rs:303-308 | The convolved field has the input's shape, and each cell is the kernel-weighted sum of its zero-padded neighbourhood |
| Grid.MooreIsBlockWithoutCentre | src/gameoflife.rs:299 | Convolving with the Moore kernel gives the 3x3 block sum less the centre |
| Grid.MooreAtMostEight | src/gameoflife.rs:299 | A Moore count over a 0/1 mask is at most 8 |
| Grid.VonNeumannIsAxisSum | src/gameoflife.rs:300 | Convolving with the plus kernel gives the sum of the four axis neighbours |
| Grid.VonNeumannAtMostFour | src/gameoflife.rs:300 | A Von Neumann count over a 0/1 mask is at most 4 |
| Grid.Span | src/gameoflife.rs:156-159 | The clipped window of an index is 1 to 3 cells wide |
| Grid.ConvolveOnOnes | src/gameoflife.rs:347-383 | On an all-ones field the Moore count is the window area less one, and the Von Neumann count is the two window widths less two |
| Engine.NewLife | src/gameoflife.rs:208-218 | A new simulation keeps the field and rule and reads `numx` and `numy` off the field's shape |
| Engine.Cell | src/gameoflife.rs:240-245 | A cell is present iff both coordinates are inside the field, and then it is the field's value |
| Engine.AliveMask | src/gameoflife.rs:304 | The mask has the field's shape, is 0/1, and is 1 exactly at the cells equal to `state` |
| Engine.KernelCountBounded | src/gameoflife.rs:310-311 | Every convolved count is at most 8, so it is a valid index into the nine survival and birth flags; under Von Neumann it is at most 4 |
| Engine.MooreCount | src/gameoflife.rs:155-166 | The clipped-slice count less the centre equals the Moore convolution of the alive mask at that cell, and is at most 8 |
| Engine.VonNeumannCount | src/gameoflife.rs:167-186 | Adding the existing alive axis neighbours equals the plus-kernel convolution of the alive mask, and is at most 4 |
| Engine.CountLivingNeighbors | src/gameoflife.rs:153-188 | The direct neighbour count equals the convolution of the alive mask with the mode's kernel |
| Engine.KernelOf | src/gameoflife.rs:298-301 | Each kernel entry is 0 or 1, and is 1 exactly at the neighbours of the centre: all eight surrounding cells under Moore; the four cells in the centre's row or column under Von Neumann |
| Engine.StdCell | src/gameoflife.rs:227-235 | The direct update makes a cell `state` or decays it by one, never beyond `state`, and always `state` on birth |
| Engine.NextGenerationStd | src/gameoflife.rs:221-238 | The direct step keeps the shape and rule, and reads every cell's update only from the previous generation |
| Engine.UpdateStdCell | src/gameoflife.rs:226-235 | The per-cell work writes exactly the direct update into the buffer at that cell and nothing else |
| Engine.ComputeNextGenerationStd | src/gameoflife.rs:221-238 | Filling a fresh zero buffer cell by cell yields exactly the direct next generation |
| Engine.ConvCell | src/gameoflife.rs:310-320 | The u8 convolution formula stays within `0..state`. Birth gives `state`. No survival and no birth decays the cell by one. Survival without birth gives 1 to an alive cell and 0 to any other |
| Engine.ConvolvedCounts | src/gameoflife.rs:298-308 | The convolved alive mask has the field's shape, and every count is at most 8 |
| Engine.NextGenerationConv | src/gameoflife.rs:297-321 | The convolution step keeps the shape and rule, keeps every cell between 0 and `state` (`WellFormed`), and applies `Engine.ConvCell` to each cell's convolved count |
| Strategies.ConvolvedCountIsNeighborCount | src/gameoflife.rs:303-308 | The convolved count at a cell is that cell's direct neighbour count |
| Strategies.StdStaysInRange | src/gameoflife.rs:221-238 | The direct step keeps every cell between dead and alive |
| Strategies.StdCellMeaning | src/gameoflife.rs:226-235 | The direct step makes a cell alive iff birth or alive-and-surviving; otherwise it moves the cell one state toward 0 |
| Strategies.ConvCellVersusStdCell | src/gameoflife.rs:310-320 | The two update formulas differ at a cell iff survival holds, birth does not, and the cell holds at least 2. The values then differ as stated |
| Strategies.ConvMatchesStdWhenTwoState | src/gameoflife.rs:475-517 | With state 1, the convolution step and the direct step give the same next generation on every valid field |
| Strategies.ConvMatchesStdOnZeroOneField | src/gameoflife.rs:431-473 | For any state, the two steps give the same next generation on a field whose cells are all 0 or 1 |
| Strategies.ConvDiffersFromStdExactly | src/gameoflife.rs:297-321 | For any state, the two steps differ at exactly the cells where survival holds, birth does not, and the cell holds at least 2 |
| Strategies.ConvCellIntendedIsStdCell | src/gameoflife.rs:310-320 | The corrected formula keeps an alive surviving cell at `state`, and equals the direct update for every cell, count and rule |
| Strategies.ConvIntendedMatchesStd | src/gameoflife.rs:297-321 | The corrected convolution step equals the direct step on every well-formed field |
| Strategies.NextGenerationConvIntended | src/gameoflife.rs:297-321 | The corrected convolution step keeps the shape, the rule and the cell range |
| Strategies.TwoStateRunsAgree | src/gameoflife.rs:113-114 | With state 1, any number of convolution generations equals the same number of direct generations |
| Strategies.IntendedRunsAgree | src/gameoflife.rs:113-114 | Any number of corrected convolution generations equals the same number of direct generations, for every state |
| Strategies.DecayCountdown | src/gameoflife.rs:232-235 | A cell not revived for `n` generations loses one state per generation, then stays dead |
| Scenarios.AllAliveCounts | src/gameoflife.rs:153-188 | On an all-alive field a cell's count depends only on its clipped window: window area less one (Moore), window widths less two (Von Neumann) |
| Scenarios.StepsOnAllAlive | src/gameoflife.rs:297-321 | On an all-alive Moore field both steps apply their formula at the alive state and the window area less one |
| Scenarios.StdOnAllAlive | src/gameoflife.rs:221-238 | On an all-alive Moore field, the direct step applies its update at the alive state and the window area less one |
| Scenarios.MooreCountsOnFullBlock | src/gameoflife.rs:347-364 | Every all-alive 3x3 Moore field has convolved counts 3/5/3, 5/8/5, 3/5/3, and its direct count agrees at every cell |
| Scenarios.VonNeumannCountsOnFullBlock | src/gameoflife.rs:366-383 | Every all-alive 3x3 Von Neumann field has convolved counts 2/3/2, 3/4/3, 2/3/2, and its direct count agrees at every cell |
| Scenarios.StdOnFullBlock | src/gameoflife.rs:385-400 | Under the default rule, the direct step on an all-alive 3x3 field keeps only the corners |
| Scenarios.ConvOnFullBlockStateTwo | src/gameoflife.rs:402-429 | With state 2, the convolution step on an all-alive 3x3 field gives `state` at the corners and `state - 1` elsewhere |
| Scenarios.StrategiesPartOnShortColumn | src/gameoflife.rs:310-320 | With state 2, on an all-alive 1 by 3 field the direct step gives 1, 2, 1 but the convolution step gives 1, 1, 1 |
| Scenarios.ShortColumnCounterexample | src/gameoflife.rs:310-320 | The field `[[2, 2, 2]]` with state 2 is well-formed, yet the two steps give different next generations |
| LifeIterator.IntoIter | src/gameoflife.rs:268-279 | A fresh iterator stands at flat index 0 of the simulation it owns |
| LifeIterator.Next | src/gameoflife.rs:133-141 | As written, `next` moves the cursor one flat index on, x fastest, and yields the cell at the new index |
| LifeIterator.CellAtSome | src/gameoflife.rs:240-245 | A flat index reads a cell iff it is below `numx * numy` |
| LifeIterator.Advance | src/gameoflife.rs:133-141 | Repeated `next` calls keep the cursor valid and on the same simulation |
| LifeIterator.AdvancePos | src/gameoflife.rs:133-141 | After `k` calls the cursor stands at flat index `k` |
| LifeIterator.AdvanceCursor | src/gameoflife.rs:137-138 | After `k` calls the cursor is at column `k % numx` of row `k / numx` |
| LifeIterator.NextNeverReadsOrigin | src/gameoflife.rs:136-140 | No call of `next` reads cell `(0, 0)` |
| LifeIterator.Collect | src/gameoflife.rs:133-141 | Draining the as-written iterator yields the cells at flat indices 1 to `numx * numy - 1` in order: one fewer than the field holds |
| LifeIterator.NextIntended | src/gameoflife.rs:133-141 | Corrected: `next` yields the cell under the cursor, then moves the cursor one flat index on |
| LifeIterator.CollectIntended | src/gameoflife.rs:133-141 | Draining the corrected iterator yields all `numx * numy` cells in x-fastest order, starting at `(0, 0)` |
| LifeIterator.OneCellField | src/gameoflife.rs:136-140 | On a 1 by 1 field the as-written iterator yields nothing, while the corrected one yields the cell |
| Classic.Bits | src/game_of_life.rs:135 | The 0/1 image of a boolean field keeps its shape and is 1 exactly at the alive cells |
| Classic.Cell | src/game_of_life.rs:101-103 | An in-bounds cell is alive exactly where the field's 0/1 image holds 1 |
| Classic.Conway | src/game_of_life.rs:94 | Fewer than 2 or more than 3 neighbours leave a cell dead. Exactly 3 make it alive. Exactly 2 keep its current value |
| Classic.ConwayIsDefaultRule | src/game_of_life.rs:94 | Conway's boolean rule is the multi-state engine's default rule on the cell's 0/1 value |
| Classic.NextGenerationStd | src/game_of_life.rs:88-99 | The boolean direct step keeps the shape, and every cell takes Conway's rule on its own clipped-slice count from the previous generation |
| Classic.NextGenerationConv | src/game_of_life.rs:132-149 | The boolean convolution step keeps the shape, and every cell takes Conway's rule on its count from one zero-bordered Moore convolution |
| Classic.CountLivingNeighbors | src/game_of_life.rs:64-74 | The clipped-slice count less the centre equals the Moore convolution of the field's 0/1 image, and is at most 8 |
| Classic.UpdateCell | src/game_of_life.rs:143-147 | The per-cell update writes exactly Conway's rule for that cell and count |
| Classic.StepColumn | src/game_of_life.rs:140-148 | Updating one column in place from the convolved counts yields that column of the convolution step |
| Classic.NextGenerationConvInPlace | src/game_of_life.rs:132-149 | The in-place update over all columns yields exactly the convolution step |
| Classic.ConvMatchesStd | src/game_of_life.rs:267-321 | The boolean engine's convolution step and direct step give the same next generation on every field |
| Classic.Lift | src/game_of_life.rs:55-60 | A boolean field maps to a well-formed multi-state field under the default rule, alive exactly where the cell is 1 |
| Classic.RefinesEngine | src/game_of_life.rs:88-149 | Mapping a boolean field into the multi-state engine commutes with both the direct step and the convolution step |
| Classic.CountsOnFullBlock | src/game_of_life.rs:217-229 | Every all-alive 3x3 boolean field has Moore-convolved counts 3/5/3, 5/8/5, 3/5/3, and its clipped-slice count agrees at every cell |
| Classic.StdOnAllAlive | src/game_of_life.rs:88-99 | On an all-alive boolean field, a cell's next value is Conway's rule at its window area less one |
| Classic.StepsOnFullBlock | src/game_of_life.rs:231-265 | Both boolean steps on an all-alive 3x3 field keep only the corners |
| Cli.ParseAlgorithm | src/main.rs:78-86 | Std iff the lowercased text is `std` or `standard`; Conv iff it is `conv` or `convolution`; an error otherwise |
| Cli.ShowAlgorithmReadsBack | src/main.rs:89-96 | Each algorithm's display text parses back to that algorithm |
| Cli.ParseAlgorithmIgnoresCase | src/main.rs:79 | The algorithm parser gives the same answer for a text and its lowercase form |
| Cli.CliRule | src/main.rs:149-154 | The command-line rule survives on 2 or 3, gives birth on 3, and takes the given state and mode |
| Cli.CliRuleIsDefault | src/main.rs:147-154 | With state 1 and Moore, the command-line rule is the default rule |
| Cli.ParseCli | src/main.rs:115-208 | Options are checked in order, and each invalid one fails with its own error: algorithm, then neighbour mode, then a probability outside `[0, 1]`. A success carries the given values or the defaults (Conv, Moore, state 1, 10 generations, 500 ms, 0.2), and its rule is always S23/B3 with the chosen state and mode. A GIF field is `-x` by `-y`, each defaulting to 10. A TUI field is what `get_size` gives for `-x`, `-y` and the terminal, so an explicit `-x` or `-y` wins over the terminal size |
| Cli.GetSize | src/presentation.rs:213-220 | An explicit `-x`/`-y` is used as given. Otherwise the terminal's width/height less a two-cell border is used, in `u16` arithmetic (`LessBorder`). Without a terminal size, the default is 10 |
| Cli.LessBorder | src/presentation.rs:215-216 | The terminal dimension less 2 in `u16` arithmetic, which wraps below 2 |
| Cli.ShowAlgorithm | src/main.rs:89-96 | Each algorithm's display text is already lowercase and is one of that algorithm's keywords |
| Cli.DefaultsWhenAbsent | src/main.rs:117-158 | With only a subcommand, the run uses Conv under the default rule, 10 generations of 500 ms, and probability 0.2 |
| Cli.InitialVector | src/main.rs:494-496 | The start vector has one entry per sample, each 0 or `state`; with a non-zero state an entry is `state` iff its sample is true |
| Cli.Reshape | src/main.rs:516-518 | Reshaping succeeds iff the length is `numx * numy`; the result is `numx` by `numy` and cell `(x, y)` is entry `x * numy + y` |
| Cli.FlattenLength | src/main.rs:501-503 | A flattened `numx` by `numy` field has `numx * numy` entries |
| Cli.FlattenCell | src/main.rs:501-503 | Flattening puts cell `(x, y)` at entry `x * numy + y` |
| Cli.ReshapeFlatten | src/main.rs:516-518 | Reshaping a flattened field gives the field back |
| Cli.FlattenReshape | src/main.rs:516-518 | Flattening a reshaped vector gives the vector back |
| Cli.InitialLife | src/main.rs:494-519 | The first simulation has the chosen rule and size; each cell is 0 or `state`, and with a non-zero state it is alive iff its row-major sample is true |
| Cli.InitialLifeWellFormed | src/main.rs:494-496 | With a non-zero state, the first simulation meets the convolution step's cell-range requirement |

## Left out

- The FFT-based engine (`GameOfLifeFFT`) and the GIF plotting `start` method of the boolean engine are floating-point code and rendering.
- Rendering is left out. This covers the GIF and terminal presentations, the progress bar, and the interactive dialogue (`from_dialogue`, `handle_path`, `format_path`), all I/O.
- Parallel iteration over the field (`par_for_each`, `RwLock`) is modelled as a pure map. Each cell reads only the previous generation, so the order does not matter.
- Randomness: the start vector's Bernoulli samples are the `samples` parameter of `Cli.InitialLife`.
- Cli.ParseCli: the terminal size query inside `get_size` is the `terminal` parameter, `None` when the query fails. The GIF output name is kept as given: `handle_path` (src/main.rs:387-418) is not modelled. That call appends `.gif` to a name without an extension, exits (`exitcode::CONFIG`) on any other extension, which is an error path of `parse_cli` the model does not have, and prompts before overwriting an existing file. The probability is a real, so the `f32` NaN case is not modelled.
- Cli.LessBorder: models a release build, where `w - 2` on a terminal narrower than 2 wraps around. A debug build panics instead.
- Cli.ParseCli: `iterations`, `timeiter`, `x` and `y` are unbounded naturals, not `usize`/`u32`.
- Cli.InitialLife: `numx * numy` is taken as unbounded. The source's `u32` multiplication could overflow for huge sizes.
- Engine.NextGenerationConv: requires a state of at least 1 and no cell above `state` (`Engine.WellFormed`). This is stronger than the code needs. The `u8` subtraction `state - elem` at src/gameoflife.rs:320 underflows in only two cases:
  - when `state` is 0 and a cell at 0 has a count in the survival set;
  - when a cell holds `state + 2` or more and its count is outside the survival set.

  A cell at exactly `state + 1` is harmless, but the requirement excludes it. Every call in `main` meets the requirement when the state is at least 1:
  - the start vector holds only 0 and `state` (`Cli.InitialVector`);
  - both steps keep every cell at most `state` (`Strategies.StdStaysInRange`, and the `WellFormed` ensures of `Engine.NextGenerationConv`).

  The dialogue rejects state 0. `parse_cli` accepts `-s 0`, and the model does not cover that state.
- Cli.InitialLifeWellFormed: requires a non-zero state, for the same reason.
- LifeIterator.Next: requires `numx >= 1`. The source divides by `numx`, which panics on a field with no columns.
- Classic.Cell: requires the coordinates to be inside the field. The boolean engine's indexing panics outside it.
- Text.Lower: ASCII lowercasing stands in for Unicode `to_lowercase`. The only non-ASCII character that lowercases into ASCII is the Kelvin sign, and it lowers to `k`. No keyword contains `k`, so every parser decision is unchanged.
- The `numx`, `numy` and `state` accessors are the fields of `Engine.Life`. Every step's contract says the step keeps them.
- The benchmarks are timing harnesses and state nothing about the engine.

## Findings

| source | as written | input that shows it | evidently intended | confidence | as-written member | corrected member |
|---|---|---|---|---|---|---|
| src/gameoflife.rs:310-320 | The convolution update computes `alive * survive + dec(old * (1 - survive))`. An alive cell whose count allows survival but not birth becomes 1 instead of staying at `state`. A dying cell with such a count drops straight to 0 | state 2, S23/B3, Moore, field `[[2, 2, 2]]`: the direct step gives `[[1, 2, 1]]`, the convolution step `[[1, 1, 1]]` | The same result as the direct step for every state, which the tests `algorithms_moore`/`algorithms_von_neumann` assert only on 0/1 fields. The fix is `keep = alive * survive; keep * state + dec(old * (1 - keep))` | not executed; the divergence is proved for every field | Strategies.ConvDiffersFromStdExactly, Scenarios.ShortColumnCounterexample | Strategies.NextGenerationConvIntended, Strategies.ConvIntendedMatchesStd |
| src/gameoflife.rs:133-141 | `next` moves the cursor before reading it. The first item is cell `(1, 0)`, cell `(0, 0)` is never yielded, and a field yields `numx * numy - 1` items | a 1 by 1 field: the iterator yields nothing | Read the cell under the cursor first, then advance, so every cell is yielded once from `(0, 0)` | not executed; proved for every field | LifeIterator.Collect, LifeIterator.OneCellField | LifeIterator.NextIntended, LifeIterator.CollectIntended |
