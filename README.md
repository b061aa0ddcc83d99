# Game of Life engine, modelled in Dafny

This project models the engine of a JavaScript Conway's Game of Life with the B3/S23 rule. The grid is bounded, and every cell outside it counts as dead. The repository holds two engines, and both are modelled:

- **The layered engine.**
  - `CellState` (module `CellState`) holds the constants DEAD = 0 and ALIVE = 1, with `fromValue` and `toggle`.
  - `Position` (module `Positions`) is an integer pair with `offset` and `isInBounds`, plus the `"row,col"` key written by `toString` and read back by `fromString`.
  - `Grid` (module `Grids`) is a class over a two-dimensional array. `getCell` reads DEAD outside the grid, and `setCell` ignores writes outside it.
  - `GameRules` (module `GameRules`) counts the live cells among the eight neighbours and applies the next-state rule.
  - `GameOfLife` (module `Core`) computes each generation: it sweeps the old grid, writes into a clone, then replaces its grid with the clone.
- **The older two-buffer engine** (`src/life.js`, module `Life`). It writes the next generation into `nextGrid`, copies that back into `grid`, and zeroes `nextGrid`.

Both engines change state in place, so both are Dafny classes over `array2<int>`:

- a method's `modifies` clause names the arrays it writes;
- every method that changes a whole board is proved against a specification function on the value type `Boards.Board`, which `Boards.OfArray` reads out of an array, and its `ensures` clause states its new state as that function of the old state;
- the two-buffer engine's `CopyAndResetGrid`, `ApplyRules` and `SweepRow` work cell by cell, and their `ensures` clauses state their effect cell by cell on the arrays.

Specification functions:

- `GameRules.LiveNeighborCount` is the neighbour count.
- `Core.NextGeneration` is one generation of the layered engine.
- `Life.NeighborSum` and `Life.NextGen` are their counterparts in the two-buffer engine.

The main results:

- **The sweep computes the next generation.** `computeNextGeneration` leaves in the grid, at every cell, the rule applied to the old cell and to the old cell's neighbour count. No cell written during the sweep affects a later one.
- **Both engines agree on boards of 0s and 1s.** The two-buffer engine sums neighbour values where the layered engine counts ALIVE neighbours. On a board holding only 0s and 1s, one step of each gives the same board (`Life.DoubleBufferMatchesLayered`, `Life.StepBoth`).
- **The test patterns behave as expected.** The block is a still life, the blinker has period two, and the L-shape has the neighbour counts the grid tests assert (module `Patterns`). The scenario methods `InitializationScenario`, `BlockScenario` and `BlinkerScenario` restate the engine's tests against the class contracts. A test comment about the L-shape says one count is 3, but the test asserts 2. `Patterns.LShapeCounts` proves 2.

The inner loop of each sweep is its own method (`SweepRow`) with its own contract. The loops and the order in which cells are visited are the same as in the source.

## Model

| member | source | states |
|---|---|---|
| CellState.FromValue | src/models/CellState.js:15-17 | the result is always DEAD or ALIVE, and it is ALIVE exactly when the value is 1 |
| CellState.Toggle | src/models/CellState.js:24-26 | the result is always DEAD or ALIVE; it is DEAD exactly when the input is ALIVE, so every other value, DEAD included, becomes ALIVE |
| CellState.ToggleInvolution | src/models/CellState.js:24-26 | on the two states, toggling twice gives the state back |
| CellState.FromValueKeepsStates | src/models/CellState.js:15-17 | `fromValue` maps DEAD to DEAD and ALIVE to ALIVE |
| Positions.Position.Offset | src/models/Position.js:21-23 | the moved position differs from this one by exactly the row and column offsets |
| Positions.Position.IsInBounds | src/models/Position.js:31-33 | a position can only be in bounds of a grid with at least one row and one column |
| Positions.Position.ToString | src/models/Position.js:39-41 | the key reads back, through `fromString`, as this position |
| Positions.Position.FromString | src/models/Position.js:48-51 | a key without a comma gives no position |
| Positions.OffsetComposes | src/models/Position.js:21-23 | offsetting by (a, b) and then by (c, d) is offsetting by (a + c, b + d) |
| Positions.OffsetInverse | src/models/Position.js:21-23 | the opposite offset brings a position back |
| Positions.NothingInEmptyBounds | src/models/Position.js:31-33 | when rows <= 0 or cols <= 0, no position is in bounds |
| Positions.BoundaryEdges | src/models/Position.js:31-33 | row -1 and column `cols` are out of bounds; (rows - 1, cols - 1) is in bounds when the grid is non-empty |
| Positions.KeyRoundTrip | src/models/Position.js:39-51 | reading back the key of any integer position gives that position |
| Positions.KeyIdentifiesPosition | src/models/Position.js:39-41 | two positions have the same key exactly when they are equal |
| Grids.Grid.constructor | src/domain/Grid.js:13-17 | a new grid has the given dimensions, fresh storage, and every cell DEAD |
| Grids.Grid.CreateEmptyGrid | src/domain/Grid.js:95-104 | returns a fresh rows x cols table whose every cell is DEAD |
| Grids.Grid.GetDimensions | src/domain/Grid.js:23-28 | the dimensions are those of the cell table |
| Grids.Grid.GetCell | src/domain/Grid.js:35-40 | DEAD for every out-of-bounds position; otherwise the stored value, as the board view reads it |
| Grids.Grid.SetCell | src/domain/Grid.js:47-51 | the new contents are the old ones with `state` written at the position when it is in bounds; all other cells are kept, and nothing changes out of bounds |
| Grids.Grid.ToggleCell | src/domain/Grid.js:58-66 | in bounds, stores and returns the toggle of the old value and changes nothing else; out of bounds, returns DEAD and changes nothing |
| Grids.ToggleTwiceRestores | src/domain/Grid.js:58-66 | on a cell holding DEAD or ALIVE, toggling twice gives back the whole grid |
| Grids.Grid.Reset | src/domain/Grid.js:72-74 | installs fresh storage in which every cell is DEAD; the dimensions are kept |
| Grids.Grid.Clone | src/domain/Grid.js:80-88 | a fresh grid with fresh storage, the same dimensions and the same contents |
| GameRules.LiveNeighborCount | src/services/GameRules.js:24-38 | the neighbour count is at most 8 |
| GameRules.CountLiveNeighbors | src/services/GameRules.js:24-38 | the loop returns the number of the eight offsets that land in bounds on an ALIVE cell, which is at most 8 |
| GameRules.NeighborhoodIsMoore | src/services/GameRules.js:12-16 | the offsets are the eight cells around a cell, each listed once, and (0, 0) is not among them |
| GameRules.LiveNeighborCountUnfolded | src/services/GameRules.js:12-16 | the count is the sum, over the eight neighbours, of 1 for each one that is in bounds and ALIVE |
| GameRules.NoLiveNeighborsOnDeadBoard | src/services/GameRules.js:31-32 | on an all-DEAD board, every position has 0 live neighbours |
| GameRules.DetermineNextState | src/services/GameRules.js:46-71 | the result is ALIVE exactly with 3 neighbours, or with 2 when the cell is ALIVE; otherwise a live cell becomes DEAD and any other value is kept; the two states map to the two states |
| GameRules.RuleTable | tests/domain/Grid.test.js:34-59 | underpopulation, survival, overpopulation and reproduction, on the counts the tests use |
| Core.NextGeneration | src/core/GameOfLife.js:28-45 | the next board has the same dimensions, and each in-bounds cell is the rule applied to the old cell and to its neighbour count in the old board |
| Core.GameOfLife.constructor | src/core/GameOfLife.js:14-16 | a new game holds a fresh all-DEAD grid of the given size |
| Core.GameOfLife.ResetGrid | src/core/GameOfLife.js:21-23 | every cell becomes DEAD and the dimensions are kept |
| Core.GameOfLife.ComputeNextGeneration | src/core/GameOfLife.js:28-45 | the new grid is fresh and holds the next generation of the old one; at every in-bounds cell it holds the rule applied to the old cell and to its old neighbour count |
| Core.GameOfLife.SweepRow | src/core/GameOfLife.js:33-40 | after one row, the clone agrees with the next generation on every row so far, every cell of the other rows is kept, and the current grid is only read |
| Core.GameOfLife.SetCell | src/core/GameOfLife.js:53-55 | same bounds semantics as the grid's `setCell` at (row, col) |
| Core.GameOfLife.GetCell | src/core/GameOfLife.js:63-65 | DEAD out of bounds; otherwise the value at (row, col) |
| Core.GameOfLife.ToggleCell | src/core/GameOfLife.js:73-75 | same bounds semantics as the grid's `toggleCell` at (row, col) |
| Core.GameOfLife.GetDimensions | src/core/GameOfLife.js:81-83 | the dimensions of the current grid |
| Core.NextAt | src/core/GameOfLife.js:33-40 | each in-bounds cell of the next generation is the rule applied to the old cell and its neighbour count |
| Core.DeadBoardStaysDead | src/core/GameOfLife.js:28-45 | an all-DEAD board is its own next generation |
| Core.NextGenerationKeepsBinary | src/core/GameOfLife.js:28-45 | a board holding only DEAD and ALIVE still does one generation later |
| Life.NextGen | src/life.js:38-46 | the next board has the same dimensions, and each cell is the two-buffer rule applied to the old value and to its neighbour sum |
| Life.GameOfLife.constructor | src/life.js:14-19 | both buffers are fresh, rows x cols, distinct, and all 0 |
| Life.GameOfLife.ResetGrids | src/life.js:26-33 | every cell of both buffers becomes 0 |
| Life.GameOfLife.ComputeNextGen | src/life.js:38-46 | `grid` ends up holding the next generation of the old `grid`, and `nextGrid` is all 0 |
| Life.GameOfLife.SweepRow | src/life.js:39-43 | after row i, every cell of row i of `nextGrid` holds the rule's outcome on `grid`; every other row of `nextGrid` is unchanged |
| Life.GameOfLife.SetCell | src/life.js:54-56 | writes the value at (row, col) of `grid` and changes no other cell |
| Life.GameOfLife.GetCell | src/life.js:64-66 | the value stored at (row, col) of `grid` |
| Life.GameOfLife.GetDimensions | src/life.js:72-74 | the dimensions of the buffers |
| Life.GameOfLife.InitGrid | src/life.js:83-91 | returns a fresh rows x cols table of zeros |
| Life.GameOfLife.CopyAndResetGrid | src/life.js:97-104 | every cell of `grid` holds the old `nextGrid` value, and `nextGrid` is all 0 |
| Life.GameOfLife.ApplyRules | src/life.js:112-123 | writes the rule's outcome at (row, col) of `nextGrid`, reading only `grid`, and leaves every other cell of `nextGrid` unchanged |
| Life.GameOfLife.CountNeighbors | src/life.js:131-148 | the loop returns the sum of `grid` over the in-bounds cells among the eight neighbours |
| Life.NeighborSumUnfolded | src/life.js:131-148 | the neighbour sum written out over the eight neighbours in the order this engine visits them |
| Life.RulesAgree | src/life.js:112-123 | this engine's rule agrees with `determineNextState` for every value and every count |
| Life.NeighborSumIsLiveCount | src/life.js:131-148 | on a board of 0s and 1s, the sum of the neighbour values equals the live-neighbour count, and so it lies in [0, 8] |
| Life.DoubleBufferMatchesLayered | src/life.js:38-46 | on a board of 0s and 1s, the two-buffer step and the layered engine's step give the same board |
| Life.StepBoth | src/life.js:38-46 | two engines started on the same board of 0s and 1s hold the same board after one step each |
| Patterns.InitializationScenario | tests/core/GameOfLIfe.test.js:11-42 | a new 5 x 5 game reports its dimensions and is all DEAD; the set, get and toggle steps of the test leave it all DEAD again |
| Patterns.BlockScenario | tests/core/GameOfLIfe.test.js:45-65 | after the four writes and one generation the game still holds the block, and the four cells read ALIVE |
| Patterns.BlinkerScenario | tests/core/GameOfLIfe.test.js:67-97 | after the three writes and two generations the game holds the upright blinker again |
| Patterns.BlockIsStillLife | tests/core/GameOfLIfe.test.js:45-65 | the 2 x 2 block on a 5 x 5 board is its own next generation |
| Patterns.VerticalBlinkerTurns | tests/core/GameOfLIfe.test.js:67-86 | the upright blinker becomes the flat blinker |
| Patterns.HorizontalBlinkerTurns | tests/core/GameOfLIfe.test.js:88-96 | the flat blinker becomes the upright blinker |
| Patterns.BlinkerHasPeriodTwo | tests/core/GameOfLIfe.test.js:67-97 | the blinker comes back after two generations but not after one |
| Patterns.LShapeCounts | tests/domain/Grid.test.js:13-32 | around the L-shape, the counts are 3 at (2,2), 2 at (1,1) and 2 at (1,2) |
| Patterns.BlockFromWrites | tests/core/GameOfLIfe.test.js:52-55 | the four `setCell` writes on an empty 5 x 5 board give the block |
| Patterns.BlinkerFromWrites | tests/core/GameOfLIfe.test.js:74-76 | the three `setCell` writes on an empty 5 x 5 board give the upright blinker |
| Patterns.SetUpBlock | tests/core/GameOfLIfe.test.js:52-55 | a new 5 x 5 game, after the four writes, holds the block |
| Patterns.SetUpBlinker | tests/core/GameOfLIfe.test.js:74-76 | a new 5 x 5 game, after the three writes, holds the upright blinker |
| Patterns.StepUprightBlinker | tests/core/GameOfLIfe.test.js:79-86 | one `computeNextGeneration` on a game holding the upright blinker leaves it holding the flat blinker |
| Patterns.StepFlatBlinker | tests/core/GameOfLIfe.test.js:89-96 | one more `computeNextGeneration` stands the blinker upright again |

## Left out

- Positions.Position.FromString: JavaScript `Number` parsing is not modelled. A piece that is not an optionally signed run of decimal digits gives `None`, where JavaScript would produce a number or NaN. This covers whitespace, `+`, fractions, exponents, hexadecimal and the empty string. A key with fewer than two comma-separated pieces also gives `None`, where JavaScript builds a Position whose `col` is `undefined`. Non-integer coordinates are not modelled either.
- Grids.Grid.constructor: dimensions are `nat`, so negative sizes are not modelled. Zero rows or zero columns are allowed and give a grid with no cells.
- Core.GameOfLife.constructor: dimensions are `nat`, as for the grid.
- Life.GameOfLife.constructor: dimensions are `nat`, as for the grid.
- Life.GameOfLife.SetCell: requires (row, col) inside the grid. The source does no bounds check, and JavaScript would throw or add a stray array property.
- Life.GameOfLife.GetCell: requires (row, col) inside the grid, for the same reason as `setCell`. JavaScript would throw or return `undefined`.
- Cell values are unbounded integers. JavaScript's floating-point numbers, and values such as `undefined`, are not modelled. Both engines accept any integer in a cell, as the source does. The layered engine compares cells with ALIVE, while the two-buffer engine sums them. The agreement between the engines is proved for boards of 0s and 1s only, because it fails on other values.
- Each grid is a rectangular `array2`, so ragged rows of nested JavaScript arrays are not modelled. No in-range operation makes rows ragged. An out-of-range `setCell` of the two-buffer engine would: with a valid row and a column past the last, it lengthens that row. The precondition of `Life.GameOfLife.SetCell` excludes that call.
- `src/app.js` and `src/GameApp.js` (DOM rendering, event handlers, and timer-driven play loops) are not part of this model. They only delegate to the engines.
- `vitest.config.js` is build configuration and is not part of this model.
