/** The patterns the engine's tests use, and what one generation does to them. */
module Patterns {
  import opened CellState
  import opened Positions
  import opened Boards
  import opened GameRules
  import opened Core

  /** A 5 x 5 board whose live cells are those satisfying `alive`. */
  function Pattern(alive: (int, int) -> bool): (b: Board)
    ensures b.Valid() && b.rows == 5 && b.cols == 5
    ensures forall p: Position | p.IsInBounds(5, 5) :: b.At(p) == if alive(p.row, p.col) then ALIVE else DEAD
  {
    Board(5, 5, seq(5, r => seq(5, c => if alive(r, c) then ALIVE else DEAD)))
  }

  // Which cells are live in each pattern.
  predicate InBlock(r: int, c: int) { 1 <= r <= 2 && 1 <= c <= 2 }
  predicate InVertical(r: int, c: int) { c == 2 && 1 <= r <= 3 }
  predicate InHorizontal(r: int, c: int) { r == 2 && 1 <= c <= 3 }
  predicate InLShape(r: int, c: int) { (r == 1 && (c == 1 || c == 2)) || (r == 2 && c == 1) }

  /** The 2 x 2 block at rows 1-2, columns 1-2. */
  function Block(): Board {
    Pattern(InBlock)
  }

  /** The blinker standing upright: rows 1-3 of column 2. */
  function VerticalBlinker(): Board {
    Pattern(InVertical)
  }

  /** The blinker lying flat: columns 1-3 of row 2. */
  function HorizontalBlinker(): Board {
    Pattern(InHorizontal)
  }

  /** Live cells at (1,1), (1,2) and (2,1). */
  function LShape(): Board {
    Pattern(InLShape)
  }

  /** The live-neighbour count on a pattern board, neighbour by neighbour. */
  lemma PatternCount(alive: (int, int) -> bool, p: Position)
    ensures LiveNeighborCount(Pattern(alive), p) ==
              Live(alive, p.row - 1, p.col - 1) + Live(alive, p.row - 1, p.col) + Live(alive, p.row - 1, p.col + 1) +
              Live(alive, p.row, p.col - 1) + Live(alive, p.row, p.col + 1) +
              Live(alive, p.row + 1, p.col - 1) + Live(alive, p.row + 1, p.col) + Live(alive, p.row + 1, p.col + 1)
  {
    LiveNeighborCountUnfolded(Pattern(alive), p);
    PatternLiveAt(alive, p.Offset(-1, -1));
    PatternLiveAt(alive, p.Offset(-1, 0));
    PatternLiveAt(alive, p.Offset(-1, 1));
    PatternLiveAt(alive, p.Offset(0, -1));
    PatternLiveAt(alive, p.Offset(0, 1));
    PatternLiveAt(alive, p.Offset(1, -1));
    PatternLiveAt(alive, p.Offset(1, 0));
    PatternLiveAt(alive, p.Offset(1, 1));
  }

  /** A position of a pattern board is live exactly when it is on the board and satisfies `alive`. */
  lemma PatternLiveAt(alive: (int, int) -> bool, q: Position)
    ensures LiveAt(Pattern(alive), q) == Live(alive, q.row, q.col)
  {
  }

  function Live(alive: (int, int) -> bool, r: int, c: int): nat {
    if 0 <= r < 5 && 0 <= c < 5 && alive(r, c) then 1 else 0
  }

  /** The state of a pattern cell. */
  function Cell(alive: (int, int) -> bool, r: int, c: int): int {
    if alive(r, c) then ALIVE else DEAD
  }

  /** The rule applied to cell (r, c) of a pattern board, its eight neighbours written out. */
  function NextCell(alive: (int, int) -> bool, r: int, c: int): int {
    DetermineNextState(Cell(alive, r, c),
      Live(alive, r - 1, c - 1) + Live(alive, r - 1, c) + Live(alive, r - 1, c + 1) +
      Live(alive, r, c - 1) + Live(alive, r, c + 1) +
      Live(alive, r + 1, c - 1) + Live(alive, r + 1, c) + Live(alive, r + 1, c + 1))
  }

  /** What one generation makes of a cell of a pattern board. */
  lemma PatternNextCell(alive: (int, int) -> bool, r: int, c: int)
    requires 0 <= r < 5 && 0 <= c < 5
    ensures NextGeneration(Pattern(alive)).At(Position(r, c)) == NextCell(alive, r, c)
  {
    PatternCount(alive, Position(r, c));
    PatternCellIs(alive, r, c);
    NextAt(Pattern(alive), Position(r, c));
  }

  /** A cell of a pattern board holds the pattern's state. */
  lemma PatternCellIs(alive: (int, int) -> bool, r: int, c: int)
    requires 0 <= r < 5 && 0 <= c < 5
    ensures Pattern(alive).At(Position(r, c)) == Cell(alive, r, c)
  {
  }

  /** A property of the 25 cells of a 5 x 5 board, checked one literal cell at a time. */
  lemma ForEachCell(P: (int, int) -> bool)
    requires P(0, 0) && P(0, 1) && P(0, 2) && P(0, 3) && P(0, 4)
    requires P(1, 0) && P(1, 1) && P(1, 2) && P(1, 3) && P(1, 4)
    requires P(2, 0) && P(2, 1) && P(2, 2) && P(2, 3) && P(2, 4)
    requires P(3, 0) && P(3, 1) && P(3, 2) && P(3, 3) && P(3, 4)
    requires P(4, 0) && P(4, 1) && P(4, 2) && P(4, 3) && P(4, 4)
    ensures forall r, c | 0 <= r < 5 && 0 <= c < 5 :: P(r, c)
  {
  }

  /** One generation turns the pattern `alive` into the pattern `next`. */
  lemma PatternTurnsInto(alive: (int, int) -> bool, next: (int, int) -> bool)
    requires forall r, c | 0 <= r < 5 && 0 <= c < 5 :: NextCell(alive, r, c) == Cell(next, r, c)
    ensures NextGeneration(Pattern(alive)) == Pattern(next)
  {
    forall p: Position
      ensures NextGeneration(Pattern(alive)).At(p) == Pattern(next).At(p)
    {
      if p.IsInBounds(5, 5) {
        PatternNextCell(alive, p.row, p.col);
      }
    }
    Extensionality(NextGeneration(Pattern(alive)), Pattern(next));
  }

  // The cell-wise facts behind the pattern lemmas below.
  predicate BlockStays(r: int, c: int) { NextCell(InBlock, r, c) == Cell(InBlock, r, c) }
  predicate UprightLiesFlat(r: int, c: int) { NextCell(InVertical, r, c) == Cell(InHorizontal, r, c) }
  predicate FlatStandsUp(r: int, c: int) { NextCell(InHorizontal, r, c) == Cell(InVertical, r, c) }

  /** The block is a still life: one generation leaves it as it is. */
  lemma BlockIsStillLife()
    ensures NextGeneration(Block()) == Block()
  {
    ForEachCell(BlockStays);
    PatternTurnsInto(InBlock, InBlock);
  }

  /** The upright blinker lies flat after one generation. */
  lemma VerticalBlinkerTurns()
    ensures NextGeneration(VerticalBlinker()) == HorizontalBlinker()
  {
    ForEachCell(UprightLiesFlat);
    PatternTurnsInto(InVertical, InHorizontal);
  }

  /** The flat blinker stands upright again after one more generation. */
  lemma HorizontalBlinkerTurns()
    ensures NextGeneration(HorizontalBlinker()) == VerticalBlinker()
  {
    ForEachCell(FlatStandsUp);
    PatternTurnsInto(InHorizontal, InVertical);
  }

  /** The blinker oscillates with period 2. */
  lemma BlinkerHasPeriodTwo()
    ensures NextGeneration(NextGeneration(VerticalBlinker())) == VerticalBlinker()
    ensures NextGeneration(VerticalBlinker()) != VerticalBlinker()
  {
    VerticalBlinkerTurns();
    HorizontalBlinkerTurns();
    assert HorizontalBlinker().At(Position(1, 2)) != VerticalBlinker().At(Position(1, 2));
  }

  /** Neighbour counts around the L shape: 3 at (2,2), 2 at (1,1) and 2 at (1,2). */
  lemma LShapeCounts()
    ensures LiveNeighborCount(LShape(), Position(2, 2)) == 3
    ensures LiveNeighborCount(LShape(), Position(1, 1)) == 2
    ensures LiveNeighborCount(LShape(), Position(1, 2)) == 2
  {
    var alive := InLShape;
    PatternCount(alive, Position(2, 2));
    PatternCount(alive, Position(1, 1));
    PatternCount(alive, Position(1, 2));
  }

  /** Writing ALIVE at the four block cells of an empty 5 x 5 board gives the block. */
  lemma BlockFromWrites()
    ensures Empty(5, 5).Set(Position(1, 1), ALIVE).Set(Position(1, 2), ALIVE)
              .Set(Position(2, 1), ALIVE).Set(Position(2, 2), ALIVE) == Block()
  {
    var b := Empty(5, 5).Set(Position(1, 1), ALIVE).Set(Position(1, 2), ALIVE)
               .Set(Position(2, 1), ALIVE).Set(Position(2, 2), ALIVE);
    forall p: Position
      ensures b.At(p) == Block().At(p)
    {
    }
    Extensionality(b, Block());
  }

  /** Writing ALIVE at rows 1-3 of column 2 of an empty 5 x 5 board gives the upright blinker. */
  lemma BlinkerFromWrites()
    ensures Empty(5, 5).Set(Position(1, 2), ALIVE).Set(Position(2, 2), ALIVE)
              .Set(Position(3, 2), ALIVE) == VerticalBlinker()
  {
    var b := Empty(5, 5).Set(Position(1, 2), ALIVE).Set(Position(2, 2), ALIVE).Set(Position(3, 2), ALIVE);
    forall p: Position
      ensures b.At(p) == VerticalBlinker().At(p)
    {
    }
    Extensionality(b, VerticalBlinker());
  }

  /** The cells of the block the tests look at. */
  lemma BlockCells()
    ensures Block().At(Position(1, 1)) == ALIVE && Block().At(Position(1, 2)) == ALIVE
    ensures Block().At(Position(2, 1)) == ALIVE && Block().At(Position(2, 2)) == ALIVE
  {
  }

  /** The cells of the flat blinker the tests look at. */
  lemma HorizontalBlinkerCells()
    ensures HorizontalBlinker().At(Position(1, 2)) == DEAD && HorizontalBlinker().At(Position(3, 2)) == DEAD
    ensures HorizontalBlinker().At(Position(2, 1)) == ALIVE && HorizontalBlinker().At(Position(2, 2)) == ALIVE
    ensures HorizontalBlinker().At(Position(2, 3)) == ALIVE
  {
  }

  /** The cells of the upright blinker the tests look at. */
  lemma VerticalBlinkerCells()
    ensures VerticalBlinker().At(Position(1, 2)) == ALIVE && VerticalBlinker().At(Position(2, 2)) == ALIVE
    ensures VerticalBlinker().At(Position(3, 2)) == ALIVE
    ensures VerticalBlinker().At(Position(2, 1)) == DEAD && VerticalBlinker().At(Position(2, 3)) == DEAD
  {
  }

  // ---- the engine's test scenarios, checked against the coordinator's contracts ----

  /** A new 5 x 5 game is empty; set, get and toggle behave as the tests expect. */
  method InitializationScenario() returns (game: GameOfLife)
    ensures game.Valid() && game.GetDimensions() == (5, 5)
    ensures game.Snapshot() == Empty(5, 5)
  {
    game := new GameOfLife(5, 5);
    assert game.GetDimensions() == (5, 5);
    assert forall r, c | 0 <= r < 5 && 0 <= c < 5 :: game.GetCell(r, c) == DEAD;
    game.SetCell(1, 2, ALIVE);
    assert game.GetCell(1, 2) == ALIVE;
    game.SetCell(1, 2, DEAD);
    assert game.GetCell(1, 2) == DEAD;
    assert game.GetCell(2, 2) == DEAD;
    var s := game.ToggleCell(2, 2);
    assert s == ALIVE && game.GetCell(2, 2) == ALIVE;
    s := game.ToggleCell(2, 2);
    assert s == DEAD && game.GetCell(2, 2) == DEAD;
    Extensionality(game.Snapshot(), Empty(5, 5));
  }

  /** A new 5 x 5 game with ALIVE written at the four block cells holds the block. */
  method SetUpBlock() returns (game: GameOfLife)
    ensures fresh(game) && fresh(game.currentGrid) && game.Valid()
    ensures game.Snapshot() == Block()
  {
    game := new GameOfLife(5, 5);
    game.SetCell(1, 1, ALIVE);
    game.SetCell(1, 2, ALIVE);
    game.SetCell(2, 1, ALIVE);
    game.SetCell(2, 2, ALIVE);
    BlockFromWrites();
  }

  /** A new 5 x 5 game with ALIVE written at rows 1-3 of column 2 holds the upright blinker. */
  method SetUpBlinker() returns (game: GameOfLife)
    ensures fresh(game) && fresh(game.currentGrid) && game.Valid()
    ensures game.Snapshot() == VerticalBlinker()
  {
    game := new GameOfLife(5, 5);
    game.SetCell(1, 2, ALIVE);
    game.SetCell(2, 2, ALIVE);
    game.SetCell(3, 2, ALIVE);
    BlinkerFromWrites();
  }

  /** The block survives a generation. */
  method BlockScenario() returns (game: GameOfLife)
    ensures game.Valid() && game.Snapshot() == Block()
    ensures game.GetCell(1, 1) == ALIVE && game.GetCell(1, 2) == ALIVE
    ensures game.GetCell(2, 1) == ALIVE && game.GetCell(2, 2) == ALIVE
  {
    game := SetUpBlock();
    game.ComputeNextGeneration();
    BlockIsStillLife();
    BlockCells();
    assert game.GetCell(1, 1) == ALIVE && game.GetCell(1, 2) == ALIVE;
    assert game.GetCell(2, 1) == ALIVE && game.GetCell(2, 2) == ALIVE;
  }

  /** One generation of a game holding the upright blinker lays it flat. */
  method StepUprightBlinker(game: GameOfLife)
    requires game.Valid() && game.Snapshot() == VerticalBlinker()
    modifies game
    ensures game.Valid() && fresh(game.currentGrid) && fresh(game.currentGrid.cells)
    ensures game.Snapshot() == HorizontalBlinker()
  {
    game.ComputeNextGeneration();
    VerticalBlinkerTurns();
    HorizontalBlinkerCells();
    assert game.GetCell(1, 2) == DEAD && game.GetCell(3, 2) == DEAD;
    assert game.GetCell(2, 1) == ALIVE && game.GetCell(2, 2) == ALIVE && game.GetCell(2, 3) == ALIVE;
  }

  /** One generation of a game holding the flat blinker stands it upright. */
  method StepFlatBlinker(game: GameOfLife)
    requires game.Valid() && game.Snapshot() == HorizontalBlinker()
    modifies game
    ensures game.Valid() && fresh(game.currentGrid) && fresh(game.currentGrid.cells)
    ensures game.Snapshot() == VerticalBlinker()
  {
    game.ComputeNextGeneration();
    HorizontalBlinkerTurns();
    VerticalBlinkerCells();
    assert game.GetCell(1, 2) == ALIVE && game.GetCell(2, 2) == ALIVE && game.GetCell(3, 2) == ALIVE;
    assert game.GetCell(2, 1) == DEAD && game.GetCell(2, 3) == DEAD;
  }

  /** The blinker turns flat, then upright again. */
  method BlinkerScenario() returns (game: GameOfLife)
    ensures game.Valid() && game.Snapshot() == VerticalBlinker()
  {
    game := SetUpBlinker();
    StepUprightBlinker(game);
    StepFlatBlinker(game);
  }
}
