/**
 * The older monolithic engine: two in-place buffers, `grid` and `nextGrid`,
 * holding raw numbers (0 dead, 1 alive) with no bounds checks on access.
 */
module Life {
  import opened CellState
  import opened Positions
  import opened Boards
  import GameRules
  import Core

  /** The eight offsets in the order this engine visits them. */
  const DIRECTIONS: seq<(int, int)> :=
    [(-1, 0), (-1, -1), (-1, 1),
     (0, -1), (0, 1),
     (1, 0), (1, -1), (1, 1)]

  /** The sum of the values at the in-bounds cells reached from (row, col) by `dirs`; outside cells read as DEAD, that is 0. */
  function SumFrom(b: Board, row: int, col: int, dirs: seq<(int, int)>): int
    requires b.Valid()
    decreases |dirs|
  {
    if dirs == [] then 0
    else
      var d := dirs[|dirs| - 1];
      SumFrom(b, row, col, dirs[..|dirs| - 1]) + b.At(Position(row + d.0, col + d.1))
  }

  /** What this engine counts as the neighbours of (row, col): the sum of their values. */
  function NeighborSum(b: Board, row: int, col: int): int
    requires b.Valid()
  {
    SumFrom(b, row, col, DIRECTIONS)
  }

  /**
   * The rule as this engine writes it: 1 (alive) with fewer than 2 or more
   * than 3 neighbours gives 0; anything else with exactly 3 gives 1;
   * otherwise the value is copied.
   */
  function ApplyRule(value: int, neighborCount: int): int {
    var isAlive := value == 1;
    if isAlive && (neighborCount < 2 || neighborCount > 3) then 0
    else if !isAlive && neighborCount == 3 then 1
    else value
  }

  /** The rule's outcome for the cell at (row, col) of `b`. */
  function Outcome(b: Board, row: int, col: int): int
    requires b.Valid() && 0 <= row < b.rows && 0 <= col < b.cols
  {
    ApplyRule(b.cells[row][col], NeighborSum(b, row, col))
  }

  /** The board one generation later under this engine's count and rule. */
  function NextGen(b: Board): (next: Board)
    requires b.Valid()
    ensures next.Valid() && next.rows == b.rows && next.cols == b.cols
    ensures forall r, c | 0 <= r < b.rows && 0 <= c < b.cols ::
              next.cells[r][c] == ApplyRule(b.cells[r][c], NeighborSum(b, r, c))
  {
    Board(b.rows, b.cols,
          seq(b.rows, r requires 0 <= r < b.rows => seq(b.cols, c requires 0 <= c < b.cols =>
            ApplyRule(b.cells[r][c], NeighborSum(b, r, c)))))
  }

  class GameOfLife {
    const rows: nat
    const cols: nat
    var grid: array2<int>
    var nextGrid: array2<int>

    /** Both buffers have the game's dimensions and are distinct arrays. */
    ghost predicate Valid()
      reads this
    {
      grid.Length0 == rows && grid.Length1 == cols &&
      nextGrid.Length0 == rows && nextGrid.Length1 == cols &&
      grid != nextGrid
    }

    constructor (rows: nat, cols: nat)
      ensures Valid() && fresh(grid) && fresh(nextGrid)
      ensures this.rows == rows && this.cols == cols
      ensures OfArray(grid) == Empty(rows, cols) && OfArray(nextGrid) == Empty(rows, cols)
    {
      var first := InitGrid(rows, cols);
      var second := InitGrid(rows, cols);
      this.rows := rows;
      this.cols := cols;
      grid := first;
      nextGrid := second;
    }

    /** Sets every cell of both buffers to 0. */
    method ResetGrids()
      requires Valid()
      modifies grid, nextGrid
      ensures Valid()
      ensures OfArray(grid) == Empty(rows, cols) && OfArray(nextGrid) == Empty(rows, cols)
    {
      for i := 0 to rows
        invariant forall r, c | 0 <= r < i && 0 <= c < cols :: grid[r, c] == 0 && nextGrid[r, c] == 0
      {
        for j := 0 to cols
          invariant forall r, c | 0 <= r < i && 0 <= c < cols :: grid[r, c] == 0 && nextGrid[r, c] == 0
          invariant forall c | 0 <= c < j :: grid[i, c] == 0 && nextGrid[i, c] == 0
        {
          grid[i, j] := 0;
          nextGrid[i, j] := 0;
        }
      }
      OfFilledArray(grid, 0);
      OfFilledArray(nextGrid, 0);
    }

    /**
     * Writes the next generation of every cell into `nextGrid`, reading
     * `grid` only, then copies it into `grid` and zeroes `nextGrid`.
     */
    method ComputeNextGen()
      requires Valid()
      modifies grid, nextGrid
      ensures Valid()
      ensures OfArray(grid) == NextGen(old(OfArray(grid)))
      ensures OfArray(nextGrid) == Empty(rows, cols)
    {
      ghost var before := OfArray(grid);
      for i := 0 to rows
        invariant unchanged(grid)
        invariant forall r, c | 0 <= r < i && 0 <= c < cols :: nextGrid[r, c] == Outcome(before, r, c)
      {
        SweepRow(i);
      }
      CopyAndResetGrid();
      SweptIsNextGen(grid, before);
    }

    /** The inner loop of the sweep: applies the rule to every cell of row `i`. */
    method SweepRow(i: nat)
      requires Valid() && i < rows
      modifies nextGrid
      ensures forall c | 0 <= c < cols :: nextGrid[i, c] == Outcome(OfArray(grid), i, c)
      ensures forall r, c | 0 <= r < rows && r != i && 0 <= c < cols :: nextGrid[r, c] == old(nextGrid[r, c])
    {
      ghost var before := OfArray(grid);
      for j := 0 to cols
        invariant unchanged(grid)
        invariant forall c | 0 <= c < j :: nextGrid[i, c] == Outcome(before, i, c)
        invariant forall r, c | 0 <= r < rows && r != i && 0 <= c < cols :: nextGrid[r, c] == old(nextGrid[r, c])
      {
        assert OfArray(grid) == before && grid[i, j] == before.cells[i][j];
        ApplyRules(i, j);
      }
    }

    /** Writes `value` into `grid` at (row, col); the caller keeps the indices in range. */
    method SetCell(row: int, col: int, value: int)
      requires Valid()
      requires 0 <= row < rows && 0 <= col < cols
      modifies grid
      ensures Valid()
      ensures OfArray(grid) == old(OfArray(grid)).Set(Position(row, col), value)
    {
      grid[row, col] := value;
      Extensionality(OfArray(grid), old(OfArray(grid)).Set(Position(row, col), value));
    }

    /** The value in `grid` at (row, col); the caller keeps the indices in range. */
    function GetCell(row: int, col: int): (value: int)
      reads this, grid
      requires Valid()
      requires 0 <= row < rows && 0 <= col < cols
      ensures value == OfArray(grid).At(Position(row, col))
    {
      grid[row, col]
    }

    function GetDimensions(): (dimensions: (nat, nat))
      reads this
      requires Valid()
      ensures dimensions.0 == grid.Length0 && dimensions.1 == grid.Length1
    {
      (rows, cols)
    }

    /** A fresh rows x cols table of zeros, filled row by row. */
    static method InitGrid(rows: nat, cols: nat) returns (newGrid: array2<int>)
      ensures fresh(newGrid) && newGrid.Length0 == rows && newGrid.Length1 == cols
      ensures OfArray(newGrid) == Empty(rows, cols)
    {
      newGrid := new int[rows, cols];
      for i := 0 to rows
        invariant forall r, c | 0 <= r < i && 0 <= c < cols :: newGrid[r, c] == 0
      {
        for j := 0 to cols
          invariant forall r, c | 0 <= r < i && 0 <= c < cols :: newGrid[r, c] == 0
          invariant forall c | 0 <= c < j :: newGrid[i, c] == 0
        {
          newGrid[i, j] := 0;
        }
      }
      OfFilledArray(newGrid, 0);
    }

    /** Copies `nextGrid` into `grid` cell by cell and zeroes `nextGrid`. */
    method CopyAndResetGrid()
      requires Valid()
      modifies grid, nextGrid
      ensures Valid()
      ensures forall r, c | 0 <= r < rows && 0 <= c < cols :: grid[r, c] == old(nextGrid[r, c])
      ensures OfArray(nextGrid) == Empty(rows, cols)
    {
      for i := 0 to rows
        invariant forall r, c | 0 <= r < i && 0 <= c < cols :: grid[r, c] == old(nextGrid[r, c]) && nextGrid[r, c] == 0
        invariant forall r, c | i <= r < rows && 0 <= c < cols :: nextGrid[r, c] == old(nextGrid[r, c])
      {
        for j := 0 to cols
          invariant forall r, c | 0 <= r < i && 0 <= c < cols :: grid[r, c] == old(nextGrid[r, c]) && nextGrid[r, c] == 0
          invariant forall c | 0 <= c < j :: grid[i, c] == old(nextGrid[i, c]) && nextGrid[i, c] == 0
          invariant forall r, c | i <= r < rows && 0 <= c < cols && (r > i || c >= j) :: nextGrid[r, c] == old(nextGrid[r, c])
        {
          grid[i, j] := nextGrid[i, j];
          nextGrid[i, j] := 0;
        }
      }
      OfFilledArray(nextGrid, 0);
    }

    /** Writes the rule's outcome for (row, col) into `nextGrid`, reading only `grid`. */
    method ApplyRules(row: int, col: int)
      requires Valid()
      requires 0 <= row < rows && 0 <= col < cols
      modifies nextGrid
      ensures nextGrid[row, col] == ApplyRule(grid[row, col], NeighborSum(OfArray(grid), row, col))
      ensures forall r, c | 0 <= r < rows && 0 <= c < cols && (r, c) != (row, col) ::
                nextGrid[r, c] == old(nextGrid[r, c])
    {
      var neighborCount := CountNeighbors(row, col);
      var isAlive := grid[row, col] == 1;
      if isAlive && (neighborCount < 2 || neighborCount > 3) {
        nextGrid[row, col] := 0;
      } else if !isAlive && neighborCount == 3 {
        nextGrid[row, col] := 1;
      } else {
        nextGrid[row, col] := grid[row, col];
      }
    }

    /** Sums `grid` over the in-bounds neighbours of (row, col). */
    method CountNeighbors(row: int, col: int) returns (count: int)
      requires Valid()
      ensures count == NeighborSum(OfArray(grid), row, col)
    {
      count := 0;
      for k := 0 to |DIRECTIONS|
        invariant count == SumFrom(OfArray(grid), row, col, DIRECTIONS[..k])
      {
        var (dx, dy) := DIRECTIONS[k];
        var newRow := row + dx;
        var newCol := col + dy;
        if newRow >= 0 && newRow < rows && newCol >= 0 && newCol < cols {
          count := count + grid[newRow, newCol];
        }
        assert DIRECTIONS[..k + 1][..k] == DIRECTIONS[..k];
      }
      assert DIRECTIONS[..|DIRECTIONS|] == DIRECTIONS;
    }
  }

  // ---- properties ----

  /** The in-bounds sum written out over the eight neighbours. */
  lemma NeighborSumUnfolded(b: Board, row: int, col: int)
    requires b.Valid()
    ensures NeighborSum(b, row, col) ==
              b.At(Position(row - 1, col)) + b.At(Position(row - 1, col - 1)) + b.At(Position(row - 1, col + 1)) +
              b.At(Position(row, col - 1)) + b.At(Position(row, col + 1)) +
              b.At(Position(row + 1, col)) + b.At(Position(row + 1, col - 1)) + b.At(Position(row + 1, col + 1))
  {
    var ds := DIRECTIONS;
    assert ds[..1][..0] == [];
    assert SumFrom(b, row, col, ds[..1]) == b.At(Position(row - 1, col));
    assert ds[..2][..1] == ds[..1];
    assert SumFrom(b, row, col, ds[..2]) == SumFrom(b, row, col, ds[..1]) + b.At(Position(row - 1, col - 1));
    assert ds[..3][..2] == ds[..2];
    assert SumFrom(b, row, col, ds[..3]) == SumFrom(b, row, col, ds[..2]) + b.At(Position(row - 1, col + 1));
    assert ds[..4][..3] == ds[..3];
    assert SumFrom(b, row, col, ds[..4]) == SumFrom(b, row, col, ds[..3]) + b.At(Position(row, col - 1));
    assert ds[..5][..4] == ds[..4];
    assert SumFrom(b, row, col, ds[..5]) == SumFrom(b, row, col, ds[..4]) + b.At(Position(row, col + 1));
    assert ds[..6][..5] == ds[..5];
    assert SumFrom(b, row, col, ds[..6]) == SumFrom(b, row, col, ds[..5]) + b.At(Position(row + 1, col));
    assert ds[..7][..6] == ds[..6];
    assert SumFrom(b, row, col, ds[..7]) == SumFrom(b, row, col, ds[..6]) + b.At(Position(row + 1, col - 1));
    assert ds[..7] == ds[..|ds| - 1];
  }

  /** An array holding the rule's outcome at every cell of `before` holds NextGen(before). */
  lemma SweptIsNextGen(a: array2<int>, before: Board)
    requires before.Valid() && a.Length0 == before.rows && a.Length1 == before.cols
    requires forall r, c | 0 <= r < a.Length0 && 0 <= c < a.Length1 ::
               a[r, c] == Outcome(before, r, c)
    ensures OfArray(a) == NextGen(before)
  {
    forall p: Position
      ensures OfArray(a).At(p) == NextGen(before).At(p)
    {
      if p.IsInBounds(a.Length0, a.Length1) {
        assert OfArray(a).At(p) == a[p.row, p.col];
      }
    }
    Extensionality(OfArray(a), NextGen(before));
  }

  /** Both engines apply the same rule to every value and every count. */
  lemma RulesAgree(value: int, neighborCount: int)
    ensures ApplyRule(value, neighborCount) == GameRules.DetermineNextState(value, neighborCount)
  {
  }

  /** On a board of 0s and 1s, summing the neighbours' values counts the live ones, so it lies in [0, 8]. */
  lemma NeighborSumIsLiveCount(b: Board, row: int, col: int)
    requires b.Valid() && b.IsBinary()
    ensures NeighborSum(b, row, col) == GameRules.LiveNeighborCount(b, Position(row, col))
    ensures 0 <= NeighborSum(b, row, col) <= 8
  {
    var p := Position(row, col);
    forall dr, dc
      ensures b.At(Position(row + dr, col + dc)) == GameRules.LiveAt(b, p.Offset(dr, dc))
    {
      assert IsState(b.At(p.Offset(dr, dc)));
    }
    NeighborSumUnfolded(b, row, col);
    GameRules.LiveNeighborCountUnfolded(b, p);
  }

  /** On a board of 0s and 1s, the two-buffer step computes the same board as the layered engine's step. */
  lemma DoubleBufferMatchesLayered(b: Board)
    requires b.Valid() && b.IsBinary()
    ensures NextGen(b) == Core.NextGeneration(b)
  {
    forall p: Position
      ensures NextGen(b).At(p) == Core.NextGeneration(b).At(p)
    {
      if p.IsInBounds(b.rows, b.cols) {
        NeighborSumIsLiveCount(b, p.row, p.col);
        RulesAgree(b.cells[p.row][p.col], NeighborSum(b, p.row, p.col));
      }
    }
    Extensionality(NextGen(b), Core.NextGeneration(b));
  }

  /**
   * Started from the same board of 0s and 1s, one step of each engine leaves
   * them holding the same board.
   */
  method StepBoth(life: GameOfLife, game: Core.GameOfLife)
    requires life.Valid() && game.Valid()
    requires OfArray(life.grid) == game.Snapshot() && game.Snapshot().IsBinary()
    requires {life.grid, life.nextGrid} !! {game, game.currentGrid, game.currentGrid.cells}
    modifies life.grid, life.nextGrid, game
    ensures life.Valid() && game.Valid()
    ensures OfArray(life.grid) == game.Snapshot()
  {
    ghost var start := game.Snapshot();
    life.ComputeNextGen();
    game.ComputeNextGeneration();
    DoubleBufferMatchesLayered(start);
  }
}
