/** The coordinator: owns the current grid and advances it one generation at a time. */
module Core {
  import opened CellState
  import opened Positions
  import opened Boards
  import opened Grids
  import opened GameRules

  /** The board one generation later: every cell follows the rule, read against `b` only. */
  function NextGeneration(b: Board): (next: Board)
    requires b.Valid()
    ensures next.Valid() && next.rows == b.rows && next.cols == b.cols
    ensures forall p: Position | p.IsInBounds(b.rows, b.cols) ::
              next.At(p) == DetermineNextState(b.At(p), LiveNeighborCount(b, p))
  {
    Board(b.rows, b.cols,
          seq(b.rows, r => seq(b.cols, c =>
            DetermineNextState(b.At(Position(r, c)), LiveNeighborCount(b, Position(r, c))))))
  }

  class GameOfLife {
    var currentGrid: Grid

    ghost predicate Valid()
      reads this, currentGrid
    {
      currentGrid.Valid()
    }

    /** The contents of the current grid. */
    ghost function Snapshot(): Board
      reads this, currentGrid, currentGrid.cells
      requires Valid()
    {
      currentGrid.Snapshot()
    }

    constructor (rows: nat, cols: nat)
      ensures Valid() && fresh(currentGrid) && fresh(currentGrid.cells)
      ensures Snapshot() == Empty(rows, cols)
    {
      currentGrid := new Grid(rows, cols);
    }

    /** Every cell becomes DEAD; the dimensions stay. */
    method ResetGrid()
      requires Valid()
      modifies currentGrid
      ensures Valid() && fresh(currentGrid.cells)
      ensures Snapshot() == Empty(old(Snapshot()).rows, old(Snapshot()).cols)
    {
      currentGrid.Reset();
    }

    /**
     * Sweeps every cell of the current grid, computing its next state from
     * the current grid only and writing it into a clone, then makes the
     * clone the current grid.
     */
    method ComputeNextGeneration()
      requires Valid()
      modifies this
      ensures Valid() && fresh(currentGrid) && fresh(currentGrid.cells)
      ensures Snapshot() == NextGeneration(old(Snapshot()))
      ensures forall p: Position | p.IsInBounds(old(Snapshot()).rows, old(Snapshot()).cols) ::
                Snapshot().At(p) == DetermineNextState(old(Snapshot()).At(p), LiveNeighborCount(old(Snapshot()), p))
    {
      ghost var before := Snapshot();
      var nextGrid := currentGrid.Clone();
      var (rows, cols) := currentGrid.GetDimensions();

      for row := 0 to rows
        invariant currentGrid == old(currentGrid) && currentGrid.Snapshot() == before
        invariant fresh(nextGrid.cells) && nextGrid.Valid()
        invariant nextGrid.rows == rows && nextGrid.cols == cols
        invariant SweptUpTo(nextGrid.Snapshot(), NextGeneration(before), row, 0)
      {
        SweepRow(nextGrid, row);
      }

      SweptAll(nextGrid.Snapshot(), NextGeneration(before));
      currentGrid := nextGrid;
    }

    /** The inner loop of the sweep: writes the next state of every cell of `row` into `nextGrid`. */
    method SweepRow(nextGrid: Grid, row: nat)
      requires Valid() && nextGrid.Valid() && nextGrid.cells != currentGrid.cells
      requires nextGrid.rows == currentGrid.rows && nextGrid.cols == currentGrid.cols
      requires row < currentGrid.rows
      requires SweptUpTo(nextGrid.Snapshot(), NextGeneration(Snapshot()), row, 0)
      modifies nextGrid.cells
      ensures SweptUpTo(nextGrid.Snapshot(), NextGeneration(Snapshot()), row + 1, 0)
      ensures forall p: Position | p.row != row :: nextGrid.Snapshot().At(p) == old(nextGrid.Snapshot()).At(p)
    {
      ghost var before := Snapshot();
      var (_, cols) := currentGrid.GetDimensions();
      for col := 0 to cols
        invariant Snapshot() == before
        invariant SweptUpTo(nextGrid.Snapshot(), NextGeneration(before), row, col)
        invariant forall p: Position | p.row != row :: nextGrid.Snapshot().At(p) == old(nextGrid.Snapshot()).At(p)
      {
        var position := Position(row, col);
        var currentState := currentGrid.GetCell(position);
        var liveNeighbors := CountLiveNeighbors(currentGrid, position);
        var nextState := DetermineNextState(currentState, liveNeighbors);
        SweepStep(nextGrid.Snapshot(), NextGeneration(before), row, col);
        nextGrid.SetCell(position, nextState);
      }
      NextRow(nextGrid.Snapshot(), NextGeneration(before), row);
    }

    /** Writes `state` at (row, col) when it is inside the grid. */
    method SetCell(row: int, col: int, state: int)
      requires Valid()
      modifies currentGrid.cells
      ensures Valid()
      ensures Snapshot() == old(Snapshot()).Set(Position(row, col), state)
    {
      currentGrid.SetCell(Position(row, col), state);
    }

    /** The state at (row, col); DEAD outside the grid. */
    function GetCell(row: int, col: int): (state: int)
      reads this, currentGrid, currentGrid.cells
      requires Valid()
      ensures !Position(row, col).IsInBounds(currentGrid.rows, currentGrid.cols) ==> state == DEAD
      ensures state == Snapshot().At(Position(row, col))
    {
      currentGrid.GetCell(Position(row, col))
    }

    /** Toggles (row, col) inside the grid and returns the new state; DEAD and no change outside. */
    method ToggleCell(row: int, col: int) returns (newState: int)
      requires Valid()
      modifies currentGrid.cells
      ensures Valid()
      ensures Position(row, col).IsInBounds(currentGrid.rows, currentGrid.cols) ==>
                newState == Toggle(old(GetCell(row, col))) &&
                Snapshot() == old(Snapshot()).Set(Position(row, col), newState)
      ensures !Position(row, col).IsInBounds(currentGrid.rows, currentGrid.cols) ==>
                newState == DEAD && Snapshot() == old(Snapshot())
    {
      newState := currentGrid.ToggleCell(Position(row, col));
    }

    function GetDimensions(): (dimensions: (nat, nat))
      reads this, currentGrid
      requires Valid()
      ensures dimensions.0 == currentGrid.cells.Length0 && dimensions.1 == currentGrid.cells.Length1
    {
      currentGrid.GetDimensions()
    }
  }

  // ---- the sweep, row by row ----

  /** `s` agrees with `target` on every cell of `target` read before (row, col) in row-major order. */
  ghost predicate SweptUpTo(s: Board, target: Board, row: int, col: int)
    requires s.Valid() && target.Valid()
  {
    forall p: Position | 0 <= p.row && 0 <= p.col < target.cols && (p.row < row || (p.row == row && p.col < col)) ::
      s.At(p) == target.At(p)
  }

  /** Writing the target's value at (row, col) extends the swept region by that cell. */
  lemma SweepStep(s: Board, target: Board, row: int, col: int)
    requires s.Valid() && target.Valid() && s.rows == target.rows && s.cols == target.cols
    requires 0 <= row < s.rows && 0 <= col < s.cols
    requires SweptUpTo(s, target, row, col)
    ensures SweptUpTo(s.Set(Position(row, col), target.At(Position(row, col))), target, row, col + 1)
  {
  }

  /** A finished row is the start of the next one. */
  lemma NextRow(s: Board, target: Board, row: int)
    requires s.Valid() && target.Valid()
    requires SweptUpTo(s, target, row, target.cols)
    ensures SweptUpTo(s, target, row + 1, 0)
  {
  }

  /** Once every row is swept, the board is the target. */
  lemma SweptAll(s: Board, target: Board)
    requires s.Valid() && target.Valid() && s.rows == target.rows && s.cols == target.cols
    requires SweptUpTo(s, target, target.rows, 0)
    ensures s == target
  {
    forall p: Position
      ensures s.At(p) == target.At(p)
    {
      if p.IsInBounds(s.rows, s.cols) {
        assert 0 <= p.row < target.rows;
      }
    }
    Extensionality(s, target);
  }

  // ---- properties ----

  /** One cell of the next generation, read off the definition. */
  lemma NextAt(b: Board, p: Position)
    requires b.Valid() && p.IsInBounds(b.rows, b.cols)
    ensures NextGeneration(b).At(p) == DetermineNextState(b.At(p), LiveNeighborCount(b, p))
  {
  }

  /** An all-DEAD board stays all-DEAD. */
  lemma DeadBoardStaysDead(b: Board)
    requires b.Valid() && b.AllDead()
    ensures NextGeneration(b) == b
  {
    forall p
      ensures NextGeneration(b).At(p) == b.At(p)
    {
      NoLiveNeighborsOnDeadBoard(b, p);
    }
    Extensionality(NextGeneration(b), b);
  }

  /** A board holding only DEAD and ALIVE still does after a generation. */
  lemma NextGenerationKeepsBinary(b: Board)
    requires b.Valid() && b.IsBinary()
    ensures NextGeneration(b).IsBinary()
  {
    var next := NextGeneration(b);
    forall p
      ensures IsState(next.At(p))
    {
      assert IsState(b.At(p));
    }
  }
}
