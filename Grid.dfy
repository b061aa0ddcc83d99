/** A fixed-size grid of cells whose every access is bounds-safe. */
module Grids {
  import opened CellState
  import opened Positions
  import opened Boards

  class Grid {
    const rows: nat
    const cols: nat
    var cells: array2<int>

    /** The cell table always has the grid's dimensions. */
    ghost predicate Valid()
      reads this
    {
      cells.Length0 == rows && cells.Length1 == cols
    }

    /** The grid's contents as a value. */
    ghost function Snapshot(): (b: Board)
      reads this, cells
      requires Valid()
      ensures b.rows == rows && b.cols == cols
    {
      OfArray(cells)
    }

    /** A rows x cols grid with every cell DEAD. */
    constructor (rows: nat, cols: nat)
      ensures Valid() && fresh(cells)
      ensures this.rows == rows && this.cols == cols
      ensures Snapshot() == Empty(rows, cols)
    {
      var emptyCells := CreateEmptyGrid(rows, cols);
      this.rows := rows;
      this.cols := cols;
      cells := emptyCells;
    }

    /** A fresh rows x cols table filled with DEAD, row by row. */
    static method CreateEmptyGrid(rows: nat, cols: nat) returns (grid: array2<int>)
      ensures fresh(grid) && grid.Length0 == rows && grid.Length1 == cols
      ensures OfArray(grid) == Empty(rows, cols)
    {
      grid := new int[rows, cols];
      for row := 0 to rows
        invariant forall r, c | 0 <= r < row && 0 <= c < cols :: grid[r, c] == DEAD
      {
        for col := 0 to cols
          invariant forall r, c | 0 <= r < row && 0 <= c < cols :: grid[r, c] == DEAD
          invariant forall c | 0 <= c < col :: grid[row, c] == DEAD
        {
          grid[row, col] := DEAD;
        }
      }
      OfFilledArray(grid, DEAD);
    }

    function GetDimensions(): (dimensions: (nat, nat))
      reads this
      requires Valid()
      ensures dimensions.0 == cells.Length0 && dimensions.1 == cells.Length1
    {
      (rows, cols)
    }

    /** The stored value inside the grid; DEAD for any position outside it. */
    function GetCell(position: Position): (state: int)
      reads this, cells
      requires Valid()
      ensures !position.IsInBounds(rows, cols) ==> state == DEAD
      ensures state == Snapshot().At(position)
    {
      if !position.IsInBounds(rows, cols) then DEAD else cells[position.row, position.col]
    }

    /** Writes `state` at `position` when it is inside the grid; outside, nothing happens. */
    method SetCell(position: Position, state: int)
      requires Valid()
      modifies cells
      ensures Valid()
      ensures Snapshot() == old(Snapshot()).Set(position, state)
    {
      if position.IsInBounds(rows, cols) {
        cells[position.row, position.col] := state;
      }
      Extensionality(Snapshot(), old(Snapshot()).Set(position, state));
    }

    /**
     * Inside the grid, stores and returns the toggled value of the cell;
     * outside, returns DEAD and changes nothing.
     */
    method ToggleCell(position: Position) returns (newState: int)
      requires Valid()
      modifies cells
      ensures Valid()
      ensures position.IsInBounds(rows, cols) ==>
                newState == Toggle(old(GetCell(position))) &&
                Snapshot() == old(Snapshot()).Set(position, newState)
      ensures !position.IsInBounds(rows, cols) ==>
                newState == DEAD && Snapshot() == old(Snapshot())
    {
      if position.IsInBounds(rows, cols) {
        var currentState := GetCell(position);
        newState := Toggle(currentState);
        SetCell(position, newState);
        return;
      }
      newState := DEAD;
    }

    /** Replaces the cell table with a fresh all-DEAD one of the same size. */
    method Reset()
      requires Valid()
      modifies this
      ensures Valid() && fresh(cells)
      ensures Snapshot() == Empty(rows, cols)
    {
      cells := CreateEmptyGrid(rows, cols);
    }

    /** A new grid of the same size and contents, sharing no storage with this one. */
    method Clone() returns (newGrid: Grid)
      requires Valid()
      ensures fresh(newGrid) && fresh(newGrid.cells) && newGrid.Valid()
      ensures newGrid.rows == rows && newGrid.cols == cols
      ensures newGrid.Snapshot() == Snapshot()
    {
      newGrid := new Grid(rows, cols);
      var copy := newGrid.cells;
      for row := 0 to rows
        invariant newGrid.cells == copy
        invariant forall r, c | 0 <= r < row && 0 <= c < cols :: copy[r, c] == cells[r, c]
      {
        for col := 0 to cols
          invariant newGrid.cells == copy
          invariant forall r, c | 0 <= r < row && 0 <= c < cols :: copy[r, c] == cells[r, c]
          invariant forall c | 0 <= c < col :: copy[row, c] == cells[row, c]
        {
          copy[row, col] := cells[row, col];
        }
      }
      OfEqualArrays(copy, cells);
    }
  }

  /**
   * Toggling an in-bounds cell twice restores the grid. This needs the cell
   * to hold DEAD or ALIVE: any other value, 2 say, toggles to ALIVE and then
   * to DEAD.
   */
  method ToggleTwiceRestores(g: Grid, p: Position)
    requires g.Valid() && p.IsInBounds(g.rows, g.cols) && IsState(g.GetCell(p))
    modifies g.cells
    ensures g.Valid()
    ensures g.Snapshot() == old(g.Snapshot())
  {
    ghost var before := g.Snapshot();
    var state := g.GetCell(p);
    var _ := g.ToggleCell(p);
    var _ := g.ToggleCell(p);
    ToggleInvolution(state);
    Extensionality(g.Snapshot(), before);
  }
}
