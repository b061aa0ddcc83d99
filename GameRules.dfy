/** The B3/S23 rules: neighbour counting and the next state of one cell. */
module GameRules {
  import opened CellState
  import opened Positions
  import opened Boards
  import opened Grids

  /** The eight unit and diagonal offsets, in the order the count visits them. */
  const NEIGHBOR_DIRECTIONS: seq<(int, int)> :=
    [(-1, -1), (-1, 0), (-1, 1),
     (0, -1), (0, 1),
     (1, -1), (1, 0), (1, 1)]

  /** 1 when `p` is inside the board and its cell is ALIVE, 0 otherwise. */
  function LiveAt(b: Board, p: Position): nat
    requires b.Valid()
  {
    if p.IsInBounds(b.rows, b.cols) && b.At(p) == ALIVE then 1 else 0
  }

  /** How many of the offsets `dirs`, applied to `p`, land on a live cell. */
  function CountLive(b: Board, p: Position, dirs: seq<(int, int)>): (n: nat)
    requires b.Valid()
    ensures n <= |dirs|
    decreases |dirs|
  {
    if dirs == [] then 0
    else
      var d := dirs[|dirs| - 1];
      CountLive(b, p, dirs[..|dirs| - 1]) + LiveAt(b, p.Offset(d.0, d.1))
  }

  /** The number of live cells among the eight neighbours of `p`. */
  function LiveNeighborCount(b: Board, p: Position): (n: nat)
    requires b.Valid()
    ensures n <= 8
  {
    CountLive(b, p, NEIGHBOR_DIRECTIONS)
  }

  /**
   * Counts the live neighbours of `position` in `grid` by visiting the
   * eight directions and counting those that are in bounds and ALIVE.
   */
  method CountLiveNeighbors(grid: Grid, position: Position) returns (count: nat)
    requires grid.Valid()
    ensures count == LiveNeighborCount(grid.Snapshot(), position)
    ensures count <= 8
  {
    var (rows, cols) := grid.GetDimensions();
    count := 0;
    for i := 0 to |NEIGHBOR_DIRECTIONS|
      invariant count == CountLive(grid.Snapshot(), position, NEIGHBOR_DIRECTIONS[..i])
    {
      var (rowOffset, colOffset) := NEIGHBOR_DIRECTIONS[i];
      var neighborPos := position.Offset(rowOffset, colOffset);
      if neighborPos.IsInBounds(rows, cols) && grid.GetCell(neighborPos) == ALIVE {
        count := count + 1;
      }
      assert NEIGHBOR_DIRECTIONS[..i + 1][..i] == NEIGHBOR_DIRECTIONS[..i];
    }
    assert NEIGHBOR_DIRECTIONS[..|NEIGHBOR_DIRECTIONS|] == NEIGHBOR_DIRECTIONS;
  }

  /**
   * The next state of a cell: a live cell survives with 2 or 3 live
   * neighbours and dies otherwise; any other value becomes ALIVE with exactly
   * 3 live neighbours and is kept as it is otherwise.
   */
  function DetermineNextState(currentState: int, liveNeighbors: int): (next: int)
    ensures next == ALIVE <==> liveNeighbors == 3 || (currentState == ALIVE && liveNeighbors == 2)
    ensures currentState == ALIVE && next != ALIVE ==> next == DEAD
    ensures currentState != ALIVE && next != ALIVE ==> next == currentState
    ensures IsState(currentState) ==> IsState(next)
  {
    var isAlive := currentState == ALIVE;
    if isAlive && liveNeighbors < 2 then DEAD                           // underpopulation
    else if isAlive && (liveNeighbors == 2 || liveNeighbors == 3) then ALIVE  // survival
    else if isAlive && liveNeighbors > 3 then DEAD                      // overpopulation
    else if !isAlive && liveNeighbors == 3 then ALIVE                   // reproduction
    else currentState
  }

  // ---- properties ----

  /** The offsets are exactly the eight cells around a cell, each once; the cell itself is not among them. */
  lemma NeighborhoodIsMoore()
    ensures |NEIGHBOR_DIRECTIONS| == 8
    ensures (0, 0) !in NEIGHBOR_DIRECTIONS
    ensures forall i, j | 0 <= i < j < 8 :: NEIGHBOR_DIRECTIONS[i] != NEIGHBOR_DIRECTIONS[j]
    ensures forall dr, dc | -1 <= dr <= 1 && -1 <= dc <= 1 && (dr, dc) != (0, 0) :: (dr, dc) in NEIGHBOR_DIRECTIONS
  {
  }

  lemma {:induction false} CountLiveOnDeadBoard(b: Board, p: Position, dirs: seq<(int, int)>)
    requires b.Valid() && b.AllDead()
    ensures CountLive(b, p, dirs) == 0
    decreases |dirs|
  {
    if dirs != [] {
      var d := dirs[|dirs| - 1];
      assert b.At(p.Offset(d.0, d.1)) == DEAD;
      CountLiveOnDeadBoard(b, p, dirs[..|dirs| - 1]);
    }
  }

  /** On an all-DEAD board no position has a live neighbour. */
  lemma NoLiveNeighborsOnDeadBoard(b: Board, p: Position)
    requires b.Valid() && b.AllDead()
    ensures LiveNeighborCount(b, p) == 0
  {
    CountLiveOnDeadBoard(b, p, NEIGHBOR_DIRECTIONS);
  }

  /** The count written out as the sum over the eight neighbours. */
  lemma LiveNeighborCountUnfolded(b: Board, p: Position)
    requires b.Valid()
    ensures LiveNeighborCount(b, p) ==
              LiveAt(b, p.Offset(-1, -1)) + LiveAt(b, p.Offset(-1, 0)) + LiveAt(b, p.Offset(-1, 1)) +
              LiveAt(b, p.Offset(0, -1)) + LiveAt(b, p.Offset(0, 1)) +
              LiveAt(b, p.Offset(1, -1)) + LiveAt(b, p.Offset(1, 0)) + LiveAt(b, p.Offset(1, 1))
  {
    var ds := NEIGHBOR_DIRECTIONS;
    assert ds[..1][..0] == [];
    assert CountLive(b, p, ds[..1]) == LiveAt(b, p.Offset(-1, -1));
    assert ds[..2][..1] == ds[..1];
    assert CountLive(b, p, ds[..2]) == CountLive(b, p, ds[..1]) + LiveAt(b, p.Offset(-1, 0));
    assert ds[..3][..2] == ds[..2];
    assert CountLive(b, p, ds[..3]) == CountLive(b, p, ds[..2]) + LiveAt(b, p.Offset(-1, 1));
    assert ds[..4][..3] == ds[..3];
    assert CountLive(b, p, ds[..4]) == CountLive(b, p, ds[..3]) + LiveAt(b, p.Offset(0, -1));
    assert ds[..5][..4] == ds[..4];
    assert CountLive(b, p, ds[..5]) == CountLive(b, p, ds[..4]) + LiveAt(b, p.Offset(0, 1));
    assert ds[..6][..5] == ds[..5];
    assert CountLive(b, p, ds[..6]) == CountLive(b, p, ds[..5]) + LiveAt(b, p.Offset(1, -1));
    assert ds[..7][..6] == ds[..6];
    assert CountLive(b, p, ds[..7]) == CountLive(b, p, ds[..6]) + LiveAt(b, p.Offset(1, 0));
    assert ds[..7] == ds[..|ds| - 1];
  }

  /** The rule on the two states, case by case, as the rules engine's tests list them. */
  lemma RuleTable()
    ensures DetermineNextState(ALIVE, 0) == DEAD && DetermineNextState(ALIVE, 1) == DEAD
    ensures DetermineNextState(ALIVE, 2) == ALIVE && DetermineNextState(ALIVE, 3) == ALIVE
    ensures DetermineNextState(ALIVE, 4) == DEAD && DetermineNextState(ALIVE, 8) == DEAD
    ensures DetermineNextState(DEAD, 3) == ALIVE
    ensures DetermineNextState(DEAD, 2) == DEAD && DetermineNextState(DEAD, 4) == DEAD
  {
  }
}
