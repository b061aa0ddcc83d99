/**
 * The contents of a grid as a value. Both engines keep their cells in a
 * two-dimensional array; `OfArray` reads such an array as a Board, and the
 * specifications of the engines are stated on Boards.
 */
module Boards {
  import opened CellState
  import opened Positions

  datatype Board = Board(rows: nat, cols: nat, cells: seq<seq<int>>)
  {
    /** The table has exactly `rows` rows of `cols` cells each. */
    predicate Valid() {
      |cells| == rows && forall r | 0 <= r < rows :: |cells[r]| == cols
    }

    /** What a read at `p` sees: DEAD outside the grid, the stored value inside. */
    function At(p: Position): int
      requires Valid()
    {
      if p.IsInBounds(rows, cols) then cells[p.row][p.col] else DEAD
    }

    /** Every cell holds DEAD or ALIVE. */
    ghost predicate IsBinary()
      requires Valid()
    {
      forall p: Position :: IsState(At(p))
    }

    /** Every cell is DEAD. */
    ghost predicate AllDead()
      requires Valid()
    {
      forall p: Position :: At(p) == DEAD
    }

    /** The board after a write of `value` at `p`; a write outside the grid is dropped. */
    function Set(p: Position, value: int): (b: Board)
      requires Valid()
      ensures b.Valid() && b.rows == rows && b.cols == cols
      ensures forall q :: b.At(q) == if q == p && p.IsInBounds(rows, cols) then value else At(q)
    {
      if p.IsInBounds(rows, cols) then Board(rows, cols, cells[p.row := cells[p.row][p.col := value]])
      else this
    }
  }

  /** A rows x cols board whose every cell is DEAD. */
  function Empty(rows: nat, cols: nat): (b: Board)
    ensures b.Valid() && b.rows == rows && b.cols == cols && b.AllDead()
  {
    Board(rows, cols, seq(rows, r => seq(cols, c => DEAD)))
  }

  /** The board held by a two-dimensional array: row r, column c is a[r, c]. */
  function OfArray(a: array2<int>): (b: Board)
    reads a
    ensures b.Valid() && b.rows == a.Length0 && b.cols == a.Length1
    ensures forall r, c | 0 <= r < a.Length0 && 0 <= c < a.Length1 :: b.At(Position(r, c)) == a[r, c]
  {
    Board(a.Length0, a.Length1,
          seq(a.Length0, r requires 0 <= r < a.Length0 reads a =>
            seq(a.Length1, c requires 0 <= c < a.Length1 reads a => a[r, c])))
  }

  /** Two boards of the same size that agree at every position are equal. */
  lemma Extensionality(a: Board, b: Board)
    requires a.Valid() && b.Valid() && a.rows == b.rows && a.cols == b.cols
    requires forall p :: a.At(p) == b.At(p)
    ensures a == b
  {
    forall r | 0 <= r < a.rows
      ensures a.cells[r] == b.cells[r]
    {
      forall c | 0 <= c < a.cols
        ensures a.cells[r][c] == b.cells[r][c]
      {
        assert a.At(Position(r, c)) == b.At(Position(r, c));
      }
    }
  }

  /** The board of an array whose every element is `value`. */
  lemma OfFilledArray(a: array2<int>, value: int)
    requires forall r, c | 0 <= r < a.Length0 && 0 <= c < a.Length1 :: a[r, c] == value
    ensures value == DEAD ==> OfArray(a) == Empty(a.Length0, a.Length1)
    ensures forall r, c | 0 <= r < a.Length0 && 0 <= c < a.Length1 :: OfArray(a).cells[r][c] == value
  {
    var b := OfArray(a);
    forall r, c | 0 <= r < a.Length0 && 0 <= c < a.Length1
      ensures b.cells[r][c] == value
    {
      assert b.At(Position(r, c)) == a[r, c];
    }
    if value == DEAD {
      Extensionality(b, Empty(a.Length0, a.Length1));
    }
  }

  /** Arrays of the same size with the same elements have the same board. */
  lemma OfEqualArrays(a: array2<int>, b: array2<int>)
    requires a.Length0 == b.Length0 && a.Length1 == b.Length1
    requires forall r, c | 0 <= r < a.Length0 && 0 <= c < a.Length1 :: a[r, c] == b[r, c]
    ensures OfArray(a) == OfArray(b)
  {
    forall p: Position
      ensures OfArray(a).At(p) == OfArray(b).At(p)
    {
      if p.IsInBounds(a.Length0, a.Length1) {
        assert OfArray(a).At(p) == a[p.row, p.col];
      }
    }
    Extensionality(OfArray(a), OfArray(b));
  }
}
