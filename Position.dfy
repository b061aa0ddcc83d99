/** Grid coordinates: an immutable (row, col) pair and its "row,col" key form. */
module Positions {

  datatype Option<T> = None | Some(value: T)

  datatype Position = Position(row: int, col: int)
  {
    /** A new position displaced by the offsets; no bounds check. */
    function Offset(rowOffset: int, colOffset: int): (moved: Position)
      ensures moved.row - row == rowOffset && moved.col - col == colOffset
    {
      Position(row + rowOffset, col + colOffset)
    }

    /** Inside a rows x cols grid whose first row and column are 0. */
    predicate IsInBounds(rows: int, cols: int): (inside: bool)
      ensures inside ==> rows > 0 && cols > 0
    {
      0 <= row < rows && 0 <= col < cols
    }

    /**
     * The map key "row,col", each coordinate in decimal with a leading '-'
     * when negative; FromString reads it back.
     */
    function ToString(): (key: string)
      ensures Position.FromString(key) == Some(this)
    {
      KeyOfCoordinates(row, col);
      IntToString(row) + "," + IntToString(col)
    }

    /**
     * Reads a key back: the text is split at every ',' and the first two
     * pieces are read as integers; pieces after the second are ignored.
     * A piece that is not an optionally signed run of digits gives None.
     */
    static function FromString(key: string): (position: Option<Position>)
      ensures ',' !in key ==> position == None
    {
      var parts := Split(key);
      if |parts| < 2 then None
      else
        match (ParseInt(parts[0]), ParseInt(parts[1]))
        case (Some(r), Some(c)) => Some(Position(r, c))
        case _ => None
    }
  }

  // ---- decimal text ----

  predicate IsDigit(ch: char) {
    '0' <= ch <= '9'
  }

  predicate AllDigits(s: string) {
    forall i | 0 <= i < |s| :: IsDigit(s[i])
  }

  function DigitChar(d: nat): char
    requires d < 10
  {
    ('0' as int + d) as char
  }

  function DigitValue(ch: char): nat
    requires IsDigit(ch)
  {
    ch as int - '0' as int
  }

  /** Decimal digits of `n`, most significant first, without leading zeros. */
  function NatToString(n: nat): (s: string)
    ensures |s| > 0 && AllDigits(s)
    decreases n
  {
    if n < 10 then [DigitChar(n)] else NatToString(n / 10) + [DigitChar(n % 10)]
  }

  /** The number a non-empty run of decimal digits denotes. */
  function ParseDigits(s: string): nat
    requires |s| > 0 && AllDigits(s)
  {
    var last := DigitValue(s[|s| - 1]);
    if |s| == 1 then last else ParseDigits(s[..|s| - 1]) * 10 + last
  }

  function IntToString(i: int): (s: string)
    ensures ',' !in s
  {
    if i < 0 then "-" + NatToString(-i) else NatToString(i)
  }

  function ParseInt(s: string): Option<int> {
    if |s| > 1 && s[0] == '-' && AllDigits(s[1..]) then Some(0 - ParseDigits(s[1..]))
    else if |s| > 0 && AllDigits(s) then Some(ParseDigits(s))
    else None
  }

  /** The pieces of `s` between the commas, as String.prototype.split(',') gives them. */
  function Split(s: string): (parts: seq<string>)
    ensures |parts| > 0
    ensures ',' !in s ==> parts == [s]
  {
    if s == [] then [""]
    else
      var rest := Split(s[1..]);
      if s[0] == ',' then [""] + rest
      else
        assert s == [s[0]] + s[1..];
        [[s[0]] + rest[0]] + rest[1..]
  }

  // ---- properties ----

  /** Offsetting twice is offsetting once by the sums. */
  lemma OffsetComposes(p: Position, dr1: int, dc1: int, dr2: int, dc2: int)
    ensures p.Offset(dr1, dc1).Offset(dr2, dc2) == p.Offset(dr1 + dr2, dc1 + dc2)
  {
  }

  /** The opposite offset brings a position back. */
  lemma OffsetInverse(p: Position, dr: int, dc: int)
    ensures p.Offset(dr, dc).Offset(-dr, -dc) == p
  {
  }

  /** A grid with no rows or no columns contains no position. */
  lemma NothingInEmptyBounds(p: Position, rows: int, cols: int)
    requires rows <= 0 || cols <= 0
    ensures !p.IsInBounds(rows, cols)
  {
  }

  /** A negative row and the column just past the last are both outside. */
  lemma BoundaryEdges(rows: int, cols: int, r: int, c: int)
    ensures !Position(-1, c).IsInBounds(rows, cols)
    ensures !Position(r, cols).IsInBounds(rows, cols)
    ensures rows > 0 && cols > 0 ==> Position(rows - 1, cols - 1).IsInBounds(rows, cols)
  {
  }

  lemma {:induction false} ParseDigitsRoundTrip(n: nat)
    ensures ParseDigits(NatToString(n)) == n
    decreases n
  {
    if n >= 10 {
      var s := NatToString(n);
      assert s[..|s| - 1] == NatToString(n / 10);
      ParseDigitsRoundTrip(n / 10);
    }
  }

  lemma ParseIntRoundTrip(i: int)
    ensures ParseInt(IntToString(i)) == Some(i)
  {
    var s := IntToString(i);
    if i < 0 {
      assert s[1..] == NatToString(-i);
      ParseDigitsRoundTrip(-i);
    } else {
      assert IsDigit(s[0]);
      ParseDigitsRoundTrip(i);
    }
  }

  lemma {:induction false} SplitWithoutComma(a: string, t: string)
    requires ',' !in a
    ensures Split(a + t) == [a + Split(t)[0]] + Split(t)[1..]
    decreases |a|
  {
    var rest := Split(t);
    if a == [] {
      assert a + t == t && a + rest[0] == rest[0];
      assert rest == [rest[0]] + rest[1..];
    } else {
      assert (a + t)[0] == a[0] && (a + t)[1..] == a[1..] + t;
      SplitWithoutComma(a[1..], t);
      assert [a[0]] + (a[1..] + rest[0]) == a + rest[0];
    }
  }

  /** Keys read back: FromString(p.ToString()) is p for every integer position. */
  lemma KeyRoundTrip(p: Position)
    ensures Position.FromString(p.ToString()) == Some(p)
  {
  }

  /** The key built from two integers reads back as the position they make. */
  lemma KeyOfCoordinates(row: int, col: int)
    ensures Position.FromString(IntToString(row) + "," + IntToString(col)) == Some(Position(row, col))
  {
    var a, b := IntToString(row), IntToString(col);
    assert ("," + b)[0] == ',' && ("," + b)[1..] == b;
    assert Split("," + b) == ["", b];
    assert a + "," + b == a + ("," + b);
    SplitWithoutComma(a, "," + b);
    assert a + "" == a;
    assert Split(a + "," + b) == [a, b];
    ParseIntRoundTrip(row);
    ParseIntRoundTrip(col);
  }

  /** Two positions have the same key exactly when they are equal. */
  lemma KeyIdentifiesPosition(p: Position, q: Position)
    ensures p.ToString() == q.ToString() <==> p == q
  {
    KeyRoundTrip(p);
    KeyRoundTrip(q);
  }
}
