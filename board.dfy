/** The board of the tic-tac-toe rule engine (tic_tac_toe/ttt.py): marks,
    squares and the 3x3 grid, the transpose used for the column scan, the
    row and diagonal scans as the source writes them (with sets of marks),
    an independent reference definition of "some line is filled", and the
    row-major counts that the fullness and empty-square queries are
    specified by. */
module Board {
  import opened Wrappers

  /** The two player marks, "x" and "o" in the source. */
  datatype Mark = X | O

  /** A square: empty (None) or holding a mark. */
  type Cell = Option<Mark>

  /** A board as the source holds it: a list of rows, indexed board[x][y]. */
  type Grid = seq<seq<Cell>>

  /** A square's coordinates (x, y), as list_empty reports them. */
  type Coord = (nat, nat)

  /** The mark that moves after `m` has moved. */
  function Other(m: Mark): (r: Mark)
    ensures r != m
  {
    if m == X then O else X
  }

  predicate IsBoard(b: Grid)
  {
    |b| == 3 && forall i | 0 <= i < 3 :: |b[i]| == 3
  }

  /** The board a new game starts with. */
  function EmptyBoard(): (b: Grid)
    ensures IsBoard(b)
    ensures forall i, j | 0 <= i < 3 && 0 <= j < 3 :: b[i][j] == None
  {
    [[None, None, None], [None, None, None], [None, None, None]]
  }

  /** The board after `m` is written into square (x, y). */
  function WithMark(b: Grid, x: nat, y: nat, m: Mark): (r: Grid)
    requires IsBoard(b) && x < 3 && y < 3
    ensures IsBoard(r)
    ensures r[x][y] == Some(m)
    ensures forall i, j | 0 <= i < 3 && 0 <= j < 3 && (i != x || j != y) :: r[i][j] == b[i][j]
  {
    b[x := b[x][y := Some(m)]]
  }

  // ---------------------------------------------------------------------
  // Reference definition of a win: one of the eight lines is filled.
  // ---------------------------------------------------------------------

  /** Three squares hold the same mark. */
  predicate Filled(a: Cell, b: Cell, c: Cell)
  {
    a.Some? && a == b && b == c
  }

  predicate RowLine(b: Grid)
    requires IsBoard(b)
  {
    Filled(b[0][0], b[0][1], b[0][2]) ||
    Filled(b[1][0], b[1][1], b[1][2]) ||
    Filled(b[2][0], b[2][1], b[2][2])
  }

  predicate ColumnLine(b: Grid)
    requires IsBoard(b)
  {
    Filled(b[0][0], b[1][0], b[2][0]) ||
    Filled(b[0][1], b[1][1], b[2][1]) ||
    Filled(b[0][2], b[1][2], b[2][2])
  }

  predicate DiagonalLine(b: Grid)
    requires IsBoard(b)
  {
    Filled(b[0][0], b[1][1], b[2][2]) || Filled(b[0][2], b[1][1], b[2][0])
  }

  predicate HasLine(b: Grid)
    requires IsBoard(b)
  {
    RowLine(b) || ColumnLine(b) || DiagonalLine(b)
  }

  // ---------------------------------------------------------------------
  // The scans as the source writes them.
  // ---------------------------------------------------------------------

  /** The set of marks (and None) that occur in a line. */
  function Marks(line: seq<Cell>): set<Cell>
  {
    set c | c in line
  }

  /** A row is filled when its set of marks is one mark and not None. */
  predicate Uniform(row: seq<Cell>)
  {
    var marks := Marks(row);
    |marks| == 1 && None !in marks
  }

  /** Python's all(): every square of the line is occupied. */
  predicate AllOccupied(line: seq<Cell>)
  {
    forall c | c in line :: c.Some?
  }

  /** The row scan: some of the first three rows is uniform. */
  predicate IsRowFilled(b: Grid)
    requires |b| >= 3
  {
    Uniform(b[0]) || Uniform(b[1]) || Uniform(b[2])
  }

  /** The diagonal scan: a diagonal is all occupied with a single mark. */
  predicate IsDiagFilled(b: Grid)
    requires IsBoard(b)
  {
    var diag1 := [b[0][0], b[1][1], b[2][2]];
    var diag2 := [b[0][2], b[1][1], b[2][0]];
    (AllOccupied(diag1) && |Marks(diag1)| == 1) ||
    (AllOccupied(diag2) && |Marks(diag2)| == 1)
  }

  predicate IsRectangular(b: Grid)
  {
    |b| > 0 && forall j | 0 <= j < |b| :: |b[j]| == |b[0]|
  }

  /** The transpose: row i of the result is column i of `b`. */
  function Transpose(b: Grid): (t: Grid)
    requires IsRectangular(b)
    ensures |t| == |b[0]|
    ensures forall i | 0 <= i < |t| :: |t[i]| == |b|
    ensures forall i, j | 0 <= i < |t| && 0 <= j < |b| :: t[i][j] == b[j][i]
  {
    seq(|b[0]|, i requires 0 <= i < |b[0]| => seq(|b|, j requires 0 <= j < |b| => b[j][i]))
  }

  /** Transposing twice gives back the board. */
  lemma TransposeInvolution(b: Grid)
    requires IsRectangular(b) && |b[0]| > 0
    ensures IsRectangular(Transpose(b))
    ensures Transpose(Transpose(b)) == b
  {
    var t := Transpose(b);
    var tt := Transpose(t);
    assert |tt| == |b|;
    forall j | 0 <= j < |b|
      ensures tt[j] == b[j]
    {
      assert |tt[j]| == |b[j]|;
      forall i | 0 <= i < |b[j]|
        ensures tt[j][i] == b[j][i]
      {
        assert tt[j][i] == t[i][j];
      }
    }
  }

  /** A line of three squares holds one value exactly when all three are equal. */
  lemma MarksOfThree(a: Cell, b: Cell, c: Cell)
    ensures |Marks([a, b, c])| == 1 <==> a == b && b == c
  {
    var s := Marks([a, b, c]);
    assert s == {a, b, c};
    if a == b && b == c {
      assert s == {a};
    }
  }

  lemma UniformIff(row: seq<Cell>)
    requires |row| == 3
    ensures Uniform(row) <==> Filled(row[0], row[1], row[2])
  {
    assert row == [row[0], row[1], row[2]];
    MarksOfThree(row[0], row[1], row[2]);
    assert row[0] in Marks(row);
  }

  /** The row scan finds exactly the boards with a filled row. */
  lemma RowScanIff(b: Grid)
    requires IsBoard(b)
    ensures IsRowFilled(b) <==> RowLine(b)
  {
    UniformIff(b[0]);
    UniformIff(b[1]);
    UniformIff(b[2]);
  }

  /** The row scan of the transposed board finds exactly the boards with a
      filled column. */
  lemma ColumnScanIff(b: Grid)
    requires IsBoard(b)
    ensures IsRowFilled(Transpose(b)) <==> ColumnLine(b)
  {
    var t := Transpose(b);
    forall i | 0 <= i < 3
      ensures t[i] == [b[0][i], b[1][i], b[2][i]]
    {
    }
    UniformIff(t[0]);
    UniformIff(t[1]);
    UniformIff(t[2]);
  }

  /** The diagonal scan finds exactly the boards with a filled diagonal. */
  lemma DiagScanIff(b: Grid)
    requires IsBoard(b)
    ensures IsDiagFilled(b) <==> DiagonalLine(b)
  {
    MarksOfThree(b[0][0], b[1][1], b[2][2]);
    MarksOfThree(b[0][2], b[1][1], b[2][0]);
  }

  /** The three scans together find exactly the boards where one of the
      eight lines is filled. */
  lemma WinCheckIff(b: Grid)
    requires IsBoard(b)
    ensures IsRowFilled(b) || IsRowFilled(Transpose(b)) || IsDiagFilled(b) <==> HasLine(b)
  {
    RowScanIff(b);
    ColumnScanIff(b);
    DiagScanIff(b);
  }

  // ---------------------------------------------------------------------
  // Row-major counts: the specification of is_board_full and list_empty.
  // ---------------------------------------------------------------------

  /** The k-th square in row-major order. */
  function CellAt(b: Grid, k: nat): Cell
    requires IsBoard(b) && k < 9
  {
    b[k / 3][k % 3]
  }

  /** The row-major position of square (x, y). */
  function Index(p: Coord): nat
  {
    3 * p.0 + p.1
  }

  /** The number of occupied squares among the first n in row-major order. */
  function OccupiedPrefix(b: Grid, n: nat): (c: nat)
    requires IsBoard(b) && n <= 9
    ensures c <= n
  {
    if n == 0 then 0
    else OccupiedPrefix(b, n - 1) + (if CellAt(b, n - 1).Some? then 1 else 0)
  }

  function OccupiedCount(b: Grid): (c: nat)
    requires IsBoard(b)
    ensures c <= 9
  {
    OccupiedPrefix(b, 9)
  }

  /** The empty squares among the first n, in row-major order. */
  function EmptyPrefix(b: Grid, n: nat): (e: seq<Coord>)
    requires IsBoard(b) && n <= 9
    ensures |e| <= n
  {
    if n == 0 then []
    else
      EmptyPrefix(b, n - 1) +
      (if CellAt(b, n - 1) == None then [((n - 1) / 3, (n - 1) % 3)] else [])
  }

  /** The empty squares of the board, in row-major order. */
  function EmptyCells(b: Grid): (e: seq<Coord>)
    requires IsBoard(b)
    ensures |e| <= 9
  {
    EmptyPrefix(b, 9)
  }

  /** Reference definition of a full board: all nine squares are occupied. */
  predicate IsFull(b: Grid)
    requires IsBoard(b)
  {
    forall i, j | 0 <= i < 3 && 0 <= j < 3 :: b[i][j].Some?
  }

  /** One step of the row-major scan, at square (x, y). */
  lemma PrefixStep(b: Grid, x: nat, y: nat)
    requires IsBoard(b) && x < 3 && y < 3
    ensures CellAt(b, 3 * x + y) == b[x][y]
    ensures EmptyPrefix(b, 3 * x + y + 1)
         == EmptyPrefix(b, 3 * x + y) + (if b[x][y] == None then [(x, y)] else [])
    ensures OccupiedPrefix(b, 3 * x + y + 1)
         == OccupiedPrefix(b, 3 * x + y) + (if b[x][y].Some? then 1 else 0)
  {
  }

  /** The scan of the first n squares reports only empty squares among
      them, in increasing row-major order. */
  lemma {:induction false} EmptyPrefixSound(b: Grid, n: nat)
    requires IsBoard(b) && n <= 9
    ensures forall p | p in EmptyPrefix(b, n) ::
              p.0 < 3 && p.1 < 3 && Index(p) < n && b[p.0][p.1] == None
    ensures forall i, j | 0 <= i < j < |EmptyPrefix(b, n)| ::
              Index(EmptyPrefix(b, n)[i]) < Index(EmptyPrefix(b, n)[j])
  {
    if n > 0 {
      EmptyPrefixSound(b, n - 1);
    }
  }

  lemma {:induction false} EmptyPrefixComplete(b: Grid, n: nat, p: Coord)
    requires IsBoard(b) && n <= 9
    requires p.0 < 3 && p.1 < 3 && Index(p) < n && b[p.0][p.1] == None
    ensures p in EmptyPrefix(b, n)
  {
    if Index(p) < n - 1 {
      EmptyPrefixComplete(b, n - 1, p);
    } else {
      assert CellAt(b, n - 1) == b[p.0][p.1];
    }
  }

  /** The empty and the occupied squares among the first n add up to n. */
  lemma {:induction false} PrefixCounts(b: Grid, n: nat)
    requires IsBoard(b) && n <= 9
    ensures |EmptyPrefix(b, n)| + OccupiedPrefix(b, n) == n
  {
    if n > 0 {
      PrefixCounts(b, n - 1);
    }
  }

  lemma {:induction false} OccupiedPrefixAll(b: Grid, n: nat)
    requires IsBoard(b) && n <= 9
    ensures OccupiedPrefix(b, n) == n <==> forall k | 0 <= k < n :: CellAt(b, k).Some?
  {
    if n > 0 {
      OccupiedPrefixAll(b, n - 1);
    }
  }

  /** list_empty reports exactly the empty squares, each once, in row-major order. */
  lemma EmptyCellsIff(b: Grid)
    requires IsBoard(b)
    ensures forall p: Coord :: p in EmptyCells(b) <==> p.0 < 3 && p.1 < 3 && b[p.0][p.1] == None
    ensures forall i, j | 0 <= i < j < |EmptyCells(b)| :: Index(EmptyCells(b)[i]) < Index(EmptyCells(b)[j])
    ensures |EmptyCells(b)| == 9 - OccupiedCount(b)
  {
    forall p: Coord | p.0 < 3 && p.1 < 3 && b[p.0][p.1] == None
      ensures p in EmptyCells(b)
    {
      EmptyPrefixComplete(b, 9, p);
    }
    EmptyPrefixSound(b, 9);
    PrefixCounts(b, 9);
  }

  /** A board is full exactly when nine squares are occupied, and exactly
      when no square is reported empty. */
  lemma FullIff(b: Grid)
    requires IsBoard(b)
    ensures IsFull(b) <==> OccupiedCount(b) == 9
    ensures IsFull(b) <==> EmptyCells(b) == []
  {
    OccupiedPrefixAll(b, 9);
    if IsFull(b) {
      forall k | 0 <= k < 9
        ensures CellAt(b, k).Some?
      {
        assert b[k / 3][k % 3].Some?;
      }
    }
    if OccupiedCount(b) == 9 {
      forall i, j | 0 <= i < 3 && 0 <= j < 3
        ensures b[i][j].Some?
      {
        assert CellAt(b, 3 * i + j) == b[i][j];
      }
    }
    PrefixCounts(b, 9);
  }

  lemma {:induction false} OccupiedPrefixAfterMark(b: Grid, x: nat, y: nat, m: Mark, n: nat)
    requires IsBoard(b) && x < 3 && y < 3 && b[x][y] == None && n <= 9
    ensures OccupiedPrefix(WithMark(b, x, y, m), n)
         == OccupiedPrefix(b, n) + (if 3 * x + y < n then 1 else 0)
  {
    if n > 0 {
      OccupiedPrefixAfterMark(b, x, y, m, n - 1);
      var k := n - 1;
      if k == 3 * x + y {
        assert k / 3 == x && k % 3 == y;
      } else {
        assert k / 3 != x || k % 3 != y;
      }
    }
  }

  /** Writing a mark into an empty square adds one occupied square. */
  lemma OccupiedAfterMark(b: Grid, x: nat, y: nat, m: Mark)
    requires IsBoard(b) && x < 3 && y < 3 && b[x][y] == None
    ensures OccupiedCount(WithMark(b, x, y, m)) == OccupiedCount(b) + 1
  {
    OccupiedPrefixAfterMark(b, x, y, m, 9);
  }

  lemma {:induction false} OccupiedPrefixEmpty(n: nat)
    requires n <= 9
    ensures OccupiedPrefix(EmptyBoard(), n) == 0
  {
    if n > 0 {
      OccupiedPrefixEmpty(n - 1);
    }
  }

  // ---------------------------------------------------------------------
  // The source's unit tests of the scans (tic_tac_toe/ttt.py, TestSum).
  // ---------------------------------------------------------------------

  /** test_row: a top row of "x" is found by the row scan. */
  lemma RowScanTest()
    ensures IsRowFilled([[Some(X), Some(X), Some(X)], [None, None, None], [None, None, None]])
  {
    UniformIff([Some(X), Some(X), Some(X)]);
  }

  /** test_col: a left column of "x" is found by the row scan of the transpose. */
  lemma ColumnScanTest()
    ensures var b := [[Some(X), None, None], [Some(X), None, None], [Some(X), None, None]];
            IsRowFilled(Transpose(b))
  {
    var b := [[Some(X), None, None], [Some(X), None, None], [Some(X), None, None]];
    ColumnScanIff(b);
  }

  /** test_diag: an anti-diagonal of "x" is found by the diagonal scan. */
  lemma DiagScanTest()
    ensures IsDiagFilled([[None, None, Some(X)], [None, Some(X), None], [Some(X), None, None]])
  {
    DiagScanIff([[None, None, Some(X)], [None, Some(X), None], [Some(X), None, None]]);
  }
}
