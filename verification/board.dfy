/** The 3×3 board both tic-tac-toe engines play on, and what counts as a completed line. */
module Board {
  datatype Side = X | O {
    function Other(): Side {
      if this == X then O else X
    }
  }

  /** A square: the source's `''`, `'X'` or `'O'`. */
  datatype Cell = Empty | Mark(side: Side)

  /** The source's `table`: a list of three rows of three squares. */
  type Grid = seq<seq<Cell>>

  predicate Shaped(b: Grid) {
    |b| == 3 && forall r :: 0 <= r < 3 ==> |b[r]| == 3
  }

  /** Both engines' opening position. */
  function EmptyGrid(): (b: Grid)
    ensures Shaped(b) && forall r, c :: 0 <= r < 3 && 0 <= c < 3 ==> b[r][c] == Empty
  {
    [[Empty, Empty, Empty], [Empty, Empty, Empty], [Empty, Empty, Empty]]
  }

  /** `table[row][col] = elem`. */
  function Place(b: Grid, row: nat, col: nat, s: Side): (r: Grid)
    requires Shaped(b) && row < 3 && col < 3
    ensures Shaped(r) && r[row][col] == Mark(s)
    ensures forall i, j :: 0 <= i < 3 && 0 <= j < 3 && (i, j) != (row, col) ==> r[i][j] == b[i][j]
  {
    b[row := b[row][col := Mark(s)]]
  }

  /** The source's chained test `a == b == c != ''`. */
  predicate Same3(a: Cell, b: Cell, c: Cell) {
    a == b && b == c && c != Empty
  }

  /** The three scans of `__check_win`: rows, columns, then the two diagonals. */
  predicate HasLine(b: Grid)
    requires Shaped(b)
  {
    || (exists r :: 0 <= r < 3 && Same3(b[r][0], b[r][1], b[r][2]))
    || (exists c :: 0 <= c < 3 && Same3(b[0][c], b[1][c], b[2][c]))
    || Same3(b[0][0], b[1][1], b[2][2])
    || Same3(b[0][2], b[1][1], b[2][0])
  }

  /** No square is empty: the source's draw test. */
  predicate Full(b: Grid)
    requires Shaped(b)
  {
    forall r, c :: 0 <= r < 3 && 0 <= c < 3 ==> b[r][c] != Empty
  }

  // ---------------------------------------------------------------------------------------
  // An independent description of winning: the eight lines as lists of squares.

  type Square = (nat, nat)

  const Lines: seq<seq<Square>> := [
    [(0, 0), (0, 1), (0, 2)], [(1, 0), (1, 1), (1, 2)], [(2, 0), (2, 1), (2, 2)],
    [(0, 0), (1, 0), (2, 0)], [(0, 1), (1, 1), (2, 1)], [(0, 2), (1, 2), (2, 2)],
    [(0, 0), (1, 1), (2, 2)], [(0, 2), (1, 1), (2, 0)]
  ]

  predicate OnBoard(q: Square) {
    q.0 < 3 && q.1 < 3
  }

  /** Line `k` is filled with `s`'s marks. */
  predicate Owns(b: Grid, k: nat, s: Side)
    requires Shaped(b) && k < |Lines|
  {
    forall j :: 0 <= j < 3 ==> OnBoard(Lines[k][j]) && b[Lines[k][j].0][Lines[k][j].1] == Mark(s)
  }

  /** `s` holds a complete line. */
  predicate LineOf(b: Grid, s: Side)
    requires Shaped(b)
  {
    exists k :: 0 <= k < |Lines| && Owns(b, k, s)
  }

  /** The source's scans find a line exactly when one side holds one of the eight lines. */
  lemma HasLineIff(b: Grid)
    requires Shaped(b)
    ensures HasLine(b) <==> LineOf(b, X) || LineOf(b, O)
  {
    ScanFindsLine(b);
    LineFoundByScan(b);
  }

  lemma ScanFindsLine(b: Grid)
    requires Shaped(b)
    ensures HasLine(b) ==> LineOf(b, X) || LineOf(b, O)
  {
    if HasLine(b) {
      var k: nat, a: Cell;
      if r :| 0 <= r < 3 && Same3(b[r][0], b[r][1], b[r][2]) {
        k, a := r, b[r][0];
      } else if c :| 0 <= c < 3 && Same3(b[0][c], b[1][c], b[2][c]) {
        k, a := 3 + c, b[0][c];
      } else if Same3(b[0][0], b[1][1], b[2][2]) {
        k, a := 6, b[0][0];
      } else {
        k, a := 7, b[0][2];
      }
      assert Owns(b, k, a.side);
      assert LineOf(b, a.side);
      if a.side == X {
        assert LineOf(b, X);
      } else {
        assert LineOf(b, O);
      }
    }
  }

  lemma LineFoundByScan(b: Grid)
    requires Shaped(b)
    ensures LineOf(b, X) || LineOf(b, O) ==> HasLine(b)
  {
    if LineOf(b, X) || LineOf(b, O) {
      var s := if LineOf(b, X) then X else O;
      var k :| 0 <= k < |Lines| && Owns(b, k, s);
      var c0, c1, c2 := b[Lines[k][0].0][Lines[k][0].1], b[Lines[k][1].0][Lines[k][1].1], b[Lines[k][2].0][Lines[k][2].1];
      assert c0 == Mark(s) && c1 == Mark(s) && c2 == Mark(s);
      if k == 0 {
        assert Same3(b[0][0], b[0][1], b[0][2]);
      } else if k == 1 {
        assert Same3(b[1][0], b[1][1], b[1][2]);
      } else if k == 2 {
        assert Same3(b[2][0], b[2][1], b[2][2]);
      } else if k == 3 {
        assert Same3(b[0][0], b[1][0], b[2][0]);
      } else if k == 4 {
        assert Same3(b[0][1], b[1][1], b[2][1]);
      } else if k == 5 {
        assert Same3(b[0][2], b[1][2], b[2][2]);
      } else if k == 6 {
        assert Same3(b[0][0], b[1][1], b[2][2]);
      } else {
        assert Same3(b[0][2], b[1][1], b[2][0]);
      }
    }
  }

  /** On a board with no line, a line that a new mark completes is the mover's, and only the mover's. */
  lemma NewLineIsMover(b: Grid, row: nat, col: nat, s: Side)
    requires Shaped(b) && row < 3 && col < 3 && !HasLine(b)
    ensures !LineOf(Place(b, row, col, s), s.Other())
    ensures HasLine(Place(b, row, col, s)) ==> LineOf(Place(b, row, col, s), s)
  {
    var b' := Place(b, row, col, s);
    HasLineIff(b);
    HasLineIff(b');
    forall k | 0 <= k < |Lines| ensures !Owns(b', k, s.Other()) {
      if j :| 0 <= j < 3 && Lines[k][j] == (row, col) {
        assert b'[Lines[k][j].0][Lines[k][j].1] == Mark(s);
      } else {
        assert !Owns(b, k, s.Other());
        var j :| 0 <= j < 3 && !(OnBoard(Lines[k][j]) && b[Lines[k][j].0][Lines[k][j].1] == Mark(s.Other()));
        assert Lines[k][j] != (row, col);
      }
    }
  }

  // ---------------------------------------------------------------------------------------
  // Counting marks.

  function CountRow(row: seq<Cell>, s: Side): nat {
    if row == [] then 0 else (if row[0] == Mark(s) then 1 else 0) + CountRow(row[1..], s)
  }

  /** How many of `s`'s marks are on the board. */
  function Count(b: Grid, s: Side): nat
    requires Shaped(b)
  {
    CountRow(b[0], s) + CountRow(b[1], s) + CountRow(b[2], s)
  }

  lemma {:induction false} CountRowUpdate(row: seq<Cell>, i: nat, m: Cell, s: Side)
    requires i < |row|
    ensures CountRow(row[i := m], s) + (if row[i] == Mark(s) then 1 else 0)
         == CountRow(row, s) + (if m == Mark(s) then 1 else 0)
    decreases |row|
  {
    if i > 0 {
      assert row[i := m][1..] == row[1..][i - 1 := m];
      CountRowUpdate(row[1..], i - 1, m, s);
    } else {
      assert row[i := m][1..] == row[1..];
    }
  }

  /** Marking an empty square adds one mark of the mover's and none of the other side's. */
  lemma PlaceCounts(b: Grid, row: nat, col: nat, s: Side)
    requires Shaped(b) && row < 3 && col < 3 && b[row][col] == Empty
    ensures Count(Place(b, row, col, s), s) == Count(b, s) + 1
    ensures Count(Place(b, row, col, s), s.Other()) == Count(b, s.Other())
  {
    CountRowUpdate(b[row], col, Mark(s), s);
    CountRowUpdate(b[row], col, Mark(s), s.Other());
  }

  lemma EmptyGridCounts(s: Side)
    ensures Count(EmptyGrid(), s) == 0
  {
    assert CountRow([Empty, Empty, Empty], s) == 0;
  }
}
