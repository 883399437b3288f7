/** The cell enumeration of `Board.render`: nine squares, row by row, with highlight flags. */
module BoardView {
  import opened Wrappers
  import opened Cells
  import opened WinCalculator

  /** One rendered square: its index (passed to the click handler), its value and its highlight. */
  datatype SquareView = SquareView(index: nat, value: Cell, highlight: bool)

  /** Square `i` as rendered: highlighted when `winLine` includes `i`. */
  function ViewOf(squares: Board, winLine: seq<Option<nat>>, i: nat): SquareView
    requires i < 9
  {
    SquareView(i, squares[i], Some(i) in winLine)
  }

  /** The rendered rows laid end to end. */
  function Flatten(rows: seq<seq<SquareView>>): seq<SquareView>
  {
    if rows == [] then [] else rows[0] + Flatten(rows[1..])
  }

  /** Three rows of three squares, square (row, col) showing cell row * 3 + col. */
  predicate RowMajor(rows: seq<seq<SquareView>>, squares: Board, winLine: seq<Option<nat>>)
  {
    |rows| == 3 &&
    (forall row :: 0 <= row < 3 ==> |rows[row]| == 3) &&
    forall row, col :: 0 <= row < 3 && 0 <= col < 3 ==> rows[row][col] == ViewOf(squares, winLine, row * 3 + col)
  }

  /** Read end to end, row-major rows visit the cells 0..8 once each, in index order. */
  lemma RowMajorVisitsEachCellOnce(rows: seq<seq<SquareView>>, squares: Board, winLine: seq<Option<nat>>)
    requires RowMajor(rows, squares, winLine)
    ensures |Flatten(rows)| == 9
    ensures forall k :: 0 <= k < 9 ==> Flatten(rows)[k] == ViewOf(squares, winLine, k)
  {
    assert Flatten(rows[2..]) == rows[2] + Flatten(rows[3..]);
    assert Flatten(rows[1..]) == rows[1] + Flatten(rows[2..]);
    var flat := Flatten(rows);
    assert flat == rows[0] + rows[1] + rows[2];
    forall k | 0 <= k < 9
      ensures flat[k] == ViewOf(squares, winLine, k)
    {
      assert flat[k] == rows[k / 3][k % 3];
    }
  }

  /** The nested loops of `Board.render`. */
  method Render(squares: Board, winLine: seq<Option<nat>>) returns (boardRow: seq<seq<SquareView>>)
    ensures RowMajor(boardRow, squares, winLine)
  {
    var boardSize := 3;
    boardRow := [];
    for row := 0 to boardSize
      invariant |boardRow| == row
      invariant forall r :: 0 <= r < row ==> |boardRow[r]| == 3
      invariant forall r, c :: 0 <= r < row && 0 <= c < 3 ==> boardRow[r][c] == ViewOf(squares, winLine, r * 3 + c)
    {
      var rowSquares: seq<SquareView> := [];
      for col := 0 to boardSize
        invariant |rowSquares| == col
        invariant forall c :: 0 <= c < col ==> rowSquares[c] == ViewOf(squares, winLine, row * 3 + c)
      {
        var isHighlight := Some(row * 3 + col) in winLine;
        rowSquares := rowSquares + [SquareView(row * 3 + col, squares[row * 3 + col], isHighlight)];
      }
      boardRow := boardRow + [rowSquares];
    }
  }

  /**
   * With the line `calculateWinner` reports, a square is highlighted exactly
   * when there is a winner and the square lies on the winning line; the
   * `[null]` line of an undecided board highlights nothing.
   */
  lemma HighlightIsWinningLine(squares: Board, i: nat)
    requires i < 9
    ensures var w := WinInfoOf(squares);
      ViewOf(squares, w.line, i).highlight <==>
        w.winner != Empty && exists k: nat :: FirstUniform(squares, k) && (i == Lines[k].0 || i == Lines[k].1 || i == Lines[k].2)
  {
    var w := WinInfoOf(squares);
    WinInfoOfIsFirstUniform(squares);
    if w.winner != Empty {
      var k0: nat :| FirstUniform(squares, k0) && w == WinInfo(squares[Lines[k0].0], LineOf(Lines[k0]));
      forall k: nat | FirstUniform(squares, k)
        ensures k == k0
      {
        FirstUniformUnique(squares, k, k0);
      }
    }
  }
}
