/** Sample positions and short games played through the `Game` events. */
module Scenarios {
  import opened Wrappers
  import opened Cells
  import opened WinCalculator
  import opened GameController

  /**
   * After X 0, O 1, X 3, O 4, X 6 the column {0, 3, 6} is all X: the status
   * names X as the winner and cells 0, 3 and 6 are the highlighted line.
   */
  lemma ColumnWinPosition()
    ensures var b := [X, O, Empty, X, O, Empty, X, Empty, Empty];
      StatusOf(b, false) == Won(X) && WinInfoOf(b).line == [Some(0), Some(3), Some(6)]
  {
  }

  /** X O X / X O O / O X X, reached after nine moves with O to move next: a full board with no line is a draw. */
  lemma FullBoardDraw()
    ensures StatusOf([X, O, X, X, O, O, O, X, X], false) == Draw
  {
  }

  /**
   * After one move, jumping back to the start and clicking elsewhere
   * replaces that move: the history is cut to the start entry and the new
   * move appended.
   */
  method JumpBackThenClick() returns (length: nat, steps: nat, last: Board)
    ensures length == 2 && steps == 1 && last == [Empty, Empty, Empty, Empty, X, Empty, Empty, Empty, Empty]
  {
    var game := new Game();
    assert WinInfoOf(EmptyBoard) == NoWin;
    game.HandleClick(0);
    assert game.stepNumber == 1;
    game.JumpTo(0);
    game.HandleClick(4);
    length, steps, last := |game.history|, game.stepNumber, game.history[game.stepNumber].squares;
  }

  /** A click on a taken cell changes nothing. */
  method OccupiedCellIgnored() returns (length: nat, steps: nat, xNext: bool)
    ensures length == 2 && steps == 1 && !xNext
  {
    var game := new Game();
    assert WinInfoOf(EmptyBoard) == NoWin;
    game.HandleClick(0);
    game.HandleClick(0);
    length, steps, xNext := |game.history|, game.stepNumber, game.xIsNext;
  }
}
