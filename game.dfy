/**
 * The `Game` component: its state (history of snapshots, current step, turn
 * flag, sort order), the three events that change it, and what `render`
 * derives from it.
 */
module GameController {
  import opened Wrappers
  import opened Cells
  import opened WinCalculator
  import BoardView

  /** Where a move was played, 1-based; the game-start snapshot has none. */
  datatype Location = NoLocation | At(col: nat, row: nat)

  /** One history entry: a board snapshot and the location of the move that produced it. */
  datatype Move = Move(squares: Board, location: Location)

  datatype SortType = Ascending | Descending

  /** The synthetic first entry: an empty board with no location. */
  const InitialMove: Move := Move(EmptyBoard, NoLocation)

  /** The location recorded for a click on cell `i`. */
  function LocationOf(i: nat): (loc: Location)
    requires i < 9
    ensures loc.At? && 1 <= loc.col <= 3 && 1 <= loc.row <= 3
    ensures (loc.row - 1) * 3 + (loc.col - 1) == i
  {
    At(i % 3 + 1, i / 3 + 1)
  }

  /** The cell index a location names. */
  function IndexOf(loc: Location): int
    requires loc.At?
  {
    (loc.row - 1) * 3 + (loc.col - 1)
  }

  /** A click on cell `i` is accepted: nobody has won yet and the cell is empty. */
  predicate Accepts(squares: Board, i: nat)
    requires i < 9
  {
    WinInfoOf(squares).winner == Empty && squares[i] == Empty
  }

  /** `next` follows `prev` by the accepted click of move number `k` (0-based). */
  predicate LegalStep(prev: Move, next: Move, k: nat)
  {
    next.location.At? && 1 <= next.location.col <= 3 && 1 <= next.location.row <= 3 &&
    var i := IndexOf(next.location);
    Accepts(prev.squares, i) && next.squares == prev.squares[i := MarkFor(k)]
  }

  /** The cell a legal step fills and what it leaves the board as. */
  lemma StepCell(prev: Move, next: Move, k: nat) returns (i: nat)
    requires LegalStep(prev, next, k)
    ensures i < 9 && prev.squares[i] == Empty && next.squares == prev.squares[i := MarkFor(k)]
  {
    i := IndexOf(next.location);
  }

  /** Entry `k + 1` of `h` follows entry `k` by a legal step. */
  predicate StepAt(h: seq<Move>, k: nat)
  {
    k + 1 < |h| && LegalStep(h[k], h[k + 1], k)
  }

  /** A history the game can build: the start entry, then one accepted click per entry. */
  predicate WellFormed(h: seq<Move>)
  {
    |h| >= 1 && h[0] == InitialMove &&
    forall k: nat :: k < |h| - 1 ==> StepAt(h, k)
  }

  /** Placing the mark of move `k` on an empty cell of a board with move `k`'s counts gives move `k + 1`'s. */
  lemma StepCounts(prev: Board, next: Board, i: nat, k: nat)
    requires i < 9 && prev[i] == Empty && next == prev[i := MarkFor(k)]
    requires Count(prev, X) == (k + 1) / 2 && Count(prev, O) == k / 2 && Count(prev, Empty) == 9 - k
    ensures Count(next, X) == (k + 2) / 2 && Count(next, O) == (k + 1) / 2 && Count(next, Empty) == 9 - (k + 1)
  {
    CountUpdate(prev, i, MarkFor(k), X);
    CountUpdate(prev, i, MarkFor(k), O);
    CountUpdate(prev, i, MarkFor(k), Empty);
  }

  /** Snapshot `k` holds ceil(k/2) X marks, floor(k/2) O marks and 9 - k empty cells. */
  lemma {:induction false} MarkCounts(h: seq<Move>, k: nat)
    requires WellFormed(h) && k < |h|
    ensures Count(h[k].squares, X) == (k + 1) / 2
    ensures Count(h[k].squares, O) == k / 2
    ensures Count(h[k].squares, Empty) == 9 - k
  {
    if k == 0 {
      EmptyBoardCounts();
    } else {
      MarkCounts(h, k - 1);
      assert StepAt(h, k - 1);
      var i := StepCell(h[k - 1], h[k], k - 1);
      StepCounts(h[k - 1].squares, h[k].squares, i, k - 1);
    }
  }

  /** The history never holds more than the start entry and nine moves. */
  lemma HistoryBounded(h: seq<Move>)
    requires WellFormed(h)
    ensures |h| <= 10
  {
    MarkCounts(h, |h| - 1);
  }

  /** An accepted click at step `s` keeps the history well formed after truncation and append. */
  lemma TruncateAndAppend(h: seq<Move>, s: nat, i: nat)
    requires WellFormed(h) && s < |h| && i < 9 && Accepts(h[s].squares, i)
    ensures WellFormed(h[..s + 1] + [Move(h[s].squares[i := MarkFor(s)], LocationOf(i))])
  {
    var h' := h[..s + 1] + [Move(h[s].squares[i := MarkFor(s)], LocationOf(i))];
    forall k | 0 <= k < |h'| - 1
      ensures StepAt(h', k)
    {
      if k < s {
        assert StepAt(h, k);
        assert h'[k] == h[k] && h'[k + 1] == h[k + 1];
      }
    }
  }

  /** The status line: winner, else draw on a full board, else the player to move. */
  datatype Status = Won(mark: Cell) | Draw | NextPlayer(mark: Cell)

  function StatusOf(squares: Board, xIsNext: bool): (s: Status)
    ensures s.Won? ==> s.mark != Empty
    ensures s.NextPlayer? ==> Empty in squares
  {
    var winInfo := WinInfoOf(squares);
    if winInfo.winner != Empty then Won(winInfo.winner)
    else if Empty !in squares then Draw
    else NextPlayer(if xIsNext then X else O)
  }

  /** The status names a player to move exactly when some click would be accepted. */
  lemma StatusOpenIffClickAccepted(squares: Board, xIsNext: bool)
    ensures StatusOf(squares, xIsNext).NextPlayer? <==> exists i: nat :: i < 9 && Accepts(squares, i)
  {
    if StatusOf(squares, xIsNext).NextPlayer? {
      var i :| 0 <= i < 9 && squares[i] == Empty;
      assert Accepts(squares, i);
    }
  }

  /** A winner shown in the status is a mark owning a complete line. */
  lemma StatusWinnerOwnsLine(squares: Board, xIsNext: bool)
    ensures var s := StatusOf(squares, xIsNext);
      s.Won? ==>
        (s.mark == X || s.mark == O) &&
        (exists k :: 0 <= k < |Lines| && Uniform(squares, Lines[k]) && squares[Lines[k].0] == s.mark)
  {
    WinInfoOfIsFirstUniform(squares);
  }

  /**
   * In a reachable state the status is consistent with the history: a draw
   * only after nine moves, no winner at the start, a winner is always the
   * player who moved last, and the player named next is the one whose mark
   * the next click places.
   */
  lemma StatusOfReachable(h: seq<Move>, s: nat)
    requires WellFormed(h) && s < |h|
    ensures var st := StatusOf(h[s].squares, s % 2 == 0);
      (st.Draw? ==> s == 9) &&
      (st.Won? ==> s > 0 && st.mark == MarkFor(s - 1)) &&
      (st.NextPlayer? ==> st.mark == MarkFor(s))
  {
    var b := h[s].squares;
    var st := StatusOf(b, s % 2 == 0);
    MarkCounts(h, s);
    if st.Draw? {
      CountZero(b, Empty);
    }
    if st.Won? {
      WinInfoOfIsFirstUniform(b);
      var k: nat :| FirstUniform(b, k) && WinInfoOf(b) == WinInfo(b[Lines[k].0], LineOf(Lines[k]));
      if s == 0 {
        assert false;
      }
      assert StepAt(h, s - 1);
      var prev := h[s - 1].squares;
      var i := IndexOf(h[s].location);
      WinInfoOfIsFirstUniform(prev);
      assert !Uniform(prev, Lines[k]);
      assert i == Lines[k].0 || i == Lines[k].1 || i == Lines[k].2;
    }
  }

  /** In a reachable state the mark chosen from `xIsNext` is the mark of the current step. */
  lemma MoverMark(g: Game)
    requires g.Valid()
    ensures (if g.xIsNext then X else O) == MarkFor(g.stepNumber)
  {
  }

  /** A move-list label: the game start, or move N with its (col, row). */
  datatype Label = GameStart | GoToMove(move: nat, location: Location)

  /** One move-list button: the step it jumps to, its description, and whether it is the current step. */
  datatype MoveEntry = MoveEntry(move: nat, desc: Label, selected: bool)

  function EntryOf(history: seq<Move>, stepNumber: nat, move: nat): MoveEntry
    requires move < |history|
  {
    MoveEntry(move, if move == 0 then GameStart else GoToMove(move, history[move].location), stepNumber == move)
  }

  /** `history.map(...)`: one entry per history entry, in history order. */
  function MoveEntries(history: seq<Move>, stepNumber: nat): seq<MoveEntry>
  {
    seq(|history|, move requires 0 <= move < |history| => EntryOf(history, stepNumber, move))
  }

  function Reversed<T>(s: seq<T>): seq<T>
  {
    seq(|s|, k requires 0 <= k < |s| => s[|s| - 1 - k])
  }

  function Toggled(sortType: SortType): SortType
  {
    if sortType == Ascending then Descending else Ascending
  }

  /**
   * The move list as the code is written: the order test reads a state field
   * (`sortvType`) that nothing ever sets, so the list is never reversed.
   */
  function MovesAsWritten(history: seq<Move>, stepNumber: nat, sortType: SortType): (moves: seq<MoveEntry>)
    ensures |moves| == |history|
  {
    MoveEntries(history, stepNumber)
  }

  /** The move list as intended: reversed when the sort order is descending. */
  function Moves(history: seq<Move>, stepNumber: nat, sortType: SortType): (moves: seq<MoveEntry>)
    ensures |moves| == |history|
  {
    var moves := MoveEntries(history, stepNumber);
    if sortType == Descending then Reversed(moves) else moves
  }

  /** As written, the list is in ascending history order whatever the sort order is. */
  lemma MovesAsWrittenAscending(history: seq<Move>, stepNumber: nat, sortType: SortType)
    ensures var moves := MovesAsWritten(history, stepNumber, sortType);
      |moves| == |history| &&
      (forall k :: 0 <= k < |moves| ==> moves[k].move == k) &&
      moves == MovesAsWritten(history, stepNumber, Toggled(sortType))
  {
  }

  /** With two entries or more the descending list as written differs from the intended one. */
  lemma DescendingIgnoredAsWritten(history: seq<Move>, stepNumber: nat)
    requires |history| >= 2
    ensures MovesAsWritten(history, stepNumber, Descending) != Moves(history, stepNumber, Descending)
  {
    var written := MovesAsWritten(history, stepNumber, Descending);
    var intended := Moves(history, stepNumber, Descending);
    assert written[0].move == 0;
    assert intended[0].move == |history| - 1;
  }

  /**
   * The intended list has one entry per history entry, labelled and selected
   * as `render` does; descending order lists the same entries last to first,
   * so toggling the sort order reverses the list.
   */
  lemma MovesOrder(history: seq<Move>, stepNumber: nat, sortType: SortType)
    ensures var moves := Moves(history, stepNumber, sortType);
      |moves| == |history| &&
      (forall k :: 0 <= k < |moves| ==>
        var move := if sortType == Ascending then k else |history| - 1 - k;
        moves[k] == EntryOf(history, stepNumber, move) &&
        (moves[k].desc == GameStart <==> move == 0) &&
        (moves[k].selected <==> move == stepNumber)) &&
      Moves(history, stepNumber, Toggled(sortType)) == Reversed(moves)
  {
    var moves := Moves(history, stepNumber, sortType);
    var toggled := Moves(history, stepNumber, Toggled(sortType));
    assert |toggled| == |Reversed(moves)|;
    forall k | 0 <= k < |toggled|
      ensures toggled[k] == Reversed(moves)[k]
    {
    }
  }

  /** `squares.slice()`: a fresh array holding the cells of `b`. */
  method Copy(b: Board) returns (squares: array<Cell>)
    ensures fresh(squares) && squares.Length == 9 && squares[..] == b
  {
    squares := new Cell[9](j => if 0 <= j < 9 then b[j] else Empty);
  }

  class Game {
    var history: seq<Move>
    var stepNumber: nat
    var xIsNext: bool
    var sortType: SortType

    /** Reachable states: a well-formed history, a step inside it, and the turn flag given by the step's parity. */
    ghost predicate Valid()
      reads this
    {
      WellFormed(history) && stepNumber < |history| && xIsNext == (stepNumber % 2 == 0)
    }

    constructor ()
      ensures Valid()
      ensures history == [InitialMove] && stepNumber == 0 && xIsNext && sortType == Ascending
    {
      history := [InitialMove];
      stepNumber := 0;
      xIsNext := true;
      sortType := Ascending;
    }

    /**
     * A click on cell `i`: ignored when the current board has a winner or
     * the cell is taken; otherwise the history is cut after the current step,
     * a copy of the current board with the mover's mark at `i` is appended,
     * the step advances and the turn passes.
     */
    method HandleClick(i: nat)
      requires Valid() && i < 9
      modifies this
      ensures Valid() && sortType == old(sortType)
      ensures var current := old(history[stepNumber].squares);
        if Accepts(current, i) then
          history == old(history[..stepNumber + 1]) + [Move(current[i := if old(xIsNext) then X else O], LocationOf(i))] &&
          stepNumber == old(stepNumber) + 1 && xIsNext == !old(xIsNext)
        else
          history == old(history) && stepNumber == old(stepNumber) && xIsNext == old(xIsNext)
    {
      var hist := history[..stepNumber + 1];
      var current := hist[|hist| - 1];
      assert current == history[stepNumber];
      var squares := Copy(current.squares);
      var winInfo := CalculateWinner(squares[..]);
      if winInfo.winner != Empty || squares[i] != Empty {
        return;
      }
      squares[i] := if xIsNext then X else O;
      var next := Move(squares[..], LocationOf(i));
      assert next.squares == current.squares[i := MarkFor(stepNumber)];
      TruncateAndAppend(history, stepNumber, i);
      assert WellFormed(hist + [next]);
      history := hist + [next];
      stepNumber := |hist|;
      xIsNext := !xIsNext;
    }

    /** Show snapshot `step`: the turn flag follows the step's parity and the history is kept. */
    method JumpTo(step: nat)
      requires Valid() && step < |history|
      modifies this
      ensures Valid()
      ensures stepNumber == step && xIsNext == (step % 2 == 0)
      ensures history == old(history) && sortType == old(sortType)
    {
      stepNumber := step;
      xIsNext := step % 2 == 0;
    }

    /** Swap ascending and descending order; nothing else changes. */
    method ToggleSortType()
      requires Valid()
      modifies this
      ensures Valid()
      ensures sortType == Toggled(old(sortType)) && sortType != old(sortType)
      ensures history == old(history) && stepNumber == old(stepNumber) && xIsNext == old(xIsNext)
    {
      if sortType == Ascending {
        sortType := Descending;
      } else if sortType == Descending {
        sortType := Ascending;
      }
    }

    /** What `render` derives from the state: the status line, the move list and the board rows. */
    method Render() returns (status: Status, moves: seq<MoveEntry>, board: seq<seq<BoardView.SquareView>>)
      requires Valid()
      ensures status == StatusOf(history[stepNumber].squares, xIsNext)
      ensures moves == Moves(history, stepNumber, sortType)
      ensures BoardView.RowMajor(board, history[stepNumber].squares, WinInfoOf(history[stepNumber].squares).line)
    {
      var current := history[stepNumber];
      var winInfo := CalculateWinner(current.squares);
      moves := MoveEntries(history, stepNumber);
      if sortType == Descending {
        moves := Reversed(moves);
      }
      if winInfo.winner != Empty {
        status := Won(winInfo.winner);
      } else if Empty !in current.squares {
        status := Draw;
      } else {
        status := NextPlayer(if xIsNext then X else O);
      }
      board := BoardView.Render(current.squares, winInfo.line);
    }
  }
}
