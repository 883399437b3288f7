/** Win detection: the scan of `calculateWinner` over the 8 lines of the board. */
module WinCalculator {
  import opened Wrappers
  import opened Cells

  /** Three cell indices that form a row, a column or a diagonal. */
  type Triple = (nat, nat, nat)

  /** The lines in the order they are scanned: 3 rows, 3 columns, 2 diagonals. */
  const Lines: seq<Triple> :=
    [(0, 1, 2), (3, 4, 5), (6, 7, 8), (0, 3, 6), (1, 4, 7), (2, 5, 8), (0, 4, 8), (2, 4, 6)]

  /**
   * The winner (Empty standing for `null`) and the winning line. Without a
   * winner the line is the one-element list `[null]`, not an empty list.
   */
  datatype WinInfo = WinInfo(winner: Cell, line: seq<Option<nat>>)

  const NoWin: WinInfo := WinInfo(Empty, [None])

  function LineOf(t: Triple): seq<Option<nat>>
  {
    [Some(t.0), Some(t.1), Some(t.2)]
  }

  /** The three cells of `t` hold the same mark. */
  predicate Uniform(b: Board, t: Triple)
  {
    t.0 < 9 && t.1 < 9 && t.2 < 9 && b[t.0] != Empty && b[t.0] == b[t.1] && b[t.0] == b[t.2]
  }

  /** Line `k` is uniform and no line before it in scan order is. */
  predicate FirstUniform(b: Board, k: nat)
  {
    k < |Lines| && Uniform(b, Lines[k]) && forall j :: 0 <= j < k ==> !Uniform(b, Lines[j])
  }

  /** The outcome of the scan when it starts at line `k`. */
  function WinFrom(b: Board, k: nat): WinInfo
    decreases |Lines| - k
  {
    if k >= |Lines| then NoWin
    else if Uniform(b, Lines[k]) then WinInfo(b[Lines[k].0], LineOf(Lines[k]))
    else WinFrom(b, k + 1)
  }

  /** What `calculateWinner` returns for board `b`. */
  function WinInfoOf(b: Board): (r: WinInfo)
    ensures r.winner == Empty ==> r == NoWin
    ensures r.winner != Empty ==> |r.line| == 3
  {
    WinFrom(b, 0)
  }

  lemma {:induction false} WinFromSpec(b: Board, k: nat)
    requires k <= |Lines|
    ensures WinFrom(b, k) == NoWin <==> forall j :: k <= j < |Lines| ==> !Uniform(b, Lines[j])
    ensures WinFrom(b, k) != NoWin ==>
      exists j :: k <= j < |Lines| && Uniform(b, Lines[j]) &&
        (forall j' :: k <= j' < j ==> !Uniform(b, Lines[j'])) &&
        WinFrom(b, k) == WinInfo(b[Lines[j].0], LineOf(Lines[j]))
    decreases |Lines| - k
  {
    if k < |Lines| && !Uniform(b, Lines[k]) {
      WinFromSpec(b, k + 1);
      if WinFrom(b, k) != NoWin {
        var j :| k + 1 <= j < |Lines| && Uniform(b, Lines[j]) &&
          (forall j' :: k + 1 <= j' < j ==> !Uniform(b, Lines[j'])) &&
          WinFrom(b, k + 1) == WinInfo(b[Lines[j].0], LineOf(Lines[j]));
        assert forall j' :: k <= j' < j ==> !Uniform(b, Lines[j']);
      }
    }
  }

  /**
   * The scan finds the first uniform line in table order and reports its
   * mark; when no line is uniform the result is `null` with line `[null]`.
   */
  lemma WinInfoOfIsFirstUniform(b: Board)
    ensures WinInfoOf(b).winner == Empty <==> forall k :: 0 <= k < |Lines| ==> !Uniform(b, Lines[k])
    ensures WinInfoOf(b).winner == Empty ==> WinInfoOf(b) == NoWin
    ensures WinInfoOf(b).winner != Empty ==>
      exists k: nat :: FirstUniform(b, k) && WinInfoOf(b) == WinInfo(b[Lines[k].0], LineOf(Lines[k]))
  {
    WinFromSpec(b, 0);
  }

  /** At most one line is the first uniform one. */
  lemma FirstUniformUnique(b: Board, k: nat, k': nat)
    requires FirstUniform(b, k) && FirstUniform(b, k')
    ensures k == k'
  {
  }

  /** A reported winner is a mark, and every cell of the reported line holds it. */
  lemma WinnerOwnsLine(b: Board)
    ensures var w := WinInfoOf(b);
      w.winner != Empty ==>
        (w.winner == X || w.winner == O) && |w.line| == 3 &&
        forall e :: e in w.line ==> e.Some? && e.value < 9 && b[e.value] == w.winner
  {
    WinInfoOfIsFirstUniform(b);
  }

  /** The board whose only marks are `m` on the three cells of `t`. */
  function MarkLine(t: Triple, m: Cell): Board
  {
    seq(9, i => if i == t.0 || i == t.1 || i == t.2 then m else Empty)
  }

  /** Each line, marked alone on an empty board, is reported as the winning line. */
  lemma SingleLineWins(k: nat, m: Cell)
    requires k < |Lines| && m != Empty
    ensures WinInfoOf(MarkLine(Lines[k], m)) == WinInfo(m, LineOf(Lines[k]))
  {
    var b := MarkLine(Lines[k], m);
    assert Uniform(b, Lines[k]);
    forall j | 0 <= j < |Lines| && j != k
      ensures !Uniform(b, Lines[j])
    {
    }
    WinInfoOfIsFirstUniform(b);
  }

  /** The `for` loop with early return of `calculateWinner`. */
  method CalculateWinner(squares: Board) returns (winInfo: WinInfo)
    ensures winInfo == WinInfoOf(squares)
  {
    winInfo := NoWin;
    for i := 0 to |Lines|
      invariant winInfo == NoWin
      invariant WinFrom(squares, i) == WinInfoOf(squares)
    {
      var (a, b, c) := Lines[i];
      if squares[a] != Empty && squares[a] == squares[b] && squares[a] == squares[c] {
        winInfo := winInfo.(winner := squares[a], line := LineOf(Lines[i]));
        return;
      }
    }
  }
}
