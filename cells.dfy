/** A small Option type for the values that JavaScript writes as `null`. */
module Wrappers {
  datatype Option<+T> = None | Some(value: T)
}

/** The squares of a tic-tac-toe board and what a board holds. */
module Cells {

  /** One square: empty (`null` in the game) or one of the two marks. */
  datatype Cell = Empty | X | O

  /** A board: 9 cells in row-major order, cell i being row i / 3, column i % 3. */
  type Board = b: seq<Cell> | |b| == 9
    witness [Empty, Empty, Empty, Empty, Empty, Empty, Empty, Empty, Empty]

  const EmptyBoard: Board := [Empty, Empty, Empty, Empty, Empty, Empty, Empty, Empty, Empty]

  /** The mark the player to move places at step `step`: X on even steps, O on odd ones. */
  function MarkFor(step: nat): (m: Cell)
    ensures m != Empty
    ensures (m == X) == (step % 2 == 0)
  {
    if step % 2 == 0 then X else O
  }

  /** Number of cells of `s` holding `c`. */
  function Count(s: seq<Cell>, c: Cell): (n: nat)
    ensures n <= |s|
  {
    if s == [] then 0 else (if s[0] == c then 1 else 0) + Count(s[1..], c)
  }

  /** The empty board holds nine empty cells and no mark. */
  lemma EmptyBoardCounts()
    ensures Count(EmptyBoard, X) == 0 && Count(EmptyBoard, O) == 0 && Count(EmptyBoard, Empty) == 9
  {
  }

  /** Overwriting one cell changes each count by at most the cell replaced and the cell written. */
  lemma {:induction false} CountUpdate(s: seq<Cell>, i: nat, v: Cell, c: Cell)
    requires i < |s|
    ensures Count(s[i := v], c) == Count(s, c) - (if s[i] == c then 1 else 0) + (if v == c then 1 else 0)
  {
    if i == 0 {
      assert s[i := v][1..] == s[1..];
    } else {
      assert s[i := v][1..] == s[1..][i - 1 := v];
      CountUpdate(s[1..], i - 1, v, c);
    }
  }

  /** Every cell is empty, X or O, so the three counts add up to the length. */
  lemma {:induction false} CountPartition(s: seq<Cell>)
    ensures Count(s, Empty) + Count(s, X) + Count(s, O) == |s|
  {
    if s != [] {
      CountPartition(s[1..]);
    }
  }

  /** A value is counted zero times exactly when it does not occur. */
  lemma {:induction false} CountZero(s: seq<Cell>, c: Cell)
    ensures Count(s, c) == 0 <==> c !in s
  {
    if s != [] {
      CountZero(s[1..], c);
      assert s == [s[0]] + s[1..];
    }
  }
}
