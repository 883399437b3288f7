# Tic-tac-toe game logic in Dafny

A model of the game logic of a browser tic-tac-toe game written with React
(`workplace/src/index.js`), with the React element trees stripped away. It
covers three parts:

- **Win detection** (`calculateWinner`), module `WinCalculator` in `win.dfy`.
  A `for` loop with an early return scans a fixed table of 8 lines (3 rows,
  3 columns, 2 diagonals) over a 9-cell board. It reports the first line
  whose three cells hold the same mark. The method `CalculateWinner` keeps
  the loop and is proved equal to the function `WinInfoOf`. Lemmas
  characterise `WinInfoOf` as "the first uniform line in table order". The
  no-winner result is `winner = null` with `line = [null]`, a one-element
  list, and the model keeps it that way.
- **The game controller** (`Game`), module `GameController` in `game.dfy`.
  It is a class with the four state fields `history`, `stepNumber`,
  `xIsNext` and `sortType`, plus the three events `HandleClick`, `JumpTo`
  and `ToggleSortType`. Each event is specified by its complete new state.
  The invariant `Valid()` says three things: the history is one the game
  can build (`WellFormed`: the empty start entry, then one accepted click
  per entry), the step is a valid index, and the turn flag is the step's
  parity. Lemmas about well-formed histories give the mark counts of every
  snapshot, the bound of ten entries, and the consistency of the status
  line with the step.
- **The views `render` derives**: the status line (`StatusOf`), the move
  list (`Moves`, `MovesAsWritten`), and the row-major cell enumeration with
  highlight flags of `Board.render` (`BoardView.Render` in `board_view.dfy`).

`cells.dfy` contains the cell type, the 9-cell `Board`, mark counting and a
small `Option` type. `scenarios.dfy` contains sample positions and short
games played through the class.

Cells are `Empty | X | O`. `Empty` stands for JavaScript's `null`, and "cell
is truthy" means "cell is not `Empty`". The row of a click is written
`Math.trunc(i / 3 + 1)` with floating-point division. For a cell index
`0 <= i < 9` this equals the integer `i / 3 + 1` used in the model.

## Model

| member | source | states |
|---|---|---|
| `WinCalculator.WinInfoOf` | workplace/src/index.js:175-199 | The scan of the 8 lines from the first. With no winner the result is exactly `null` with `[null]`; with a winner the line has three indices |
| `WinCalculator.CalculateWinner` | workplace/src/index.js:175-199 | The loop over the line table with early return computes the same result as the scan function `WinInfoOf` |
| `WinCalculator.WinInfoOfIsFirstUniform` | workplace/src/index.js:176-198 | The winner is `null` exactly when no line is uniform and non-empty, and then the line is `[null]`. Otherwise the result is the first uniform line in table order, reported with its mark |
| `WinCalculator.WinFromSpec` | workplace/src/index.js:190-198 | The scan started at line `k` finds the first uniform line at or after `k`, or finds none and returns the initial `winInfo` |
| `WinCalculator.WinnerOwnsLine` | workplace/src/index.js:192-195 | A reported winner is X or O, the line has three indices, and every cell on it holds the winner |
| `WinCalculator.SingleLineWins` | workplace/src/index.js:176-196 | For each of the 8 lines, a board with only that line marked reports that mark and that line |
| `BoardView.Render` | workplace/src/index.js:26-44 | The nested loops give 3 rows of 3 squares. Square (row, col) shows cell `row*3+col` and is highlighted iff `winLine` includes that index |
| `BoardView.RowMajorVisitsEachCellOnce` | workplace/src/index.js:31-37 | Read row after row, the squares visit the indices 0..8 once each, in order |
| `BoardView.HighlightIsWinningLine` | workplace/src/index.js:35 | With the line from `calculateWinner`, a square is highlighted iff there is a winner and the square lies on the winning line. The `[null]` line highlights nothing |
| `GameController.MoverMark` | workplace/src/index.js:81 | In a reachable state the mark chosen from `xIsNext` is X on even steps and O on odd steps. This is the mark of move number `stepNumber` |
| `GameController.LocationOf` | workplace/src/index.js:86-89 | The recorded column `i%3+1` and row `i/3+1` both lie in 1..3, and `(row-1)*3 + (col-1) = i` |
| `GameController.TruncateAndAppend` | workplace/src/index.js:74-93 | An accepted click at step `s` keeps the history buildable. The history is cut to `s+1` entries and the copied board with the mover's mark is appended |
| `GameController.MarkCounts` | workplace/src/index.js:57-93 | In a buildable history, snapshot `k` holds ceil(k/2) X marks, floor(k/2) O marks and exactly `9-k` empty cells, so `k` non-empty cells |
| `GameController.HistoryBounded` | workplace/src/index.js:74-93 | A buildable history has at most ten entries: the start and nine moves |
| `GameController.StatusOf` | workplace/src/index.js:143-150 | The status is the winner if `calculateWinner` reports one, else "Draw" if no cell is empty, else the next player from `xIsNext`. A winner is never empty, and "Next player" is shown only while some cell is empty |
| `GameController.StatusOpenIffClickAccepted` | workplace/src/index.js:143-150 | The status is "Next player" exactly when some click would be accepted by `handleClick`'s guard (lines 78-80) |
| `GameController.StatusWinnerOwnsLine` | workplace/src/index.js:143-145 | A "Winner" status names X or O, and that mark fills some line |
| `GameController.StatusOfReachable` | workplace/src/index.js:143-150 | In a reachable state: "Draw" only at step 9, no winner at step 0, a winner is always the previous mover, and "Next player" names the mark the next click places |
| `GameController.MovesAsWritten` | workplace/src/index.js:121-141 | The move list as the code is written: `history.map` gives one entry per snapshot, and the list is never reversed because line 139 tests a field nothing sets |
| `GameController.Moves` | workplace/src/index.js:121-141 | The move list as intended: one entry per snapshot, reversed when the sort order is descending |
| `GameController.MovesAsWrittenAscending` | workplace/src/index.js:121-141 | As written, the move list has one entry per snapshot in ascending order whatever `sortType` is, because line 139 reads the never-set field `sortvType` |
| `GameController.DescendingIgnoredAsWritten` | workplace/src/index.js:139-141 | With two or more entries, the descending list as written differs from the reversed list the toggle intends |
| `GameController.MovesOrder` | workplace/src/index.js:121-141 | The intended list labels entry 0 the game start and marks the current step selected. It is ascending or reversed by `sortType`, and toggling the order reverses it |
| `GameController.Copy` | workplace/src/index.js:76 | `slice()` yields a fresh 9-cell array with the current board's cells |
| `GameController.Game.constructor` | workplace/src/index.js:55-71 | The initial state is one empty-board entry with no location, step 0, X to move and ascending order. It satisfies the invariant |
| `GameController.Game.HandleClick` | workplace/src/index.js:73-95 | If the current board has a winner or cell `i` is taken, the state is unchanged. Otherwise the history is cut to `stepNumber+1` entries and the old board with the mover's mark at `i` is appended, with its location. The step advances by one, the turn flips and the sort order is kept. Earlier snapshots are unchanged, and the invariant is preserved |
| `GameController.Game.JumpTo` | workplace/src/index.js:97-102 | Sets `stepNumber = step` and `xIsNext = (step % 2 == 0)`. History and sort order are unchanged and the invariant is preserved |
| `GameController.Game.ToggleSortType` | workplace/src/index.js:104-114 | Swaps ascending and descending order and changes nothing else |
| `GameController.Game.Render` | workplace/src/index.js:116-168 | The status is winner, else draw on a full board, else the next player from `xIsNext` (`StatusOf`). The move list is the corrected `Moves`. The board rows are row-major with the reported line highlighted |
| `Scenarios.ColumnWinPosition` | workplace/src/index.js:143-145 | After X 0, O 1, X 3, O 4, X 6 the status is "Winner: X" and the winning line is 0, 3, 6 |
| `Scenarios.FullBoardDraw` | workplace/src/index.js:146-147 | X O X / X O O / O X X is a draw |
| `Scenarios.JumpBackThenClick` | workplace/src/index.js:74-101 | Jumping back to the start after one move and clicking elsewhere drops that move: two entries, step 1, X on the new cell |
| `Scenarios.OccupiedCellIgnored` | workplace/src/index.js:78-80 | A click on a taken cell leaves the history length, the step and the turn flag unchanged |

## Findings

| source | as written | input that shows it | evidently intended | confidence | as-written member | corrected member |
|---|---|---|---|---|---|---|
| workplace/src/index.js:139 | The order test reads `this.state.sortvType`, a field nothing sets. It is never `'descending'`, so `moves.reverse()` never runs and the sort button has no visible effect | Any history with two entries after one sort toggle: the first entry shown is still the game start | Test `this.state.sortType`, the field `toggleSortType` writes, so the descending order lists the latest move first | high (not executed) | `GameController.MovesAsWritten` (with `GameController.MovesAsWrittenAscending`, `GameController.DescendingIgnoredAsWritten`) | `GameController.Moves` (with `GameController.MovesOrder`), used by `GameController.Game.Render` |

## Left out

- The React components and JSX trees are not modelled: `Square`, the elements built in `Board.render` and `Game.render`, `ReactDOM.render` at line 173 and the CSS import. The model keeps only what they compute: each square's index, value and highlight, the status, and the move entries.
- `setState` is asynchronous and may batch updates. Each event is modelled as a synchronous update of the fields it names.
- The model does not reproduce the status strings ("Winner: X", "Draw", "Next player: O"). They are the datatype `Status`: `Won` with the mark, `Draw`, or `NextPlayer` with the mark.
- The model does not reproduce the move-list label strings ("Go to move #N.", "(col, row)"). They are the datatype `Label`: `GameStart`, or `GoToMove` with the move number and its location.
- `JumpTo` requires `0 <= step < |history|`. The source does not check this, and its only caller passes indices of the history list.
- `HandleClick` requires a cell index `i < 9`. The only caller is the board's nine squares.
- JavaScript truthiness is modelled only for the three cell values.
- `GameController.Game.Render` uses the corrected move list, not the list as written. The as-written behaviour is `GameController.MovesAsWritten` (see Findings).
- Games of more than two clicks through the `Game` class are not proved. The win and draw positions are checked on boards (`Scenarios.ColumnWinPosition`, `Scenarios.FullBoardDraw`) instead.
