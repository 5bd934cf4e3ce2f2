# Tic-tac-toe game engine ("kółko i krzyżyk") in Dafny

This project models the game-state core of a React tic-tac-toe game with move
history and time travel (`src/index.js`):

- **`calculateWinner`**: scans the eight lines of the 3×3 board in a fixed order
  (three rows, three columns, two diagonals) and returns the mark of the first
  line whose three squares are non-empty and equal, or nothing.
  It is modelled in `win_detector.dfy` in two forms. `Winner` is the specification
  function. `CalculateWinner` is the source's indexed loop with early return,
  proved equal to `Winner`.
- **The `Game` component's state** (`engine.dfy`): a class with the four fields
  the component keeps (`history`, `stepNumber`, `xIsNext`, `isAscending`). It has
  the three handlers `HandleClick`, `JumpTo` and `HandleSortToggle`, and
  `Render`, which computes the data `render` derives without the markup.
  The object invariant `Valid()` says three things: the history is a valid
  ledger (`History.ValidHistory`), the cursor lies inside it, and the turn flag
  equals the cursor's parity. Every handler keeps it.
- **The history ledger** (`history.dfy`): entry 0 is the empty board. Each later
  entry is a legal move from its predecessor: that board had no winner, the
  square was empty, and it now holds the mover's mark. The lemmas derive the
  promised properties from this: marks alternate, consecutive entries differ in
  exactly one square, no move follows a win, entry k holds ⌈k/2⌉ X marks and
  ⌊k/2⌋ O marks, and a history never has more than ten entries.
- **The view data** (`view.dfy`): the status line (winner, or next player), the
  move descriptors (start of game, or the move with its 1-based column and row),
  and the display order. The list is reversed in place on an array when the
  order is descending, as `moves.reverse()` does.
- `scenarios.dfy` holds client methods that play short games against the
  contracts: a branch from the start after time travel, a win down the left
  column after which clicks are ignored, an occupied square, and a double
  sort toggle.

Marks are `X` and `O`. A square is `Empty` or `Marked(m)`; the source's `null`
square is `Empty`. A board is a sequence of exactly nine squares, in row-major
order. `calculateWinner`'s `null` result is `None`. The status and move-label
strings are datatypes: `Won(mark)` / `NextPlayer(mark)` and `GameStart` /
`GoToMove(column, row)`.

`HandleClick` copies the displayed board into a fresh array, tests the winner on
it, writes square `i` in place, and appends a snapshot of the array to the
history, as the source does with `slice()`. History entries are values, so no
entry can alias another.

## Model

| member | source | states |
|---|---|---|
| `WinDetector.WinnerFrom` | src/index.js:159-165 | The scan from line i yields no mark exactly when no line from i on is complete. Otherwise it yields the mark of a complete line that no earlier line from i on precedes. |
| `WinDetector.Winner` | src/index.js:148-166 | The result is null iff none of the eight lines is complete. A returned mark fills the first complete line in scan order. |
| `WinDetector.WinnerIsFirstLine` | src/index.js:149-165 | If line k is the first complete line, the winner is its mark, whatever later lines hold: the result is determined by the fixed line order. |
| `WinDetector.TopRowWins` | src/index.js:148-166 | A board with one mark on squares 0, 1, 2 yields that mark, whatever the other squares hold. |
| `WinDetector.EmptyBoardHasNoWinner` | src/index.js:148-166 | The all-null starting board has no winner. |
| `WinDetector.CalculateWinner` | src/index.js:148-166 | The indexed loop with early return computes exactly `Winner` of its input. |
| `History.LegalMoveKeepsHistory` | src/index.js:54-67 | Truncating a valid history after the cursor and appending the board with the mover's mark at an empty square of a board without a winner yields a valid history. |
| `History.MarkAlternation` | src/index.js:60-67 | In a valid history, entry k > 0 holds X at its last-move square when k is odd and O when k is even. |
| `History.SingleCellDelta` | src/index.js:56-64 | Entry k > 0 differs from entry k-1 in exactly one square, its `lastMoveSquare`. That square was empty before and is marked after. |
| `History.NoMoveAfterWin` | src/index.js:57-59 | Every entry but the last has no winner, because no click is taken once the displayed board is won. |
| `History.MarkCounts` | src/index.js:53-69 | Entry k of a valid history holds (k+1)/2 X marks and k/2 O marks. |
| `History.HistoryBounded` | src/index.js:53-69 | A valid history has at most ten entries: each move fills one of nine squares. |
| `View.StatusOf` | src/index.js:112-117 | The status is a win iff some line is complete, and then names the first complete line's mark. Otherwise it names the player the turn flag designates, even on a full board: there is no draw status. |
| `View.Chronological` | src/index.js:91-106 | One descriptor per history entry, each naming its own step. Exactly the one at `stepNumber` is active. Entry 0 is the start-of-game label. For m > 0, column = square % 3 + 1 and row = square / 3 + 1, both in 1..3, and together they give back the square. |
| `View.Reverse` | src/index.js:108-110 | The reversed list has the same length and holds element n-1-j at position j. |
| `View.ReverseReverse` | src/index.js:108-110 | Reversing twice gives back the original list. |
| `View.Displayed` | src/index.js:91-110 | The displayed list is the chronological one when ascending and its reverse otherwise. Exactly one displayed entry is active: the one at `stepNumber`, or at the mirrored position when descending. |
| `View.ReverseInPlace` | src/index.js:108-110 | `moves.reverse()` leaves the array holding the reverse of its old contents. |
| `Engine.Game.constructor` | src/index.js:41-51 | The game starts with one entry holding the empty board, cursor 0, X to move and ascending order, and the invariant holds. |
| `Engine.Game.HandleClick` | src/index.js:53-69 | A click on a won board or an occupied square changes nothing. Otherwise it does four things: history becomes `history[..stepNumber+1]` plus one entry holding the previous board with the mover's mark at i and `lastMoveSquare` i; the cursor advances by one to the last index; the turn flag flips; the sort flag is kept. The invariant is preserved. |
| `Engine.Game.JumpTo` | src/index.js:71-76 | The cursor becomes `step` and the turn flag `step % 2 == 0`. History and sort flag are untouched. The invariant is preserved, and jumping to the current step changes nothing. |
| `Engine.Game.HandleSortToggle` | src/index.js:78-82 | Only the sort flag changes, and it flips. |
| `Engine.Game.Render` | src/index.js:84-117 | The displayed board is `history[stepNumber]`. The winner is `Winner` of that board. The status is `StatusOf` that board and the turn flag. The move list is `Displayed` for the history, cursor and sort flag. |

## Left out

- The `Square` and `Board` components and all markup in `Game.render` (src/index.js:5-38, 99-104, 119-137): presentation only. Among them is the button that shows the sort order.
- The CSS import and both `ReactDOM.render` calls (src/index.js:3, 143-146, 170-173): DOM mounting.
- React's `setState` merging and asynchronous batching: each handler is modelled as a synchronous assignment of the fields it sets.
- The Polish status and label strings: they are the datatypes `Status` and `MoveLabel`, with no string concatenation.
- `Engine.Game.JumpTo`: the source does not check the range of `step`, so `step < |history|` is a precondition.
- `Engine.Game.HandleClick`: the square index is 0..8. The board component only passes those, and the model does not cover the array growth that a larger index would cause.
- `View.Chronological`: requires every entry after the first to record its last move. A valid history always does; the source would show `NaN` column and row labels for an entry that lacked it.
- Draw detection: the source has none, and neither does the model.
