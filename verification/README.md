# Tic-tac-toe game engine, modelled in Dafny

This project models the game-state engine of a React tic-tac-toe app. The
whole app is `src/App.js`. The model covers four parts:

- **Winner detection.** `calculateWinner` scans the eight fixed lines of the
  row-major 9-square board: rows, then columns, then the two diagonals. It
  reports the first line whose three squares are filled with the same mark.
- **Draw detection.** `isBoardFull` says whether every square is filled. The
  board is drawn when there is no winner and it is full.
- **Move application.** This is the rule part of `Board.handleClick`. A click
  is ignored when the game is won, drawn, or the square is taken. Otherwise
  the click yields a copy of the board with the mover's mark in that square.
- **History and cursor.** `Game` holds a list of board snapshots (`history`)
  and a cursor into it (`currentMove`). `handlePlay` keeps the snapshots up
  to the cursor, appends the new board and moves the cursor onto it.
  `jumpTo` moves only the cursor. Whose turn it is follows from the
  cursor's parity.

Modules:

- `Rules` (`rules.dfy`): cells, boards, the line table, `CalculateWinner`,
  `IsBoardFull` and `IsDraw`.
- `Moves` (`moves.dfy`): `HandleClick`.
- `History` (`history.dfy`): the `Game` record, `HandlePlay`, `JumpTo`,
  `XIsNext`, and `Click`. `Click` is the board's click handler with `onPlay`
  bound to `handlePlay`. This module also defines the `Reachable` invariant:
  the first snapshot is the empty board, and each later snapshot is one
  accepted click after the one before it, made by the player whose turn the
  ply parity gives.
- `Scenarios` (`scenarios.dfy`): concrete positions and histories.

The two `useState` cells of `Game` are one immutable record, and each
handler returns the next record. JavaScript `null` in a square is `Empty`.
The `[null, []]` that `calculateWinner` returns when nobody has won is
`NoWinner`. The source copies the board with `slice()` before writing to
it. Dafny sequences are values, so the old board can never change.

Points where the code's behaviour is easy to misread:

- `handleClick` does no range check on `i`. The board layout only ever
  passes squares 0..8 (src/App.js:44). So the square index has the type
  `Index` (0..8) and there is no rejection branch for it.
- `jumpTo` does no check on its index. The move list only passes recorded
  move numbers (src/App.js:94). So `JumpTo` requires a recorded index.
- X@0, O@1, X@2, O@3, X@4, O@6, X@5, O@7, X@8 fills the board, but it is a
  win for X, not a draw. The last move completes both the right column and
  the main diagonal, and the column comes first in the table.
  `Scenarios.NineMovesEndInWin` states this. `Scenarios.FullBoardDraw`
  gives a sequence that really ends in a draw.
- The code computes the winner and the draw flag separately
  (src/App.js:17-18), and so does the model.

## Model

| member | source | states |
|---|---|---|
| Rules.ScanFrom | src/App.js:122-128 | Scanning the table from position k finds no winner exactly when no line at or after k is complete. Otherwise it returns the first complete line at or after k, with the mark in that line's first square. |
| Rules.CalculateWinner | src/App.js:111-129 | There is no winner exactly when none of the eight lines is complete. A reported winner is a line of the table whose three squares all hold the reported non-empty mark, and no earlier line of the table is complete. |
| Rules.WinnerIsFirstCompleteLine | src/App.js:122-126 | If line k is complete and no earlier line is, the result is exactly that line with its mark. So the fixed order rows → columns → diagonals decides the answer. |
| Rules.CompleteLineWins | src/App.js:123-125 | Any complete line of the table makes `calculateWinner` report a winner. |
| Rules.IsBoardFull | src/App.js:131-133 | `isBoardFull` holds exactly when the count of empty squares is zero. |
| Rules.FullIffNoEmptySquare | src/App.js:131-133 | Every square being filled, the test `every` makes, is the same as the count of empty squares being zero. |
| Rules.CountAfterFill | src/App.js:24-29 | Writing a mark into an empty square adds one to that mark's count and takes one from the empty count. Every other count stays the same. |
| Rules.IsDraw | src/App.js:18 | The draw flag holds exactly when no line of the table is complete and no square is empty. |
| Rules.WonAndDrawnExclusive | src/App.js:17-18 | A position is never both won and drawn. A draw is exactly no complete line plus no empty square. |
| Rules.EmptyBoardInProgress | src/App.js:70 | The initial `Array(9).fill(null)` board has no winner and is not full. It holds nine empty squares and no marks. |
| Moves.PlayerMark | src/App.js:25-29 | The mark written is never empty: it is X exactly when `xIsNext`, and O exactly when not. |
| Moves.GameOver | src/App.js:21 | The won-or-drawn part of `handleClick`'s early-return test (`winner` or `draw`, without the taken-square test) holds exactly when some line of the table is complete or no square is empty. |
| Moves.HandleClick | src/App.js:20-31 | A click is ignored exactly when the position is won or drawn, or the square is taken. An accepted click puts X (when `xIsNext`) or O in square i and leaves every other square as it was. |
| Moves.MoveFillsOneSquare | src/App.js:24-30 | An accepted click fills exactly one empty square. The mover gains one mark, the empty count drops by one, and the opponent's count stays the same. |
| Moves.OpenSquareAccepts | src/App.js:20-31 | A click on an empty square of a position with no complete line is accepted, whoever is to move, and yields the board with the mover's mark in that square. |
| Moves.FullLineFreeBoardIsDraw | src/App.js:17-23 | Every full board with no complete line is a draw, and every click on it is ignored, whoever is to move. |
| Moves.FreshLinesThroughMove | src/App.js:21-29 | After an accepted click, every complete line of the new board contains the clicked square and holds the mover's mark, since the position before an accepted click has no complete line. |
| History.Init | src/App.js:70-71 | The initial state is one all-empty board with cursor 0. It is valid, has no winner and is not full. |
| History.XIsNext | src/App.js:72 | X is to move exactly when X and O have made equally many of the plies before the cursor (X makes the even plies, O the odd ones). |
| History.CurrentSquares | src/App.js:73 | The current board is one of the stored snapshots. |
| History.Take | src/App.js:76 | `slice(0, n)` returns the first n elements, or all of them when there are fewer, unchanged. |
| History.HandlePlay | src/App.js:75-79 | After `handlePlay` the cursor is on the last snapshot, and that snapshot is the new board. Starting from a valid state, the snapshots up to the old cursor are kept, everything after is dropped, and the cursor moves to the old cursor + 1. |
| History.JumpTo | src/App.js:81-83 | `jumpTo` keeps every stored snapshot, sets the cursor to the requested index, and the current board becomes the one stored there. |
| History.Click | src/App.js:102 | A click on the rendered board leaves the state unchanged when `handleClick` ignores it. Otherwise the history ends one past the old cursor, the turn flips, and the current board is the clicked one. |
| History.InitIsReachable | src/App.js:70-71 | The initial state satisfies the reachability invariant. |
| History.ClickPreservesReachable | src/App.js:75-79 | A click keeps the invariant. Every kept snapshot is still one legal move after its predecessor, and so is the new last snapshot. |
| History.JumpToPreservesReachable | src/App.js:81-83 | A jump to a recorded index keeps the invariant. |
| History.SnapshotCounts | src/App.js:72 | In a reachable game, the snapshot at ply k has 9 - k empty squares, (k + 1) / 2 X marks and k / 2 O marks. |
| History.HistoryBounded | src/App.js:75-79 | A reachable game records at most ten snapshots. |
| History.TurnMatchesBoard | src/App.js:72 | The turn given by cursor parity agrees with the board at the cursor. It is X's turn exactly when X and O have equally many marks, and O's turn exactly when X has one more. |
| History.OnlyLastSnapshotTerminal | src/App.js:21-23 | In a reachable game, every snapshot before the last was neither won nor drawn. Moves are refused after the end. |
| History.LinesBelongToLastMover | src/App.js:17-31 | In a reachable game, the first snapshot has no complete line. Every complete line of a later snapshot holds the mark of the player who made its last move: X after an odd number of plies, O after an even number. So the two players never both hold a line, and a reported winner is the last mover. |
| History.BranchDiscardsFuture | src/App.js:75-83 | Play, jump back to the old cursor, then play again. The history is then the snapshots up to the old cursor plus the second board, so the first board is gone. |
| Scenarios.TopRowWin | src/App.js:111-129 | After X@0, O@4, X@1, O@5, X@2 the winner is X on line (0, 1, 2), and every further click is ignored. |
| Scenarios.NineMovesEndInWin | src/App.js:111-129 | X@0, O@1, X@2, O@3, X@4, O@6, X@5, O@7, X@8 fills the board but is a win for X on the right column, which comes before the also complete main diagonal in the table. It is not a draw. |
| Scenarios.FullBoardDraw | src/App.js:17-23 | The board [X, O, X, X, O, O, O, X, X], reached by X@0, O@1, X@2, O@4, X@3, O@5, X@7, O@6, X@8, is a draw, and every click on it is ignored, whoever is to move. |
| Scenarios.TopRowWinClick1 | src/App.js:20-31 | Click 1 of `TopRowWin`: X on square 0 of [E, E, E, E, E, E, E, E, E] is accepted and yields that board with X in square 0. |
| Scenarios.TopRowWinClick2 | src/App.js:20-31 | Click 2 of `TopRowWin`: O on square 4 of [X, E, E, E, E, E, E, E, E] is accepted and yields that board with O in square 4. |
| Scenarios.TopRowWinClick3 | src/App.js:20-31 | Click 3 of `TopRowWin`: X on square 1 of [X, E, E, E, O, E, E, E, E] is accepted and yields that board with X in square 1. |
| Scenarios.TopRowWinClick4 | src/App.js:20-31 | Click 4 of `TopRowWin`: O on square 5 of [X, X, E, E, O, E, E, E, E] is accepted and yields that board with O in square 5. |
| Scenarios.TopRowWinClick5 | src/App.js:20-31 | Click 5 of `TopRowWin`: X on square 2 of [X, X, E, E, O, O, E, E, E] is accepted and yields that board with X in square 2. |
| Scenarios.NineMovesEndInWinClick2 | src/App.js:20-31 | Click 2 of `NineMovesEndInWin`: O on square 1 of [X, E, E, E, E, E, E, E, E] is accepted and yields that board with O in square 1. |
| Scenarios.NineMovesEndInWinClick3 | src/App.js:20-31 | Click 3 of `NineMovesEndInWin`: X on square 2 of [X, O, E, E, E, E, E, E, E] is accepted and yields that board with X in square 2. |
| Scenarios.NineMovesEndInWinClick4 | src/App.js:20-31 | Click 4 of `NineMovesEndInWin`: O on square 3 of [X, O, X, E, E, E, E, E, E] is accepted and yields that board with O in square 3. |
| Scenarios.NineMovesEndInWinClick5 | src/App.js:20-31 | Click 5 of `NineMovesEndInWin`: X on square 4 of [X, O, X, O, E, E, E, E, E] is accepted and yields that board with X in square 4. |
| Scenarios.NineMovesEndInWinClick6 | src/App.js:20-31 | Click 6 of `NineMovesEndInWin`: O on square 6 of [X, O, X, O, X, E, E, E, E] is accepted and yields that board with O in square 6. |
| Scenarios.NineMovesEndInWinClick7 | src/App.js:20-31 | Click 7 of `NineMovesEndInWin`: X on square 5 of [X, O, X, O, X, E, O, E, E] is accepted and yields that board with X in square 5. |
| Scenarios.NineMovesEndInWinClick8 | src/App.js:20-31 | Click 8 of `NineMovesEndInWin`: O on square 7 of [X, O, X, O, X, X, O, E, E] is accepted and yields that board with O in square 7. |
| Scenarios.NineMovesEndInWinClick9 | src/App.js:20-31 | Click 9 of `NineMovesEndInWin`: X on square 8 of [X, O, X, O, X, X, O, O, E] is accepted and yields that board with X in square 8. |
| Scenarios.FullBoardDrawClick4 | src/App.js:20-31 | Click 4 of `FullBoardDraw`: O on square 4 of [X, O, X, E, E, E, E, E, E] is accepted and yields that board with O in square 4. |
| Scenarios.FullBoardDrawClick5 | src/App.js:20-31 | Click 5 of `FullBoardDraw`: X on square 3 of [X, O, X, E, O, E, E, E, E] is accepted and yields that board with X in square 3. |
| Scenarios.FullBoardDrawClick6 | src/App.js:20-31 | Click 6 of `FullBoardDraw`: O on square 5 of [X, O, X, X, O, E, E, E, E] is accepted and yields that board with O in square 5. |
| Scenarios.FullBoardDrawClick7 | src/App.js:20-31 | Click 7 of `FullBoardDraw`: X on square 7 of [X, O, X, X, O, O, E, E, E] is accepted and yields that board with X in square 7. |
| Scenarios.FullBoardDrawClick8 | src/App.js:20-31 | Click 8 of `FullBoardDraw`: O on square 6 of [X, O, X, X, O, O, E, X, E] is accepted and yields that board with O in square 6. |
| Scenarios.FullBoardDrawClick9 | src/App.js:20-31 | Click 9 of `FullBoardDraw`: X on square 8 of [X, O, X, X, O, O, O, X, E] is accepted and yields that board with X in square 8. |
| Scenarios.JumpBackThenPlay | src/App.js:75-83 | With four snapshots recorded, jumping to move 1 and playing leaves three snapshots: the first two and the new board. |
| Scenarios.StartOfGame | src/App.js:70-72 | The initial state has no winner and no draw. It holds one snapshot, the cursor is 0, and X is to move. |

## Left out

- Rendering (`Square`, the board layout, the status text, the "Go to move
  #N" list, the lime highlight of the winning line) is presentation only, so
  it is not modelled (src/App.js:3-14, 33-66, 85-108).
- React's `useState` and its re-render timing are left out. The two state
  cells are one record that each handler replaces at once.
- `handleClick` with an index outside 0..8 is left out: the board layout
  cannot produce one (src/App.js:44). In JavaScript an index of 9 or more
  would grow the copied array and a negative one would add a stray
  property; either way the click would not be rejected.
- `jumpTo` with an index past the end of the history is left out: the move
  list only offers recorded indices. In the source such a jump would make
  the current board `undefined`.
- Resetting to a new game is left out, because the source has no such
  operation.
- A full game played through `Click` and the `Game` history from the
  initial state is not stated as one chain. The scenarios state each click
  of the three games as its own `HandleClick` step on the board, and the
  `Reachable` lemmas cover all clicks from the initial state in general.
