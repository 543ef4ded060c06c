# Tic-Tac-Toe game engine in Dafny

A model of the game logic of a browser Tic-Tac-Toe component
(`TicTacToe/src/App.js`). It covers three parts:

- **Win detection** (`calculateWinner`). It scans eight fixed lines in order: rows, then columns, then diagonals. It reports the first line whose three squares hold the same symbol, or "no winner" with an empty line.
- **The board component's rules.** A click is rejected when the game is already won or the square is taken. An accepted click copies the board and writes the mover's symbol into the copy. The status line reads Won, then Draw (board full), then "next player". The winning squares are highlighted.
- **The game component's history.** This is a list of boards and a pointer to the board on display. Playing truncates the list after the pointer and appends the new board. Jumping moves only the pointer. X moves on even pointers. Each entry of the history list gets a label.

Files, one module each:

| file | module | what |
|---|---|---|
| `cells.dfy` | `Cells` | `Player`, `Cell` (`Empty` is the source's `null`), `Index` (0..8), `Grid` (nine cells), the mover's symbol, counting symbols |
| `winner.dfy` | `WinDetector` | the line table, the scan as a recursive function, `CalculateWinner` as the source's `for` loop with early return, and the soundness, completeness and first-line lemmas |
| `board.dfy` | `BoardRules` | the move rule `ApplyMove`, `HandleClick` (array copy and in-place write, as `slice()` and `nextSquares[i] = …`), the status and the winning-square flag |
| `game.dfy` | `GameHistory` | the `Game` class (`history`, `currentMove`; `HandlePlay`, `JumpTo`, `SelectCell`), turn parity, history labels, and lemmas about histories produced by play |
| `scenarios.dfy` | `Scenarios` | worked examples: a diagonal win, a drawn game, and a branch taken from a past entry |

Boards are values (`seq<Cell>`): the source never changes a board once it is in the history. Only the copy made in `handleClick` is written in place, and `HandleClick` models that copy as an `array`. The game's state is a class whose fields the methods update. `SelectCell` models the wiring at App.js line 129: the board component gets the displayed board and the turn, and its `onPlay` is `handlePlay`.

`LegalHistory(h)` describes a history that play can produce. It starts from the empty board. Each later entry is an accepted click on the entry before it, by the player whose turn that was. `SelectCell` keeps this property. From it follows that consecutive entries differ in exactly one square, which goes from empty to the mover's symbol. Also, entry `n` holds (n+1)/2 X's and n/2 O's, and a history has at most ten entries.

## Model

| member | source | states |
|---|---|---|
| `WinDetector.CalculateWinner` | TicTacToe/src/App.js:143-158 | the loop's result is the scan function's; no winner exactly when no line is uniform, and then the line is empty; otherwise the result is the first uniform line in scan order and its symbol |
| `WinDetector.WinnerFromNone` | TicTacToe/src/App.js:149-157 | the scan from line `i` reports no winner exactly when no line from `i` on is uniform, and then reports `{null, []}` |
| `WinDetector.WinnerFromFirst` | TicTacToe/src/App.js:149-155 | the scan from line `i` reports the first uniform line at or after `i` |
| `WinDetector.WinnerFromSome` | TicTacToe/src/App.js:149-155 | a winner reported by the scan from `i` comes from a uniform line at or after `i` with no uniform line before it |
| `WinDetector.WinnerNoneIff` | TicTacToe/src/App.js:144-157 | `calculateWinner` reports no winner exactly when no line of the table is uniform, and then the line is `[]` |
| `WinDetector.WinnerIsFirstLine` | TicTacToe/src/App.js:144-155 | when several lines are uniform, the first in the order rows, columns, diagonals is reported, with its own symbol |
| `WinDetector.WinnerSound` | TicTacToe/src/App.js:149-154 | a reported winner `p` comes with a line of the table, the first uniform one, whose three squares all hold `p` |
| `WinDetector.EmptyGridNoWinner` | TicTacToe/src/App.js:143-158 | the empty board has no winner and an empty line |
| `Cells.Mover` | TicTacToe/src/App.js:36 | the symbol written or announced is X exactly when `xIsNext` |
| `BoardRules.ApplyMove` | TicTacToe/src/App.js:31-38 | a click is rejected exactly when some line is complete or the square is taken; an accepted click yields a board holding the mover's symbol at `i` and equal to the old board everywhere else |
| `BoardRules.HandleClick` | TicTacToe/src/App.js:29-39 | copying the board and writing into the copy gives the rule's result; `None` (no `onPlay` call) exactly when a line is complete or the square is taken |
| `BoardRules.StatusOf` | TicTacToe/src/App.js:42-51 | Won exactly when a line is complete, and its symbol is that of the first uniform line; Draw exactly when no line is complete and the board is full; otherwise in progress with the player given by the turn |
| `BoardRules.OnReportedLine` | TicTacToe/src/App.js:153-157 | an index is on the reported line exactly when it is on the first uniform line |
| `BoardRules.IsWinningSquare` | TicTacToe/src/App.js:66 | a square is highlighted exactly when it is on the first uniform line, and a highlighted square is taken |
| `BoardRules.DecidedBoardRejectsMoves` | TicTacToe/src/App.js:31-33 | on a won or drawn board every click is rejected |
| `GameHistory.NextPlayer` | TicTacToe/src/App.js:90 | X is to move exactly on even entries |
| `GameHistory.TurnAlternates` | TicTacToe/src/App.js:90 | X opens; the turn changes hands from each entry to the next |
| `GameHistory.Labels` | TicTacToe/src/App.js:103-117 | one label per entry, in order; entry `m` is marked current exactly when `m` is the pointer, is "go to start" exactly when it is entry 0 and not current, and otherwise carries its own number |
| `GameHistory.OneCurrentLabel` | TicTacToe/src/App.js:105-112 | exactly one label is marked current when the pointer is inside the history, none otherwise |
| `GameHistory.LegalStepChangesOneSquare` | TicTacToe/src/App.js:35-38 | in a history produced by play, entry `n` differs from entry `n-1` in exactly one square, which goes from empty to the symbol of entry `n-1`'s player; entry `n-1` had no complete line |
| `GameHistory.LegalCounts` | TicTacToe/src/App.js:88-96 | entry `n` of a history produced by play holds (n+1)/2 X's and n/2 O's |
| `GameHistory.LegalHistoryLength` | TicTacToe/src/App.js:93-96 | a history produced by play has at most ten entries |
| `GameHistory.NinthMoveEndsGame` | TicTacToe/src/App.js:42-48 | after nine moves the board is full and the status is Won or Draw |
| `GameHistory.LegalTruncateExtend` | TicTacToe/src/App.js:93-96 | truncating after the pointer and appending an accepted click by the player to move keeps a history one that play can produce |
| `GameHistory.Game.constructor` | TicTacToe/src/App.js:88-89 | a new game has one empty board on display, and that history is one that play can produce |
| `GameHistory.Game.XIsNext` | TicTacToe/src/App.js:90 | X is next exactly when the entry on display is even |
| `GameHistory.Game.CurrentSquares` | TicTacToe/src/App.js:91 | the board on display is `history[currentMove]` |
| `GameHistory.Game.Moves` | TicTacToe/src/App.js:103-124 | the labels are `Labels` of the history's length and the pointer: one per entry in order, the entry at the pointer marked current, entry 0 otherwise "go to start", every other entry "go to move" with its own number; exactly one label is marked current |
| `GameHistory.Game.HandlePlay` | TicTacToe/src/App.js:93-97 | the new history is the old one up to the pointer followed by the new board; the pointer moves to it, one past the old pointer; earlier entries are unchanged; the pointer stays in range |
| `GameHistory.Game.JumpTo` | TicTacToe/src/App.js:99-101 | only the pointer changes, to the requested existing entry |
| `GameHistory.Game.SelectCell` | TicTacToe/src/App.js:129 | an accepted click on the displayed board (by the player of its parity) truncates and appends the new board and advances the pointer by one; a rejected click changes nothing; a history produced by play stays one |
| `Scenarios.DiagonalWin` | TicTacToe/src/App.js:143-158 | X@0, O@1, X@4, O@2, X@8 is legal play, X wins on line [0,4,8], and every further click is rejected |
| `Scenarios.DrawnGameIsLegal` | TicTacToe/src/App.js:29-39 | X@0, O@1, X@2, O@4, X@3, O@5, X@7, O@6, X@8 is legal play |
| `Scenarios.FullBoardDraw` | TicTacToe/src/App.js:42-51 | that game's final board has status Draw |

## Left out

- Rendering: the `Square` component, the loops that build the rows, CSS classes, `data-value`, inline styles and the list markup. These only display values the model computes.
- React's `useState` and its batched, asynchronous re-render. `history` and `currentMove` are plain fields, updated at once.
- The Romanian display text. The status and the history labels are datatypes carrying the symbol or move number.
- `GameHistory.Game.JumpTo`: the source does no range check, so the model requires an existing entry. The history list only offers existing entries.
- `BoardRules.HandleClick`: the index is an `Index` (0..8). The board only issues clicks for its nine squares, so out-of-range indices are not modelled.
- `GameHistory.Game.HandlePlay` accepts any nine-square board, as `handlePlay` does. It is `SelectCell`, not `Valid()`, that keeps histories legal.
- `currentMove` is a `nat`. The source only ever stores non-negative integers there, so JavaScript number semantics play no part.
