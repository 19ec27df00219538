# Tic-tac-toe game logic

A Dafny model of the game logic of a React tic-tac-toe widget (`src/pages/App.js`),
with the markup stripped away:

- **Winner detection** (`calculateWinner`): the scan of the eight triples (rows top to
  bottom, columns left to right, the two diagonals) that returns the first triple whose
  three squares hold the same symbol, with that symbol, or nothing. Module
  `WinnerDetector`: the scan as a loop (`CalculateWinner`), proved equal to a recursive
  specification (`WinnerFrom`/`Winner`), with lemmas that a reported win is real, that
  nothing is reported exactly when no triple is complete, and that the triple reported is
  the first complete one.
- **The board** (`Board`): `handleClick` copies the squares into a fresh array and writes
  the mover's symbol, unless the game is won or the square is taken; the status line
  ("Winner: s", "Tie", "Next player: X/O"); which squares are highlighted. Module `BoardView`.
- **The history list** (`history.map(...)` and `sortedMoves`): one label per history entry
  with 1-based "(row,col)" coordinates, "You are ..." for the current move and a button
  for every other one, shown in history order or exactly reversed. Module `MoveList`.
- **The game controller** (`Game`): a class whose fields are the three `useState`
  values — `history`, `currentMove`, `sortDescending` — and whose methods are
  `handlePlay`, `jumpTo`, the sort toggle, and a click on a square (`handleClick`
  feeding `handlePlay`). Module `GameController` also defines `Played`: a history
  every entry of which is a legal click on the one before it, and proves what such
  histories guarantee: `m` moves fill exactly `m` squares, `ceil(m/2)` X's and
  `floor(m/2)` O's; a filled square is never cleared; a won board is never played
  on; the winner is the player who moved last and the last square played is in the
  winning triple; "Tie" means a full board without three in a row.
- Module `Scenarios` plays two whole games through the model: X winning down the left
  column, and a draw that ends with "Tie" at move 9.

The `useState` setters are field assignments. `handlePlay` accepts whatever squares it is
handed, as in the source, so the class invariant `Valid()` is structural (the history is
non-empty, starts with the empty board, and the pointer is inside it); that every entry
is a legal move is the separate predicate `Played`, which the constructor establishes and
`Click`, `JumpTo` and `ToggleSort` preserve.

## Model

| member | source | states |
|---|---|---|
| `WinnerDetector.WinnerFrom` | src/pages/App.js:154-172 | the scan from position `i` finds nothing exactly when no triple from `i` on is complete; otherwise it returns the first complete triple from `i` on, with the symbol of its first square |
| `WinnerDetector.CalculateWinner` | src/pages/App.js:154-172 | the loop with its early return computes the specified winner; a returned triple is one of the eight, is complete, and its symbol is that of its squares and not empty |
| `WinnerDetector.WinnerSound` | src/pages/App.js:165-168 | a reported win names one of the eight triples whose three squares all hold the reported, non-empty symbol |
| `WinnerDetector.NoWinnerIff` | src/pages/App.js:155-171 | no winner is reported if and only if none of the eight rows, columns and diagonals is complete |
| `WinnerDetector.WinnerIsFirst` | src/pages/App.js:155-171 | when triple `k` is the first complete one in scan order, it is the one reported, with its symbol |
| `BoardView.NextSquares` | src/pages/App.js:16-25 | a click is ignored exactly when there is a winner or the square is taken; otherwise the new board has the mover's symbol at `i` and equals the old board everywhere else |
| `BoardView.HandleClick` | src/pages/App.js:16-27 | emits nothing exactly when there is a winner or square `i` is filled; otherwise emits index `i` and a copy of the squares that differs only at `i`, where it holds "X" if X is next and "O" otherwise |
| `BoardView.StatusOf` | src/pages/App.js:29-37 | "Winner" exactly when a winner exists (even at move 9), with its symbol; "Tie" exactly when there is no winner and the move is 9; otherwise the next player is X or O as `xIsNext` says |
| `BoardView.StatusTextInjective` | src/pages/App.js:29-37 | two different statuses never print the same status line |
| `BoardView.SymbolText` | src/pages/App.js:32 | a symbol prints as one character, and an empty square as nothing |
| `BoardView.StatusText` | src/pages/App.js:32-36 | "Winner: " followed by the winning symbol, exactly "Tie", or "Next player: " followed by the player's symbol |
| `BoardView.IsWinningSquare` | src/pages/App.js:46 | a highlighted square exists only when there is a winner and holds the winning, non-empty symbol |
| `BoardView.HighlightedSquares` | src/pages/App.js:39-46 | without a winner nothing is highlighted; with one, exactly the three squares of the winning triple are |
| `MoveList.Decimal` | src/pages/App.js:101 | a move number prints as a non-empty string of decimal digits without a leading zero |
| `MoveList.DecimalRoundTrip` | src/pages/App.js:101 | reading back the printed move number gives the number |
| `MoveList.DecimalInjective` | src/pages/App.js:101 | two different move numbers never print alike |
| `MoveList.Coords` | src/pages/App.js:96-98 | row and column are both in 1..3 and determine the square index: `(row-1)*3 + (col-1) == p` |
| `MoveList.PositionCoords` | src/pages/App.js:96-98 | row and column are in 1..3; for a position they determine the square index; for a missing position (JavaScript's `null`) they are (1,1) |
| `MoveList.Description` | src/pages/App.js:100-115 | the current move reads "You are at move #..." (or "You are on game start."), every other one "Go to move #..." (or "Back to game start."); only labels after the start end with the ")" of the coordinates |
| `MoveList.DescriptionNamesMove` | src/pages/App.js:101 | right after the "#" a label carries the decimal digits of its move, ended by the "." of ". Position:", and they read back as the move |
| `MoveList.DescriptionsDiffer` | src/pages/App.js:101 | two moves after the start with the same label are the same move |
| `MoveList.DescriptionNamesSquare` | src/pages/App.js:96-110 | the label of a move ends in "(row,col)", and the square played is recovered from those two digits |
| `MoveList.Moves` | src/pages/App.js:93-118 | one item per history entry, in order; item `m` is for move `m`, is a button exactly when `m` is not the current move, and carries that entry's label |
| `MoveList.Reverse` | src/pages/App.js:120 | same length, and element `k` is element `n-1-k` of the input |
| `MoveList.ReverseReverse` | src/pages/App.js:120 | reversing twice gives the list back |
| `MoveList.Ordered` | src/pages/App.js:120 | the list shown is the labels in history order, or exactly their reverse when sorting descending |
| `MoveList.OrderedFlip` | src/pages/App.js:120 | flipping the sort flag shows exactly the reverse of what was shown |
| `MoveList.OnlyCurrentInert` | src/pages/App.js:106-115 | in either order, an item is plain text rather than a button exactly when it is the current move |
| `GameController.XIsNext` | src/pages/App.js:77 | no contract of its own: X is next on even move numbers; its meaning is stated by `GameController.TurnsAlternate` |
| `GameController.TurnsAlternate` | src/pages/App.js:77 | X makes the first move and the turn changes after every move |
| `GameController.PlayedPrefix` | src/pages/App.js:81-84 | keeping the entries up to the current move keeps a history of legal moves |
| `GameController.PlayedExtend` | src/pages/App.js:80-87 | appending a legal click on the last board keeps a history of legal moves |
| `GameController.PlayedStep` | src/pages/App.js:16-26 | each later entry of a legal history is the one before with an empty square given to the player whose turn it was, on a board without a winner |
| `GameController.EmptyBoardFacts` | src/pages/App.js:72-74 | the starting board has nine empty squares and no winner |
| `GameController.PlayedCounts` | src/pages/App.js:77 | after `m` moves the board holds `ceil(m/2)` X's, `floor(m/2)` O's and `9-m` empty squares, so the parity of `currentMove` matches whose turn it is |
| `GameController.PlayedLength` | src/pages/App.js:80-87 | a legal history has at most ten entries |
| `GameController.CellsPersist` | src/pages/App.js:20-26 | a filled square keeps its symbol in every later entry |
| `GameController.WonIsTerminal` | src/pages/App.js:17-19 | an entry that has a successor has no winner: nothing is played on a won board |
| `GameController.WinnerMovedLast` | src/pages/App.js:17-26 | a won board is not the start; the winner is the player who made the last move, and the square played last is in the winning triple |
| `GameController.StatusOfPlayed` | src/pages/App.js:29-37 | on a legal history, "Tie" only on a full board with no complete triple; "Next player" only with a free square, and it names X exactly when X and O have played equally often |
| `GameController.Game.constructor` | src/pages/App.js:72-76 | the history is one entry (empty board, no position), the pointer is 0, the order ascending; the history is legal |
| `GameController.Game.CurrentSquares` | src/pages/App.js:78 | on a legal history, the current board has exactly `currentMove` filled squares |
| `GameController.Game.Status` | src/pages/App.js:29-37 | on a legal history, "Tie" is shown only when every square of the current board is filled |
| `GameController.Game.Displayed` | src/pages/App.js:120 | one item per history entry; item `k` is for move `k`, or for move `n-1-k` when sorting descending; only the current move is not a button |
| `GameController.Game.HandlePlay` | src/pages/App.js:80-87 | the new history is the entries up to the current move plus the new entry, the pointer is at its last entry (one past the old pointer), entries up to the old pointer and the sort flag are unchanged; a legal play keeps the history legal |
| `GameController.Game.JumpTo` | src/pages/App.js:89-91 | only the pointer changes; the current board is then exactly `history[m].squares` |
| `GameController.Game.ToggleSort` | src/pages/App.js:139 | the invariant holds, only the sort flag changes, and the list shown becomes exactly the reverse of the one before |
| `GameController.Game.Click` | src/pages/App.js:16-27 | an ignored click changes nothing; otherwise the entries after the current move are dropped and the clicked board is appended; a legal history stays legal |
| `Scenarios.ColumnWin` | src/pages/App.js:154-172 | X at 0, O at 1, X at 3, O at 4, X at 6 is a legal game; X wins on triple (0,3,6) and the status reads "Winner: X" |
| `Scenarios.Draw` | src/pages/App.js:29-37 | a legal nine-move game with no complete triple ends with the status "Tie" |

## Left out

- Rendering: the `Square` component, class names, the row/column loop that assembles the
  board markup, the button versus paragraph markup of the history list and the page layout.
  What they show is modelled: the highlighted squares (`IsWinningSquare`), the status
  text, and each list item's text and whether it is a button.
- React `useState` and event wiring: the state is the fields of `Game`, the setters are
  assignments and the handlers are its methods. `src/pages/index.js` only mounts the
  component and is not part of this model.
- A history entry after the start always has a position in the source. For a missing one
  the label's coordinates are (1,1), what JavaScript computes from `null`; the label of
  the start never shows them.
- Square indices are 0..8 by type: `handleClick` is only wired to the nine squares, so a
  click outside the board (where the JavaScript array would grow) is not modelled.
- `GameController.Game.JumpTo` requires a move inside the history, as the list only offers
  those; the source itself checks nothing and no error path is modelled.
