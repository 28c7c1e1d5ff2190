# Tic-tac-toe game engine

A model of the game engine inside `MainActivity` of a two-player, single-device
Android tic-tac-toe app. The engine holds a 3x3 board whose cells are empty,
X or O. It also holds the player to move (`currentPlayer`), a `gameOver` flag,
and the points of player one (X) and player two (O), which add up across rounds.
A tap on a cell places the mover's mark, unless the cell is taken or the round
is over. After the mark is placed:

- a line of the mover's mark (a row, a column or a diagonal) ends the round
  and gives the mover one point;
- otherwise a full board ends the round as a draw;
- otherwise the turn passes to the other player.

"New game" clears the board, gives the move to X and reopens the round. It
does not touch the scores.

The project has three modules:

- `Grid` (grid.dfy) describes the board as a value. It has the players, the
  cells, placing a mark, the eight lines (`Wins`), the full board (`Full`) and
  counting marks (`Tally`).
- `Rules` (rules.dfy) is the state machine on values. `CellClicked` is a tap
  and `Reset` is a new game. `Consistent` is the invariant that every
  reachable state keeps. It also holds lemmas about single taps, lemmas about
  sequences of user actions (`Run`), and two complete rounds played out.
- `Engine` (game.dfy) is the class `Game`. It keeps the board in an
  `array2<Cell>` and keeps the turn, the flag and the scores in fields that its
  methods update in place. `OnCellClicked`, `UpdateScores` and `ResetGame`
  are proved to move `State()` exactly as `Rules.CellClicked`, `Rules.Credit`
  and `Rules.Reset` do. `InitializeBoard` is proved to leave the board equal
  to `Grid.EmptyBoard`. `CheckWin` and `CheckDraw` change nothing and are
  proved to return exactly `Grid.Wins` and `Grid.Full` of the board.
  `Valid()` (the invariant `Rules.Consistent`) holds after the constructor and
  is kept by every tap and every new game.

In the source, `checkWin` and `checkDraw` also set `gameOver` through
`displayResult`. In the model they only compute their answer, and
`OnCellClicked` sets the flag itself right after each call, as the source also
does on those lines. The board is a plain array of cells rather than the
`TextView`s whose text the source uses as storage. An empty cell stands for the
empty text.

- Positions have type `Index` (0..2). The code has no out-of-range case,
  because every tap comes from one of the nine cell views
  (MainActivity.kt:48-52, :76).
- `onCellClicked` returns nothing. The outcome of a tap is read from the new
  state.
- `FullBoardDraw` plays nine alternating taps that end in the board
  X O X / X O O / O X X, which holds no line.

## Model

| member | source | states |
|---|---|---|
| `Grid.Other` | app/src/main/java/com/example/myapplication/MainActivity.kt:100 | the turn always passes to the other player, never to the same one |
| `Grid.Place` | app/src/main/java/com/example/myapplication/MainActivity.kt:85 | writing the mover's mark changes the tapped cell to that mark and no other cell |
| `Grid.WinsByLineTable` | app/src/main/java/com/example/myapplication/MainActivity.kt:112-140 | the three row checks, three column checks and two diagonal checks hold exactly when one of the eight lines of a separate (row, col) table is entirely the player's mark |
| `Grid.PlaceKeepsNoWin` | app/src/main/java/com/example/myapplication/MainActivity.kt:85 | placing one player's mark never completes a line for the other player |
| `Grid.TallyPlace` | app/src/main/java/com/example/myapplication/MainActivity.kt:83-85 | placing a mark in an empty cell adds exactly one mark of the mover, removes one empty cell, and leaves the other player's count alone |
| `Grid.FullIffNoEmpty` | app/src/main/java/com/example/myapplication/MainActivity.kt:142-150 | the board counts as full exactly when no cell is empty |
| `Grid.EmptyBoardTally` | app/src/main/java/com/example/myapplication/MainActivity.kt:72-78 | the cleared board holds no mark of either player, is not full and has no line |
| `Rules.Initial` | app/src/main/java/com/example/myapplication/MainActivity.kt:25-28 | the starting session (empty board, X to move, round open, scores 0 and 0) satisfies the invariant |
| `Rules.Credit` | app/src/main/java/com/example/myapplication/MainActivity.kt:152-160 | a win adds one point to the winner's score and nothing to the other, and changes nothing else |
| `Rules.CellClicked` | app/src/main/java/com/example/myapplication/MainActivity.kt:82-102 | a tap never lowers a score and raises the total by at most one; it changes no cell except the tapped one; it never overwrites a mark; after the round is over it changes nothing |
| `Rules.Reset` | app/src/main/java/com/example/myapplication/MainActivity.kt:166-172 | a new round is the starting session with the scores carried over, and it satisfies the invariant |
| `Rules.ClickPreservesConsistent` | app/src/main/java/com/example/myapplication/MainActivity.kt:82-102 | every tap keeps the invariant: while the round is open, X has as many marks as O when X is to move and one more when O is to move; the opponent of the player to move never holds a line; an open round has no line and a free cell; a finished round was finished by the mark of the player to move |
| `Rules.OnlyMoverCanWin` | app/src/main/java/com/example/myapplication/MainActivity.kt:112-140 | in a reachable state the opponent never holds a line after a move, so checking only the mover's mark misses no win |
| `Rules.FullBoardFilledByX` | app/src/main/java/com/example/myapplication/MainActivity.kt:142-150 | in a reachable state a full board means the round is over, X is the player to move, and the board holds five X marks and four O marks |
| `Rules.ClickIgnored` | app/src/main/java/com/example/myapplication/MainActivity.kt:83 | a tap on an occupied cell, or any tap after the round is over, leaves board, turn, flag and both scores as they were |
| `Rules.ClickWins` | app/src/main/java/com/example/myapplication/MainActivity.kt:87-91 | a move that completes a line of the mover's mark ends the round, keeps the turn with the mover, gives the mover exactly one point and leaves the other score unchanged |
| `Rules.ClickDraws` | app/src/main/java/com/example/myapplication/MainActivity.kt:94-98 | a move that fills the board without a line ends the round and changes neither score |
| `Rules.ClickContinues` | app/src/main/java/com/example/myapplication/MainActivity.kt:100 | a move that neither completes a line nor fills the board passes the turn to the other player, keeps the round open and changes neither score |
| `Rules.RunKeepsConsistent` | app/src/main/java/com/example/myapplication/MainActivity.kt:55-76 | the invariant holds after any sequence of taps and new games |
| `Rules.RunScoresMonotone` | app/src/main/java/com/example/myapplication/MainActivity.kt:152-172 | neither score ever decreases over any sequence of taps and new games |
| `Rules.ConcludedUntilNewGame` | app/src/main/java/com/example/myapplication/MainActivity.kt:83 | once the round is over, any sequence of taps leaves the whole state unchanged |
| `Rules.TopRowWinForX` | app/src/main/java/com/example/myapplication/MainActivity.kt:82-102 | in a fresh round, X at (0,0), O at (1,0), X at (0,1), O at (1,1), X at (0,2) ends the round as a win for X, with one more point for player one |
| `Rules.DrawOpening` | app/src/main/java/com/example/myapplication/MainActivity.kt:82-102 | the first five moves of the drawn round give the expected board, with O to move and the round open |
| `Rules.DrawEnding` | app/src/main/java/com/example/myapplication/MainActivity.kt:82-102 | the last four moves of the drawn round fill the board without a line and end the round as a draw with the scores unchanged |
| `Rules.FullBoardDraw` | app/src/main/java/com/example/myapplication/MainActivity.kt:82-102 | nine alternating moves that end in the board X O X / X O O / O X X end the round as a draw with X to move and the scores unchanged |
| `Engine.Game.constructor` | app/src/main/java/com/example/myapplication/MainActivity.kt:24-28 | a new engine is the starting session, with the board cleared through `InitializeBoard` as `onCreate` does at MainActivity.kt:63, and it satisfies the invariant |
| `Engine.Game.InitializeBoard` | app/src/main/java/com/example/myapplication/MainActivity.kt:72-78 | the nested loop over rows and cells leaves every cell empty |
| `Engine.Game.OnCellClicked` | app/src/main/java/com/example/myapplication/MainActivity.kt:82-102 | the in-place tap moves the state exactly as `Rules.CellClicked` and keeps the invariant |
| `Engine.Game.CheckWin` | app/src/main/java/com/example/myapplication/MainActivity.kt:112-140 | the row and column loops and the two diagonal tests, each returning early, report true exactly when some line is entirely the current player's mark, that is, exactly `Grid.Wins` of the board for the current player |
| `Engine.Game.CheckDraw` | app/src/main/java/com/example/myapplication/MainActivity.kt:142-150 | the nested loop with early return reports true exactly when no cell is empty, that is, exactly `Grid.Full` of the board |
| `Engine.Game.UpdateScores` | app/src/main/java/com/example/myapplication/MainActivity.kt:152-160 | adds one point to player one's score if X is to move and to player two's otherwise, as `Rules.Credit` |
| `Engine.Game.ResetGame` | app/src/main/java/com/example/myapplication/MainActivity.kt:166-172 | from any state, clears the board, gives the move to X, reopens the round, keeps both scores (as `Rules.Reset`) and re-establishes the invariant |

## Left out

- Android plumbing is left out because it holds no game logic. This covers
  `onCreate`'s view lookups and `setContentView`, the click-listener
  registration, and the layout switch in `showGameLayout`. A new game requested
  from the menu or from the in-game button is the `NewGame` action, which
  resets the round.
- Presentation is left out: text colours, the result message and its
  visibility, the visibility of the new-game button, the score labels and the
  current-player label (`updateCurrentPlayer`).
- The `TextView` board and the framework's event thread are left out. The board
  is an array of `Cell` values, and each tap runs to completion as one method
  call.
- `NewGame` may occur at any point of a round in `Run`. In the source a new
  game cannot be requested mid-round: the in-game button is hidden by
  `resetGame` (MainActivity.kt:169) and shown again only when a round ends
  (:89, :96), and the menu is hidden once the game layout is shown (:67). The
  model therefore allows more action sequences than the source; every lemma
  over `Run` still holds for them.
- Rules.Credit: scores are unbounded naturals. The source's `Int` counters
  would wrap after 2^31 - 1 wins, so "scores never decrease" holds in the model
  but not past that point of the source.
- Engine.Game.UpdateScores: the same unbounded-score simplification as
  `Rules.Credit`.
