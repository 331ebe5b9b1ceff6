# Tic Tac Toe game core in Dafny

This project models the game-state core of a two-player Tic Tac Toe game (`TicTacToeGame` in
`main.py`) and the rule by which a click on a board cell drives it (`on_button_click`).

- `tictactoe.dfy`, module `TicTacToe`: the 3x3 board of cells holding `Empty` (0), X (1, the
  first player, `PLAYER_PIECE`) or O (2, `AI_PIECE`), the player to move, and the operations
  `NewGame`/`Reset`, `MakeMove`, `SwitchPlayer` and the win check. The win check exists twice:
  as the source's loop (`CheckWinner`, a method that tests row `i` and then column `i` for
  `i = 0, 1, 2`, then the main and the anti-diagonal, then the tie) and as a pure function
  (`Evaluate`, a scan of the eight lines in the same order). Both are proved to meet one
  declarative statement, `IsOutcome`. It says: the piece of the first complete line in check
  order if any line is complete; otherwise `-1` (tie) when no cell is empty and `0` (no winner
  yet) when some cell is.
- `turns.dfy`, module `Turns`: one click (`Play`) is a move, then, if the move was accepted, an
  evaluation, and a hand-over of the turn only when the evaluation is `0`. `PlayAll` applies a
  sequence of clicks. The module proves an invariant of every game reached from a new game by
  clicks (`Sound`):
  - cells are 0, 1 or 2, and the player to move is 1 or 2;
  - every complete line holds the piece of the player to move;
  - while the game is in progress, X has as many pieces as O when it is X's turn, and one more
    when it is O's turn.
  Two consequences are proved. The order of the win check never changes the result in such a
  game. A won or tied game stays won or tied, with the same result and the same player to move.
- `scenarios.dfy`, module `Scenarios`: concrete boards and clicks (a top-row win, both as a
  board and as five clicks from a new game, a tied full board, two complete parallel rows, a
  repeated click on one cell).

Cells are integers. The source keeps them in a floating-point array, but only the values 0, 1
and 2 ever occur there. The win check is modelled on any integer board, as in the source, and
the 0/1/2 restriction is the separate predicate `Valid`, which every operation preserves.

Three behaviours of the code are worth stating plainly:
- The code does not check coordinates: the array library raises an error for 3 and wraps
  around for -1. The model makes `0 <= row, col < 3` a precondition.
- The win check tests row `i` and then column `i` in one loop. `TicTacToe.RowsFirstOrderAgrees`
  proves that checking all rows before all columns would report the same piece on every board,
  because every row crosses every column.
- There is no terminal-state guard. After a win the click handler keeps the other cells
  enabled and does not hand over the turn, so the winner may keep clicking: each new piece is
  accepted and the same win is reported again. `Turns.AfterAnOutcomeNothingChanges` states
  this behaviour as written.

## Model

| member | source | states |
|---|---|---|
| `TicTacToe.NewGame` | main.py:28-30 | A new game has every cell empty, X to move, satisfies the cell/turn invariant, and evaluates to "no winner yet" |
| `TicTacToe.Reset` | main.py:32-34 | Whatever the previous game, reset yields an all-empty board with X to move, satisfying the invariant and evaluating to "no winner yet" |
| `TicTacToe.MakeMove` | main.py:36-40 | A move is accepted exactly when the target cell is empty. If accepted, that cell gets the current player's piece. No other cell changes. A rejected move leaves the whole game unchanged. The player to move never changes. The invariant is preserved |
| `TicTacToe.SwitchPlayer` | main.py:62-63 | The board is unchanged and the result is always X or O. From a valid game the turn passes to the other player and the invariant is kept |
| `TicTacToe.SwitchTwiceRestores` | main.py:62-63 | When X or O is to move, switching twice restores the original game |
| `TicTacToe.Scan` | main.py:44-60 | Scanning the check order from a position before which no line is won yields the declarative outcome of the board |
| `TicTacToe.Evaluate` | main.py:42-60 | The evaluation is the piece of the first complete line in the order row 0, column 0, row 1, column 1, row 2, column 2, main diagonal, anti-diagonal. With no complete line it is -1 exactly when the board is full and 0 exactly when a cell is empty. On a 0/1/2 board the result is a piece exactly when some line is complete |
| `TicTacToe.CheckWinner` | main.py:42-60 | The source's loop (row i then column i, then the diagonals, then the tie test) meets the declarative outcome and equals `Evaluate` |
| `TicTacToe.OutcomeIsUnique` | main.py:42-60 | The declarative outcome admits exactly one result per board |
| `TicTacToe.CheckOrderCoversAllLines` | main.py:44-54 | The check visits every one of the eight lines |
| `TicTacToe.RowsFirstOrderAgrees` | main.py:44-54 | On every board, checking all rows before all columns reports the same piece as the interleaved order |
| `Turns.Play` | main.py:92-103 | A click on an occupied cell is ignored and changes nothing. A click on an empty cell places the current piece there and reports the evaluation of the new board. The turn passes exactly when that evaluation is "no winner yet". The invariant is kept |
| `Turns.PlayAll` | main.py:90-103 | A sequence of clicks keeps the cell/turn invariant |
| `Turns.NewGameIsSound` | main.py:28-30 | A new game satisfies the reachability invariant: valid, with no complete line and equal piece counts |
| `Turns.CountAfterFill` | main.py:37-38 | Filling an empty cell with a piece adds one to that piece's count and leaves the count of the other piece alone |
| `Turns.FilledLinesBelongToCurrent` | main.py:37-38 | After the current player fills an empty cell, every complete line still holds that player's piece |
| `Turns.PlayPreservesSound` | main.py:92-103 | One click keeps the reachability invariant. Complete lines belong to the player to move. While in progress, the piece counts match the turn |
| `Turns.PlayAllPreservesSound` | main.py:92-103 | Any sequence of clicks keeps the reachability invariant |
| `Turns.ReachableGamesAreSound` | main.py:92-103 | Every game reached from a new game by clicks satisfies the reachability invariant |
| `Turns.CheckOrderIsIrrelevant` | main.py:44-54 | When every complete line belongs to the player to move, the evaluation equals the piece of any complete line, whichever line the check reaches first |
| `Turns.WonLineSurvivesFill` | main.py:37-38 | Filling an empty cell leaves every complete line complete |
| `Turns.AfterAnOutcomeNothingChanges` | main.py:92-103 | In a reachable game that is won or tied, a further click leaves both the evaluation and the player to move unchanged |
| `Scenarios.TopRowWinForX` | main.py:44-46 | X on the whole top row, with O on two middle cells, evaluates to X |
| `Scenarios.ParallelLinesReportTheFirst` | main.py:44-46 | With O's top row and X's middle row both complete, the row checked first decides |
| `Scenarios.FullBoardWithoutLineIsTie` | main.py:56-58 | The full board X O X / X O O / O X X, which clicks can produce, has no complete line and evaluates to -1 |
| `Scenarios.QuietClick` | main.py:92-103 | A click on an empty cell of a valid game that leaves the board without a result places the mover's piece and hands the turn over |
| `Scenarios.OpeningInProgress` | main.py:56-60 | A board whose bottom row and right column's top two cells are empty evaluates to "no winner yet" |
| `Scenarios.OpeningClicks` | main.py:92-103 | From a new game, the clicks (0,0), (1,0), (0,1), (1,1) alternate the turn: X ends up on (0,0) and (0,1), O on (1,0) and (1,1), (0,2) is still empty, and X is to move |
| `Scenarios.TopRowWinByClicks` | main.py:92-103 | After those four clicks, the click X(0,2) reports X as the winner and X keeps the turn |
| `Scenarios.SecondClickOnSameCellIsIgnored` | main.py:36-40 | A second click on the same cell is ignored, and X's piece stays there |

## Left out

- The graphical interface is not modelled: building the window and buttons, labels, popups,
  disabling buttons, and running the application (main.py:67-88, 104-116, 125-126). It is event
  plumbing over a GUI library. The click rule of `on_button_click` is kept as `Turns.Play`.
- `get_button_position` (main.py:118-123) is not modelled. It looks a widget up by identity, and
  its `(-1, -1)` fallback relies on the array library's negative indexing. Coordinates are a
  precondition instead.
- The floating-point array and `np.all` are not modelled. They become an integer grid and a
  quantifier.
- The unused constants and imports are not modelled (`random`, `PLAYER`, `AI`, `WINDOW_LENGTH`,
  the colours). There is no computer opponent in the code.
- `Turns.PlayAll`: clicks are given as in-range coordinates. A click that the GUI maps to
  `(-1, -1)` is not modelled.
