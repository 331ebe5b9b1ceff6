/**
 Concrete boards and clicks: a win for X on the top row (as a board and as five
 clicks from a new game), two complete parallel rows, a tied full board, and a
 second click on an occupied cell.
 */
module Scenarios {
  import opened TicTacToe
  import opened Turns

  /** X has the top row and O two cells of the middle row: X has won. */
  lemma TopRowWinForX()
    ensures Evaluate([[1, 1, 1], [2, 2, 0], [0, 0, 0]]) == PlayerPiece
  {
  }

  /** On a board where O has the top row and X the middle row (a board clicks
      cannot produce), the row checked first decides. */
  lemma ParallelLinesReportTheFirst()
    ensures Evaluate([[2, 2, 2], [1, 1, 1], [0, 0, 0]]) == AiPiece
  {
  }

  /** The full board X O X / X O O / O X X, which clicks can produce (five X,
      four O), has no complete line: it is a tie. */
  lemma FullBoardWithoutLineIsTie()
    ensures Evaluate([[1, 2, 1], [1, 2, 2], [2, 1, 1]]) == Tie
  {
  }

  /** A second click on the centre is ignored and leaves X's piece there. */
  lemma SecondClickOnSameCellIsIgnored()
    ensures var g := Play(NewGame(), 1, 1).game;
            Play(g, 1, 1) == Step(g, Ignored) && g.board[1][1] == PlayerPiece
  {
  }

  /** A click on an Empty cell that leaves the game in progress: the mover's
      piece is placed and the turn passes. */
  lemma QuietClick(g: Game, row: Index, col: Index)
    requires Valid(g) && g.board[row][col] == Empty
    requires Evaluate(MakeMove(g, row, col).game.board) == NoWinner
    ensures Play(g, row, col) == Step(SwitchPlayer(MakeMove(g, row, col).game), Played(NoWinner))
  {
  }

  /** Before the fifth click no line is complete and the bottom row is empty. */
  lemma OpeningInProgress(b: Board)
    requires b[0][2] == Empty && b[1][2] == Empty
    requires b[2][0] == Empty && b[2][1] == Empty && b[2][2] == Empty
    ensures Evaluate(b) == NoWinner
  {
  }

  /** From a new game, X plays (0,0) and (0,1) while O plays (1,0) and (1,1):
      the turn alternates after each click and comes back to X, who now has
      the first two cells of the top row, the third still Empty. */
  lemma OpeningClicks(g0: Game)
    requires g0.board == EmptyBoard && g0.current == PlayerPiece
    ensures var g4 := PlayAll(g0, [(0, 0), (1, 0), (0, 1), (1, 1)]);
            Valid(g4) && g4.current == PlayerPiece &&
            g4.board[0][0] == g4.board[0][1] == PlayerPiece && g4.board[0][2] == Empty &&
            g4.board[1][0] == g4.board[1][1] == AiPiece
  {
    assert forall r: Index, c: Index :: g0.board[r][c] == Empty;
    OpeningInProgress(MakeMove(g0, 0, 0).game.board);
    QuietClick(g0, 0, 0);
    var g1 := Play(g0, 0, 0).game;
    OpeningInProgress(MakeMove(g1, 1, 0).game.board);
    QuietClick(g1, 1, 0);
    var g2 := Play(g1, 1, 0).game;
    OpeningInProgress(MakeMove(g2, 0, 1).game.board);
    QuietClick(g2, 0, 1);
    var g3 := Play(g2, 0, 1).game;
    OpeningInProgress(MakeMove(g3, 1, 1).game.board);
    QuietClick(g3, 1, 1);
    var g4 := Play(g3, 1, 1).game;
    var clicks: seq<(Index, Index)> := [(0, 0), (1, 0), (0, 1), (1, 1)];
    assert PlayAll(g0, clicks) == g4 by {
      assert clicks[1..] == [(1, 0), (0, 1), (1, 1)];
      assert clicks[1..][1..] == [(0, 1), (1, 1)];
      assert clicks[1..][1..][1..] == [(1, 1)];
      assert clicks[1..][1..][1..][1..] == [];
    }
  }

  /** After the four opening clicks, X's click on (0,2) completes the top row:
      X is reported as the winner and keeps the turn. */
  lemma TopRowWinByClicks(g0: Game)
    requires g0.board == EmptyBoard && g0.current == PlayerPiece
    ensures var g4 := PlayAll(g0, [(0, 0), (1, 0), (0, 1), (1, 1)]);
            Play(g4, 0, 2).click == Played(PlayerPiece) && Play(g4, 0, 2).game.current == PlayerPiece
  {
    OpeningClicks(g0);
    var g4 := PlayAll(g0, [(0, 0), (1, 0), (0, 1), (1, 1)]);
    var b5 := MakeMove(g4, 0, 2).game.board;
    assert FirstWonAt(b5, 0);
    OutcomeIsUnique(b5, Evaluate(b5), PlayerPiece);
  }
}
