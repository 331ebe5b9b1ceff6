/**
 How a click on a board cell drives the game core: the move is tried; if it
 is accepted the board is evaluated; the turn passes to the other player only
 when the evaluation reports neither a winner nor a tie. The display of the
 result (labels, popups, disabled buttons) is not modelled.

 The module also proves what this sequencing guarantees about every game that
 starts from a new game: every complete line belongs to the player to move
 (so two different winners never coexist and the order of the win check does
 not matter), a finished game stays finished, and while a game is in progress
 X has placed exactly as many pieces as O, or one more when it is O's turn.
 */
module Turns {
  import opened TicTacToe

  /** What a click leads to: an occupied cell ignores it; otherwise the move
      is made and the board's evaluation is reported. */
  datatype Click = Ignored | Played(outcome: int)

  datatype Step = Step(game: Game, click: Click)

  /** One click on cell (row, col). */
  function Play(g: Game, row: int, col: int): (s: Step)
    requires 0 <= row < 3 && 0 <= col < 3
    ensures s.click.Played? <==> g.board[row][col] == Empty
    ensures s.click.Ignored? ==> s.game == g
    ensures s.click.Played? ==> s.game.board[row][col] == g.current
    ensures forall r: Index, c: Index :: (r, c) != (row, col) ==> s.game.board[r][c] == g.board[r][c]
    ensures s.click.Played? ==> s.click.outcome == Evaluate(s.game.board)
    ensures Valid(g) ==> Valid(s.game)
    ensures Valid(g) ==>
              (s.game.current == if s.click == Played(NoWinner) then SwitchPlayer(g).current else g.current)
  {
    var m := MakeMove(g, row, col);
    if !m.accepted then
      Step(g, Ignored)
    else
      var w := Evaluate(m.game.board);
      if w == PlayerPiece || w == AiPiece || w == Tie then
        Step(m.game, Played(w))
      else
        Step(SwitchPlayer(m.game), Played(w))
  }

  /** A sequence of clicks, applied left to right. */
  function PlayAll(g: Game, clicks: seq<(Index, Index)>): (r: Game)
    ensures Valid(g) ==> Valid(r)
    decreases |clicks|
  {
    if clicks == [] then g
    else PlayAll(Play(g, clicks[0].0, clicks[0].1).game, clicks[1..])
  }

  // ---------------------------------------------------------------------------
  // The invariant of games reached by clicks
  // ---------------------------------------------------------------------------

  /** Every complete line holds the piece of the player to move. */
  ghost predicate LinesBelongToCurrent(g: Game) {
    forall l :: Won(g.board, l) ==> Piece(g.board, l) == g.current
  }

  function CountRow(row: seq<int>, v: int): nat
    requires |row| == 3
  {
    (if row[0] == v then 1 else 0) + (if row[1] == v then 1 else 0) + (if row[2] == v then 1 else 0)
  }

  /** The number of cells holding v. */
  function Count(b: Board, v: int): nat {
    CountRow(b[0], v) + CountRow(b[1], v) + CountRow(b[2], v)
  }

  /** X has as many pieces as O when it is X's turn, and one more when it is O's. */
  predicate Balanced(g: Game) {
    Count(g.board, PlayerPiece) - Count(g.board, AiPiece) == if g.current == PlayerPiece then 0 else 1
  }

  /** What holds of every game reached from a new game by clicks. */
  ghost predicate Sound(g: Game) {
    Valid(g) && LinesBelongToCurrent(g) && (Evaluate(g.board) == NoWinner ==> Balanced(g))
  }

  /** A new game is sound: it has no complete line and no pieces at all. */
  lemma NewGameIsSound()
    ensures Sound(NewGame())
  {
  }

  /** Filling an Empty cell with p adds one to the count of p and leaves the
      count of every other non-Empty value alone. */
  lemma CountAfterFill(b: Board, row: Index, col: Index, p: int, v: int)
    requires b[row][col] == Empty && p != Empty && v != Empty
    ensures Count(b[row := b[row][col := p]], v) == Count(b, v) + (if v == p then 1 else 0)
  {
  }

  /** A line complete after the current player fills an Empty cell belongs to
      that player: either it runs through the new piece, or it was complete before. */
  lemma FilledLinesBelongToCurrent(g: Game, row: Index, col: Index)
    requires Valid(g) && LinesBelongToCurrent(g) && g.board[row][col] == Empty
    ensures LinesBelongToCurrent(MakeMove(g, row, col).game)
  {
    var g' := MakeMove(g, row, col).game;
    forall l | Won(g'.board, l) ensures Piece(g'.board, l) == g.current {
      if Cell(l, 0) == (row, col) || Cell(l, 1) == (row, col) || Cell(l, 2) == (row, col) {
      } else {
        assert Won(g.board, l);
      }
    }
  }

  /** A click keeps a sound game sound. */
  lemma PlayPreservesSound(g: Game, row: Index, col: Index)
    requires Sound(g)
    ensures Sound(Play(g, row, col).game)
  {
    var s := Play(g, row, col);
    if s.click.Played? {
      FilledLinesBelongToCurrent(g, row, col);
      if Evaluate(g.board) != NoWinner {
        AfterAnOutcomeNothingChanges(g, row, col);
      } else if s.click.outcome == NoWinner {
        CountAfterFill(g.board, row, col, g.current, PlayerPiece);
        CountAfterFill(g.board, row, col, g.current, AiPiece);
      }
    }
  }

  /** Every game reached from a sound game by clicks is sound. */
  lemma {:induction false} PlayAllPreservesSound(g: Game, clicks: seq<(Index, Index)>)
    requires Sound(g)
    ensures Sound(PlayAll(g, clicks))
    decreases |clicks|
  {
    if clicks != [] {
      PlayPreservesSound(g, clicks[0].0, clicks[0].1);
      PlayAllPreservesSound(Play(g, clicks[0].0, clicks[0].1).game, clicks[1..]);
    }
  }

  /** Every game reached from a new game by clicks is sound. */
  lemma ReachableGamesAreSound(clicks: seq<(Index, Index)>)
    ensures Sound(PlayAll(NewGame(), clicks))
  {
    NewGameIsSound();
    PlayAllPreservesSound(NewGame(), clicks);
  }

  /** In a sound game, no two complete lines carry different pieces, so the
      evaluation reports the piece of whichever complete line one looks at:
      the order of the win check makes no difference. */
  lemma CheckOrderIsIrrelevant(g: Game, l: Line)
    requires LinesBelongToCurrent(g) && Won(g.board, l)
    ensures Evaluate(g.board) == Piece(g.board, l) == g.current
  {
  }

  /** Filling an Empty cell does not touch a complete line. */
  lemma WonLineSurvivesFill(g: Game, row: Index, col: Index, l: Line)
    requires g.board[row][col] == Empty && Won(g.board, l)
    ensures Won(MakeMove(g, row, col).game.board, l)
  {
  }

  /** Once a sound game has a winner or is tied, a further click changes
      neither the evaluation nor the player to move: the winner keeps the turn
      and every further accepted click reports the same winner again. */
  lemma AfterAnOutcomeNothingChanges(g: Game, row: Index, col: Index)
    requires Valid(g) && LinesBelongToCurrent(g) && Evaluate(g.board) != NoWinner
    ensures Evaluate(Play(g, row, col).game.board) == Evaluate(g.board)
    ensures Play(g, row, col).game.current == g.current
  {
    var s := Play(g, row, col);
    if s.click.Played? {
      assert !Full(g.board) by { assert g.board[row][col] == Empty; }
      var w :| Won(g.board, w);
      var m := MakeMove(g, row, col).game;
      WonLineSurvivesFill(g, row, col, w);
      FilledLinesBelongToCurrent(g, row, col);
      CheckOrderIsIrrelevant(g, w);
      CheckOrderIsIrrelevant(m, w);
    }
  }
}
