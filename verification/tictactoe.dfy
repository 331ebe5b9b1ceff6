/**
 The game-state core of a two-player Tic Tac Toe game: a 3x3 board of cells
 holding Empty (0), X (1) or O (2), the player whose piece the next move
 places, and the four operations on them: start a new game (reset), place
 a piece, evaluate the board (winner, tie or no result yet) and hand the
 turn to the other player.

 Every operation is a pure function from the old game to the new one.
 */
module TicTacToe {

  const Empty: int := 0
  const PlayerPiece: int := 1   // X, who moves first
  const AiPiece: int := 2       // O

  /** Results of the board evaluation that are not a winning piece. */
  const Tie: int := -1
  const NoWinner: int := 0

  /** A row or column coordinate of the board. The board has three rows and
      three columns; that size is written as the literal 3 throughout. */
  type Index = i: int | 0 <= i < 3

  /** A 3x3 grid of cells, row-major: b[row][col]. */
  type Board = b: seq<seq<int>> | |b| == 3 && forall r :: 0 <= r < |b| ==> |b[r]| == 3
    witness [[0, 0, 0], [0, 0, 0], [0, 0, 0]]

  const EmptyBoard: Board := [[0, 0, 0], [0, 0, 0], [0, 0, 0]]

  /** Every cell holds Empty, X or O. */
  predicate ValidCells(b: Board) {
    forall r: Index, c: Index :: b[r][c] == Empty || b[r][c] == PlayerPiece || b[r][c] == AiPiece
  }

  /** No cell is Empty. */
  predicate Full(b: Board) {
    forall r: Index, c: Index :: b[r][c] != Empty
  }

  // ---------------------------------------------------------------------------
  // Lines and the declarative outcome of a board
  // ---------------------------------------------------------------------------

  /** The eight lines of three cells a player can complete. */
  datatype Line = Row(i: Index) | Column(i: Index) | MainDiagonal | AntiDiagonal

  /** The j-th cell of a line, as (row, col). Cell 0 is the one whose value
      the win check reports. */
  function Cell(l: Line, j: Index): (Index, Index) {
    match l
    case Row(i) => (i, j)
    case Column(i) => (j, i)
    case MainDiagonal => (j, j)
    case AntiDiagonal => (j, 2 - j)
  }

  function At(b: Board, l: Line, j: Index): int {
    var (r, c) := Cell(l, j);
    b[r][c]
  }

  /** The piece found on a line (meaningful when the line is won). */
  function Piece(b: Board, l: Line): int {
    At(b, l, 0)
  }

  /** All three cells of the line hold the same non-Empty value. */
  predicate Won(b: Board, l: Line) {
    At(b, l, 0) == At(b, l, 1) == At(b, l, 2) && At(b, l, 2) != Empty
  }

  /** The order in which the win check visits the lines: row i and then
      column i for i = 0, 1, 2, then the two diagonals. */
  const CheckOrder: seq<Line> :=
    [Row(0), Column(0), Row(1), Column(1), Row(2), Column(2), MainDiagonal, AntiDiagonal]

  /** Line k of the given order is won and no line before it is. */
  predicate FirstWonIn(b: Board, order: seq<Line>, k: int) {
    0 <= k < |order| && Won(b, order[k]) &&
    forall j :: 0 <= j < k ==> !Won(b, order[j])
  }

  /** Line k of the check order is the first won line. */
  predicate FirstWonAt(b: Board, k: int) {
    FirstWonIn(b, CheckOrder, k)
  }

  /** What evaluating the board must report: the piece of the first won line
      in check order if any line is won; otherwise Tie when the board is full
      and NoWinner when it is not. */
  ghost predicate IsOutcome(b: Board, r: int) {
    if exists l :: Won(b, l) then
      exists k :: FirstWonAt(b, k) && r == Piece(b, CheckOrder[k])
    else
      (r == Tie <==> Full(b)) && (r == NoWinner <==> !Full(b))
  }

  /** The check order visits every line. */
  lemma CheckOrderCoversAllLines(l: Line)
    ensures l in CheckOrder
  {
  }

  /** A board has exactly one outcome. */
  lemma OutcomeIsUnique(b: Board, r1: int, r2: int)
    requires IsOutcome(b, r1) && IsOutcome(b, r2)
    ensures r1 == r2
  {
  }

  /** Scans the check order from position k, given that no earlier line is won. */
  function Scan(b: Board, k: nat): (r: int)
    requires k <= |CheckOrder|
    requires forall j :: 0 <= j < k ==> !Won(b, CheckOrder[j])
    ensures IsOutcome(b, r)
    decreases |CheckOrder| - k
  {
    if k == |CheckOrder| then
      assert forall l :: !Won(b, l) by {
        forall l ensures !Won(b, l) {
          CheckOrderCoversAllLines(l);
        }
      }
      if Full(b) then Tie else NoWinner
    else if Won(b, CheckOrder[k]) then
      assert FirstWonAt(b, k);
      Piece(b, CheckOrder[k])
    else
      Scan(b, k + 1)
  }

  /** The outcome of a board: a winning piece, Tie or NoWinner. On a board of
      Empty/X/O cells the result is a piece exactly when some line is won. */
  function Evaluate(b: Board): (r: int)
    ensures IsOutcome(b, r)
    ensures ValidCells(b) ==> ((r == PlayerPiece || r == AiPiece) <==> exists l :: Won(b, l))
  {
    Scan(b, 0)
  }

  /** The win check as the game runs it: one loop testing row i and then
      column i, then the main and the anti-diagonal, then the tie test. It
      agrees with the declarative outcome. */
  method CheckWinner(b: Board) returns (r: int)
    ensures IsOutcome(b, r)
    ensures r == Evaluate(b)
  {
    for i := 0 to 3
      invariant forall j :: 0 <= j < 2 * i ==> !Won(b, CheckOrder[j])
    {
      if b[i][0] == b[i][1] == b[i][2] && b[i][2] != Empty {
        assert CheckOrder[2 * i] == Row(i) && FirstWonAt(b, 2 * i);
        r := b[i][0];
        OutcomeIsUnique(b, r, Evaluate(b));
        return;
      }
      assert CheckOrder[2 * i] == Row(i) && !Won(b, Row(i));
      if b[0][i] == b[1][i] == b[2][i] && b[2][i] != Empty {
        assert CheckOrder[2 * i + 1] == Column(i) && FirstWonAt(b, 2 * i + 1);
        r := b[0][i];
        OutcomeIsUnique(b, r, Evaluate(b));
        return;
      }
      assert CheckOrder[2 * i + 1] == Column(i) && !Won(b, Column(i));
    }
    if b[0][0] == b[1][1] == b[2][2] && b[2][2] != Empty {
      assert FirstWonAt(b, 6);
      r := b[0][0];
    } else if b[0][2] == b[1][1] == b[2][0] && b[2][0] != Empty {
      assert FirstWonAt(b, 7);
      r := b[0][2];
    } else {
      assert forall k :: 0 <= k < |CheckOrder| ==> !Won(b, CheckOrder[k]);
      forall l ensures !Won(b, l) {
        CheckOrderCoversAllLines(l);
      }
      if forall row, col :: 0 <= row < 3 && 0 <= col < 3 ==> b[row][col] != Empty {
        r := Tie;
      } else {
        r := NoWinner;
      }
    }
    OutcomeIsUnique(b, r, Evaluate(b));
  }

  /** All rows first, then all columns, then the diagonals. */
  const RowsFirstOrder: seq<Line> :=
    [Row(0), Row(1), Row(2), Column(0), Column(1), Column(2), MainDiagonal, AntiDiagonal]

  /** Checking all rows before all columns reports the same piece as the
      interleaved check order, on every board: a row and a column always share
      a cell, so when both are won they hold the same piece, and rows among
      themselves (columns among themselves) keep their relative order. */
  lemma RowsFirstOrderAgrees(b: Board)
    ensures (exists l :: Won(b, l)) ==>
              exists k :: FirstWonIn(b, RowsFirstOrder, k) && Evaluate(b) == Piece(b, RowsFirstOrder[k])
  {
    if exists l :: Won(b, l) {
      assert IsOutcome(b, Evaluate(b));
      var k1 :| FirstWonAt(b, k1) && Evaluate(b) == Piece(b, CheckOrder[k1]);
      if Won(b, Row(0)) || Won(b, Row(1)) || Won(b, Row(2)) {
        var i: Index := if Won(b, Row(0)) then 0 else if Won(b, Row(1)) then 1 else 2;
        FirstWonRowDecides(b, k1, i);
      } else {
        var k2 := if k1 < 6 then 3 + k1 / 2 else k1;
        NoRowWonSameLine(b, k1, k2);
      }
    }
  }

  /** When row i is the first won row, the first won line of the check order
      is row i or a column before it, which crosses row i. */
  lemma FirstWonRowDecides(b: Board, k1: int, i: Index)
    requires FirstWonAt(b, k1)
    requires Won(b, Row(i)) && forall r: Index :: r < i ==> !Won(b, Row(r))
    ensures FirstWonIn(b, RowsFirstOrder, i)
    ensures Piece(b, CheckOrder[k1]) == Piece(b, Row(i))
  {
    assert RowsFirstOrder[i] == Row(i);
    assert k1 <= 2 * i by {
      assert CheckOrder[2 * i] == Row(i);
    }
    if k1 < 2 * i {
      var j: Index := k1 / 2;
      assert CheckOrder[k1] == Column(j);
      assert At(b, Column(j), i) == At(b, Row(i), j);
    } else {
      assert CheckOrder[k1] == Row(i);
    }
  }

  /** When no row is won, both orders stop at the same column or diagonal. */
  lemma NoRowWonSameLine(b: Board, k1: int, k2: int)
    requires FirstWonAt(b, k1)
    requires !Won(b, Row(0)) && !Won(b, Row(1)) && !Won(b, Row(2))
    requires k2 == if k1 < 6 then 3 + k1 / 2 else k1
    ensures FirstWonIn(b, RowsFirstOrder, k2) && RowsFirstOrder[k2] == CheckOrder[k1]
  {
    assert k1 % 2 == 1 || k1 >= 6;
    forall j | 0 <= j < k2 ensures !Won(b, RowsFirstOrder[j]) {
      if 3 <= j < 6 {
        assert RowsFirstOrder[j] == CheckOrder[2 * (j - 3) + 1];
      } else if j >= 6 {
        assert RowsFirstOrder[j] == CheckOrder[j];
      }
    }
  }

  // ---------------------------------------------------------------------------
  // The game state and its operations
  // ---------------------------------------------------------------------------

  /** The board and the piece the next accepted move places. */
  datatype Game = Game(board: Board, current: int)

  /** The state every operation keeps: cells are Empty, X or O and the turn
      belongs to X or O. */
  predicate Valid(g: Game) {
    ValidCells(g.board) && (g.current == PlayerPiece || g.current == AiPiece)
  }

  /** The state of a freshly started game. */
  function NewGame(): (g: Game)
    ensures Valid(g)
    ensures forall r: Index, c: Index :: g.board[r][c] == Empty
    ensures g.current == PlayerPiece
    ensures Evaluate(g.board) == NoWinner
  {
    var g := Game(EmptyBoard, PlayerPiece);
    assert !Full(g.board) by { assert g.board[0][0] == Empty; }
    g
  }

  /** Discards the whole previous state and starts over. */
  function Reset(g: Game): (r: Game)
    ensures Valid(r)
    ensures forall row: Index, col: Index :: r.board[row][col] == Empty
    ensures r.current == PlayerPiece
    ensures Evaluate(r.board) == NoWinner
  {
    NewGame()
  }

  /** The game after a move and whether the move was accepted. */
  datatype MoveResult = MoveResult(game: Game, accepted: bool)

  /** Places the current player's piece at (row, col) if that cell is Empty.
      The turn is never handed over here. */
  function MakeMove(g: Game, row: int, col: int): (m: MoveResult)
    requires 0 <= row < 3 && 0 <= col < 3
    ensures m.accepted <==> g.board[row][col] == Empty
    ensures m.game.current == g.current
    ensures m.accepted ==> m.game.board[row][col] == g.current
    ensures forall r: Index, c: Index :: (r, c) != (row, col) ==> m.game.board[r][c] == g.board[r][c]
    ensures !m.accepted ==> m.game == g
    ensures Valid(g) ==> Valid(m.game)
  {
    if g.board[row][col] == Empty then
      MoveResult(g.(board := g.board[row := g.board[row][col := g.current]]), true)
    else
      MoveResult(g, false)
  }

  /** Hands the turn over: X becomes O and anything else becomes X. */
  function SwitchPlayer(g: Game): (r: Game)
    ensures r.board == g.board
    ensures r.current == PlayerPiece || r.current == AiPiece
    ensures Valid(g) ==> Valid(r) && r.current != g.current
  {
    g.(current := if g.current == PlayerPiece then AiPiece else PlayerPiece)
  }

  /** Switching twice gives the turn back to the player who had it. */
  lemma SwitchTwiceRestores(g: Game)
    requires g.current == PlayerPiece || g.current == AiPiece
    ensures SwitchPlayer(SwitchPlayer(g)) == g
  {
  }
}
