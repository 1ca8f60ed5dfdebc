/** Games played through the engine: from the default empty board, the
    source's test_game, the two refusals, a move after a win, a winning
    ninth move and a draw with no line; and, from a supplied board, the
    turn order. */
module Scenarios {
  import opened Wrappers
  import opened Board
  import opened Game

  /** test_game: x takes the main diagonal on the fifth move and wins. */
  method DiagonalWin() returns (res: Result<GameState, MoveError>)
    ensures res == Ok(GameState(Complete, Some(X)))
  {
    var t := new TicTacToe();
    var r := t.PlayMove(0, 0, X);
    r := t.PlayMove(0, 1, O);
    r := t.PlayMove(1, 1, X);
    r := t.PlayMove(0, 2, O);
    res := t.PlayMove(2, 2, X);
    assert t.board[1][0] == None;
  }

  /** The first move with "o" when "x" is to play is refused. */
  method WrongTurn() returns (res: Result<GameState, MoveError>, moves: nat)
    ensures res == Err(IncorrectPlayer) && moves == 0
  {
    var t := new TicTacToe();
    res := t.PlayMove(0, 0, O);
    moves := |t.GetHistory()|;
  }

  /** A move onto the square just taken is refused; the history keeps the
      first move only. */
  method SquareOccupied() returns (res: Result<GameState, MoveError>, moves: nat)
    ensures res == Err(InvalidMove("Square occupied")) && moves == 1
  {
    var t := new TicTacToe();
    var r := t.PlayMove(0, 0, X);
    res := t.PlayMove(0, 0, O);
    moves := |t.GetHistory()|;
  }

  /** After x has won, o may still move, and because a line is still filled
      the evaluation records o, the mover, as the winner. */
  method MoveAfterWin() returns (res: Result<GameState, MoveError>)
    ensures res == Ok(GameState(Complete, Some(O)))
  {
    var t := new TicTacToe();
    var r := t.PlayMove(0, 0, X);
    r := t.PlayMove(0, 1, O);
    r := t.PlayMove(1, 1, X);
    r := t.PlayMove(0, 2, O);
    r := t.PlayMove(2, 2, X);
    res := t.PlayMove(1, 0, O);
    assert t.board[1][2] == None;
  }

  /** Plays a move known to be accepted, keeping only what it does to the
      board and the turn. */
  method Play(t: TicTacToe, x: nat, y: nat, m: Mark)
    requires t.Valid() && x < 3 && y < 3 && t.nextPlayer == m && t.board[x][y] == None
    modifies t
    ensures t.Valid() && t.board == WithMark(old(t.board), x, y, m) && t.nextPlayer == Other(m)
    ensures t.winner == (if HasLine(t.board) then Some(m) else old(t.winner))
  {
    var r := t.PlayMove(x, y, m);
  }

  /** x completes the main diagonal with the ninth move, which also fills
      the board: the status ends as a draw while x stays recorded as winner.
      Final board (rows): x o x / o x o / o x x. */
  method WinningNinthMove() returns (res: Result<GameState, MoveError>)
    ensures res == Ok(GameState(Draw, Some(X)))
  {
    var t := WinningNinthOpening();
    Play(t, 2, 1, X);
    Play(t, 2, 0, O);
    res := t.PlayMove(2, 2, X);
  }

  /** The first six moves of WinningNinthMove: x o x / o x o / _ _ _. */
  method WinningNinthOpening() returns (t: TicTacToe)
    ensures fresh(t) && t.Valid() && t.nextPlayer == X
    ensures t.board[0] == [Some(X), Some(O), Some(X)]
    ensures t.board[1] == [Some(O), Some(X), Some(O)]
    ensures t.board[2] == [None, None, None]
  {
    t := new TicTacToe();
    Play(t, 0, 0, X);
    Play(t, 0, 1, O);
    Play(t, 0, 2, X);
    Play(t, 1, 0, O);
    Play(t, 1, 1, X);
    Play(t, 1, 2, O);
  }

  /** The first six moves of FullBoardNoLine: x o x / x o o / _ _ _. */
  method NoLineOpening() returns (t: TicTacToe)
    ensures fresh(t) && t.Valid() && t.nextPlayer == X && t.winner == None
    ensures t.board[0] == [Some(X), Some(O), Some(X)]
    ensures t.board[1] == [Some(X), Some(O), Some(O)]
    ensures t.board[2] == [None, None, None]
  {
    t := new TicTacToe();
    Play(t, 0, 0, X);
    Play(t, 0, 1, O);
    Play(t, 0, 2, X);
    Play(t, 1, 1, O);
    Play(t, 1, 0, X);
    Play(t, 1, 2, O);
  }

  /** Nine moves that fill the board without completing a line end in a
      draw with no winner. Final board (rows): x o x / x o o / o x x. */
  method FullBoardNoLine() returns (res: Result<GameState, MoveError>)
    ensures res == Ok(GameState(Draw, None))
  {
    var t := NoLineOpening();
    Play(t, 2, 1, X);
    Play(t, 2, 0, O);
    res := t.PlayMove(2, 2, X);
  }

  /** A game started on a supplied board (x in the corner) with o to move
      keeps the turn order: after two moves the turn is not with the mark
      that played last. */
  method SuppliedBoardTurnOrder() returns (next: Mark, moves: seq<GameMove>)
    ensures |moves| == 2 && next != moves[1].mark
  {
    var t := new TicTacToe(Some([[Some(X), None, None], [None, None, None], [None, None, None]]), O);
    var r := t.PlayMove(1, 1, O);
    r := t.PlayMove(2, 2, X);
    moves := t.GetHistory();
    next := t.GetNextPlayer();
  }
}
