/** The game engine of tic_tac_toe/ttt.py: the TicTacToe object, whose
    play_move validates a move, writes it, records it, passes the turn and
    evaluates the board, raising an exception (here an Err result) before
    any change when the move is refused. */
module Game {
  import opened Wrappers
  import opened Board

  datatype GameStatus = PlayOn | Draw | Complete

  /** What play_move and get_game_state return. */
  datatype GameState = GameState(status: GameStatus, winner: Option<Mark>)

  /** One entry of the move history. */
  datatype GameMove = GameMove(x: nat, y: nat, mark: Mark)

  /** IncorrectPlayerException and InvalidMoveException(reason). */
  datatype MoveError = IncorrectPlayer | InvalidMove(reason: string)

  /** Each recorded move is made by the other mark than the one before it. */
  predicate Alternating(h: seq<GameMove>)
  {
    forall i | 0 < i < |h| :: h[i].mark == Other(h[i - 1].mark)
  }

  class TicTacToe {
    var board: Grid
    var history: seq<GameMove>
    var nextPlayer: Mark
    var gameStatus: GameStatus
    var winner: Option<Mark>

    /** The object invariant: a 3x3 board; a completed game has a winner; a
        winner is only recorded once the game is over; a draw is only
        declared on a full board. */
    ghost predicate Valid()
      reads this
    {
      IsBoard(board) &&
      (gameStatus == Complete ==> winner.Some?) &&
      (winner.Some? ==> gameStatus != PlayOn) &&
      (gameStatus == Draw ==> IsFull(board))
    }

    /** The turn order, which holds in every game: recorded marks
        alternate, and the turn is with the other mark than the last one
        played. */
    ghost predicate TurnOrder()
      reads this
    {
      Alternating(history) &&
      (history != [] ==> nextPlayer == Other(history[|history| - 1].mark))
    }

    /** What holds of every game started on an empty board: the turn order,
        one history entry per occupied square, and each entry's square still
        holding its mark. */
    ghost predicate Consistent()
      reads this
    {
      Valid() &&
      TurnOrder() &&
      |history| == OccupiedCount(board) &&
      forall i | 0 <= i < |history| ::
        history[i].x < 3 && history[i].y < 3 &&
        board[history[i].x][history[i].y] == Some(history[i].mark)
    }

    /** A game on `boardState`, or on an empty board when none (or an empty
        list) is given, with `firstPlayer` to move; by default an empty
        board with x to move. */
    constructor (boardState: Option<Grid> := None, firstPlayer: Mark := X)
      requires boardState.Some? && boardState.value != [] ==> IsBoard(boardState.value)
      ensures Valid()
      ensures board == (if boardState.None? || boardState.value == [] then EmptyBoard() else boardState.value)
      ensures history == [] && nextPlayer == firstPlayer
      ensures gameStatus == PlayOn && winner == None
      ensures TurnOrder()
      ensures boardState.None? || boardState.value == [] ==> Consistent()
    {
      if boardState.None? || boardState.value == [] {
        board := EmptyBoard();
        OccupiedPrefixEmpty(9);
      } else {
        board := boardState.value;
      }
      history := [];
      nextPlayer := firstPlayer;
      gameStatus := PlayOn;
      winner := None;
    }

    /** The mark whose turn it is: never the mark that played last. */
    function GetNextPlayer(): (p: Mark)
      reads this
      ensures TurnOrder() && history != [] ==> p != history[|history| - 1].mark
    {
      nextPlayer
    }

    /** The status and winner; in a valid game a completed game has a winner
        and a winner implies the game is over. */
    function GetGameState(): (s: GameState)
      reads this
      ensures Valid() ==> (s.status == Complete ==> s.winner.Some?)
      ensures Valid() ==> (s.winner.Some? ==> s.status != PlayOn)
    {
      GameState(gameStatus, winner)
    }

    /** The recorded moves; in a consistent game, one per occupied square. */
    function GetHistory(): (h: seq<GameMove>)
      reads this
      ensures Consistent() ==> |h| == OccupiedCount(board)
    {
      history
    }

    /** Whether square (x, y) is empty: exactly when list_empty reports it. */
    function SquareIsEmpty(x: nat, y: nat): (r: bool)
      reads this
      requires Valid() && x < 3 && y < 3
      ensures r <==> (x, y) in EmptyCells(board)
    {
      EmptyCellsIff(board);
      board[x][y] == None
    }

    /** Counts the occupied squares; the board is full when there are nine. */
    method IsBoardFull() returns (full: bool)
      requires Valid()
      ensures full <==> OccupiedCount(board) == 9
      ensures full <==> IsFull(board)
    {
      var count := 0;
      for x := 0 to 3
        invariant count == OccupiedPrefix(board, 3 * x)
      {
        for y := 0 to 3
          invariant count == OccupiedPrefix(board, 3 * x + y)
        {
          PrefixStep(board, x, y);
          if board[x][y].Some? {
            count := count + 1;
          }
        }
      }
      full := count == 3 * 3;
      FullIff(board);
    }

    /** The empty squares, each once, in row-major order. */
    method ListEmpty() returns (empty: seq<Coord>)
      requires Valid()
      ensures empty == EmptyCells(board)
      ensures forall p: Coord :: p in empty <==> p.0 < 3 && p.1 < 3 && board[p.0][p.1] == None
      ensures forall i, j | 0 <= i < j < |empty| :: Index(empty[i]) < Index(empty[j])
    {
      empty := [];
      for x := 0 to 3
        invariant empty == EmptyPrefix(board, 3 * x)
      {
        for y := 0 to 3
          invariant empty == EmptyPrefix(board, 3 * x + y)
        {
          PrefixStep(board, x, y);
          if board[x][y] == None {
            empty := empty + [(x, y)];
          }
        }
      }
      EmptyCellsIff(board);
    }

    /** Records `mark` as the winner when some line is filled, then declares
        a draw when the board is full, even over a win just recorded. */
    method EvalGame(mark: Mark) returns (s: GameState)
      requires Valid()
      modifies this`winner, this`gameStatus
      ensures Valid()
      ensures winner == (if HasLine(board) then Some(mark) else old(winner))
      ensures gameStatus == (if IsFull(board) then Draw
                             else if HasLine(board) then Complete
                             else old(gameStatus))
      ensures s == GameState(gameStatus, winner)
    {
      WinCheckIff(board);
      if IsRowFilled(board) || IsRowFilled(Transpose(board)) || IsDiagFilled(board) {
        winner := Some(mark);
        gameStatus := Complete;
      }
      var full := IsBoardFull();
      if full {
        gameStatus := Draw;
      }
      s := GetGameState();
    }

    /** Plays `mark` at square (x, y). The turn is checked first, then that
        the square is empty; a refused move changes nothing. An accepted
        move writes the square, appends to the history, passes the turn and
        evaluates the board. The game's status is not checked: moves are
        accepted after a win; after a draw the board is full, so every move
        is refused, as occupied when it is the mover's turn. */
    method PlayMove(x: nat, y: nat, mark: Mark) returns (r: Result<GameState, MoveError>)
      requires Valid() && x < 3 && y < 3
      modifies this
      ensures Valid()
      ensures mark != old(nextPlayer) ==>
                r == Err(IncorrectPlayer) && unchanged(this)
      ensures mark == old(nextPlayer) && old(board)[x][y].Some? ==>
                r == Err(InvalidMove("Square occupied")) && unchanged(this)
      ensures mark == old(nextPlayer) && old(board)[x][y] == None ==>
                && board == WithMark(old(board), x, y, mark)
                && history == old(history) + [GameMove(x, y, mark)]
                && nextPlayer == Other(mark)
                && winner == (if HasLine(board) then Some(mark) else old(winner))
                && gameStatus == (if IsFull(board) then Draw
                                  else if HasLine(board) then Complete
                                  else old(gameStatus))
                && r == Ok(GameState(gameStatus, winner))
      ensures old(gameStatus) == Draw ==> r.Err? && unchanged(this)
      ensures old(TurnOrder()) ==> TurnOrder()
      ensures old(Consistent()) ==> Consistent()
    {
      if mark != nextPlayer {
        return Err(IncorrectPlayer);
      }
      if !SquareIsEmpty(x, y) {
        return Err(InvalidMove("Square occupied"));
      }
      ghost var before := board;
      board := WithMark(board, x, y, mark);
      history := history + [GameMove(x, y, mark)];
      if mark == X {
        nextPlayer := O;
      } else {
        nextPlayer := X;
      }
      var state := EvalGame(mark);
      r := Ok(state);
      if old(Consistent()) {
        OccupiedAfterMark(before, x, y, mark);
        forall i | 0 <= i < |history| - 1
          ensures board[history[i].x][history[i].y] == Some(history[i].mark)
        {
          assert before[history[i].x][history[i].y].Some?;
        }
      }
    }
  }
}
