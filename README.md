# Tic-tac-toe rule engine, modelled in Dafny

This project models the `TicTacToe` rule engine of `tic_tac_toe/ttt.py`.
The engine is an object that holds five things:

- a 3x3 board of empty squares and `"x"`/`"o"` marks;
- an append-only move history;
- the mark whose turn it is;
- the game status (`playon`, `draw`, `complete`);
- the winner.

`play_move` does these steps in order:

1. It checks the turn.
2. It checks that the square is empty.
3. It writes the mark.
4. It records the move.
5. It passes the turn.
6. It calls `eval_game`.

`eval_game` scans the rows, the columns (as rows of the transposed board) and
both diagonals. It then declares a draw when all nine squares are occupied.

Files:

- `wrappers.dfy`: `Option` (Python's `None`) and `Result` (a value, or the
  exception raised instead).
- `board.dfy` (module `Board`): marks, squares and the grid.
  - The scans are written as the source writes them, with a set of the marks
    in a line (`IsRowFilled`, `IsDiagFilled`, `Transpose`).
  - `HasLine` is an independent reference definition of "one of the eight
    lines holds three equal marks". Lemmas prove that the scans find exactly
    such boards.
  - Row-major counting functions specify `is_board_full` and `list_empty`.
- `game.dfy` (module `Game`): the class `TicTacToe` and its value types.
  - `GameStatus`, `GameState`, `GameMove` and `MoveError` model the status
    enum, the two named tuples and the two exception classes.
  - The constructor has the source's defaults: no board (an empty board)
    and x to move.
  - Its fields are the ones the source mutates. The board is a
    `seq<seq<Cell>>` that `PlayMove` reassigns.
  - `Valid()` is the object invariant:
    - the board is 3x3;
    - `complete` implies a winner;
    - a winner implies the game is over;
    - `draw` implies a full board.
  - `TurnOrder()` holds in every game, on any starting board:
    - marks alternate;
    - the turn belongs to the mark that did not play last.
  - `Consistent()` holds in every game started on an empty board:
    - the turn order;
    - one history entry per occupied square;
    - each entry's square still holds its mark.
- `scenarios.dfy` (module `Scenarios`): games played through the engine.
  - From the default empty board: the source's `test_game`, the two
    refusals, a plain draw with no line, and the behaviours listed below.
  - From a supplied board with o to move: the turn order.

The model follows the code as written, including three behaviours a reader
may not expect:

- **No terminal guard.** `play_move` never checks the status, so moves are
  accepted after a win (`Scenarios.MoveAfterWin`). After a draw the board is
  full, so every move is refused, as occupied when it is the mover's turn
  (`Game.TicTacToe.PlayMove`).
- **A draw overwrites a win.** The fullness check runs after the win check
  without an `else`. A ninth move that completes a line leaves status `draw`
  with the winner still set (`Scenarios.WinningNinthMove`).
- **The mover is credited with any filled line.** `eval_game` checks whether
  *any* line is filled, not whether the mover filled one, and records the
  mover as the winner. So after `x` wins, any accepted move by `o` makes `o`
  the recorded winner (`Scenarios.MoveAfterWin`).

## Model

| member | source | states |
|---|---|---|
| `Board.Other` | tic_tac_toe/ttt.py:90-93 | the mark that moves next is never the mark that just moved |
| `Board.EmptyBoard` | tic_tac_toe/ttt.py:38-41 | the default board is 3x3 with every square empty |
| `Board.WithMark` | tic_tac_toe/ttt.py:88 | writing a move puts the mark in square (x, y) and leaves every other square as it was |
| `Board.Transpose` | tic_tac_toe/ttt.py:96-98 | the transpose has one row per column of the board, and t[i][j] == b[j][i] |
| `Board.TransposeInvolution` | tic_tac_toe/ttt.py:96-98 | transposing twice gives back the board |
| `Board.MarksOfThree` | tic_tac_toe/ttt.py:133-141 | the set of a three-square line's contents has one element exactly when the three squares are equal |
| `Board.UniformIff` | tic_tac_toe/ttt.py:127-129 | a row's set of marks is a single value other than None exactly when its three squares hold the same mark |
| `Board.Uniform` | tic_tac_toe/ttt.py:127-129 | the set test of is_row_filled, written with the set of a row's contents; its contract is given by `UniformIff`: on a three-square row it holds exactly when the three squares hold the same mark |
| `Board.IsRowFilled` | tic_tac_toe/ttt.py:125-130 | the row scan as written, over the first three rows; its contract is given by `RowScanIff` (exactly when some row holds three equal marks) and, on the transposed board, by `ColumnScanIff` |
| `Board.IsDiagFilled` | tic_tac_toe/ttt.py:132-142 | the diagonal scan as written, with all() and the set of each diagonal's contents; its contract is given by `DiagScanIff`: exactly when one of the two diagonals holds three equal marks |
| `Board.RowScanIff` | tic_tac_toe/ttt.py:125-130 | is_row_filled holds exactly when some row holds three equal marks |
| `Board.ColumnScanIff` | tic_tac_toe/ttt.py:96-101 | is_row_filled on the transposed board holds exactly when some column holds three equal marks |
| `Board.DiagScanIff` | tic_tac_toe/ttt.py:132-142 | is_diag_filled holds exactly when (0,0),(1,1),(2,2) or (0,2),(1,1),(2,0) hold three equal marks |
| `Board.WinCheckIff` | tic_tac_toe/ttt.py:101 | the win condition of eval_game holds exactly when one of the eight lines holds three equal marks |
| `Board.OccupiedPrefix` | tic_tac_toe/ttt.py:109-113 | the occupied count over the first n squares in row-major order is at most n |
| `Board.OccupiedCount` | tic_tac_toe/ttt.py:109-113 | the occupied count of a board is at most nine |
| `Board.EmptyPrefix` | tic_tac_toe/ttt.py:117-123 | the list of empty squares that the nested loops of list_empty have built after the first n squares in row-major order has at most n entries; what it holds is given by `EmptyPrefixSound` and `EmptyPrefixComplete` |
| `Board.EmptyCells` | tic_tac_toe/ttt.py:117-123 | list_empty's result over all nine squares has at most nine entries; `EmptyCellsIff` states exactly which |
| `Board.PrefixStep` | tic_tac_toe/ttt.py:110-113 | one step of the nested row-major loops visits square (x, y) at position 3x+y and adds it to the count or to the empty list |
| `Board.OccupiedPrefixAll` | tic_tac_toe/ttt.py:109-115 | the count over the first n squares is n exactly when all of them are occupied |
| `Board.FullIff` | tic_tac_toe/ttt.py:108-116 | a board is full (all nine squares occupied) exactly when the count is nine, and exactly when list_empty reports nothing |
| `Board.EmptyPrefixSound` | tic_tac_toe/ttt.py:117-123 | list_empty's scan of the first n squares reports only empty squares among them, in strictly increasing row-major order |
| `Board.EmptyPrefixComplete` | tic_tac_toe/ttt.py:117-123 | every empty square among the first n is reported by the scan |
| `Board.PrefixCounts` | tic_tac_toe/ttt.py:108-123 | over the first n squares, the number reported empty plus the number counted occupied is n |
| `Board.EmptyCellsIff` | tic_tac_toe/ttt.py:117-123 | list_empty returns exactly the empty squares, each once, in row-major order, and there are 9 minus the occupied count of them |
| `Board.OccupiedPrefixAfterMark` | tic_tac_toe/ttt.py:88 | writing into an empty square adds one to the count of every row-major prefix that contains it |
| `Board.OccupiedAfterMark` | tic_tac_toe/ttt.py:86-88 | writing a mark into an empty square adds exactly one occupied square |
| `Board.OccupiedPrefixEmpty` | tic_tac_toe/ttt.py:38-41 | the default empty board has no occupied square |
| `Board.RowScanTest` | tic_tac_toe/ttt.py:149-154 | test_row: a top row of "x" is found by the row scan |
| `Board.ColumnScanTest` | tic_tac_toe/ttt.py:156-161 | test_col: a left column of "x" is found by the row scan of the transpose |
| `Board.DiagScanTest` | tic_tac_toe/ttt.py:163-168 | test_diag: an anti-diagonal of "x" is found by the diagonal scan |
| `Game.TicTacToe.constructor` | tic_tac_toe/ttt.py:35-48 | with the defaults (no board, x to move) or the given arguments, the game starts on the given board, or on the empty board when none or an empty list is given, with an empty history, the given first player, status playon and no winner; the turn order holds from the start, and a game on the empty board is consistent |
| `Game.TicTacToe.GetNextPlayer` | tic_tac_toe/ttt.py:57-58 | in every game (the turn order holds from construction on), the player to move is never the one who moved last |
| `Game.TicTacToe.GetGameState` | tic_tac_toe/ttt.py:60-61 | the reported state of a valid game never shows complete without a winner, nor a winner while play is on |
| `Game.TicTacToe.GetHistory` | tic_tac_toe/ttt.py:144-145 | in a consistent game the history has one move per occupied square |
| `Game.TicTacToe.SquareIsEmpty` | tic_tac_toe/ttt.py:80-81 | a square is empty exactly when list_empty reports it |
| `Game.TicTacToe.IsBoardFull` | tic_tac_toe/ttt.py:108-116 | the nested counting loops return true exactly when nine squares are occupied, that is, when the board is full |
| `Game.TicTacToe.ListEmpty` | tic_tac_toe/ttt.py:117-123 | the nested loops return exactly the empty squares, each once, in row-major order |
| `Game.TicTacToe.EvalGame` | tic_tac_toe/ttt.py:100-106 | when a line is filled the winner becomes the given mark; the status becomes draw when the board is full (even over a win), otherwise complete when a line is filled, otherwise it is unchanged; only status and winner change, and the object invariant is kept |
| `Game.TicTacToe.PlayMove` | tic_tac_toe/ttt.py:83-94 | wrong turn: IncorrectPlayer, nothing changes; right turn on an occupied square: InvalidMove("Square occupied"), nothing changes; after a draw every move is refused and nothing changes; otherwise the square gets the mark and nothing else on the board changes, the move is appended to the history, the turn passes to the other mark and the board is evaluated as in EvalGame; the object invariant and the turn order are kept in every game, and the consistency of a game started on an empty board is kept |
| `Scenarios.DiagonalWin` | tic_tac_toe/ttt.py:170-178 | test_game: x at (0,0), o at (0,1), x at (1,1), o at (0,2), x at (2,2) ends complete with winner x |
| `Scenarios.WrongTurn` | tic_tac_toe/ttt.py:84-85 | a first move by o when x is to play is refused with IncorrectPlayer and records nothing |
| `Scenarios.SquareOccupied` | tic_tac_toe/ttt.py:86-87 | o playing onto the square x just took is refused with InvalidMove("Square occupied"); the history keeps one move |
| `Scenarios.MoveAfterWin` | tic_tac_toe/ttt.py:100-103 | after x has won, o's move is still accepted and o is recorded as the winner |
| `Scenarios.WinningNinthMove` | tic_tac_toe/ttt.py:100-105 | a ninth move that completes a line ends with status draw and the mover still recorded as winner |
| `Scenarios.FullBoardNoLine` | tic_tac_toe/ttt.py:104-105 | nine moves that fill the board without a line end in a draw with no winner |
| `Scenarios.SuppliedBoardTurnOrder` | tic_tac_toe/ttt.py:84-93 | on a supplied board with o to move, after two accepted moves the turn is not with the mark that played last |

## Left out

- The random `game_id` and its property (tic_tac_toe/ttt.py:35-36, 50-52) are
  not modelled. They draw on the random number generator.
- The text rendering is not modelled: `get_square`'s blank, `draw_map` and
  `__str__`.
- The exception message strings are not modelled. `InvalidMove` keeps the
  reason `"Square occupied"`, not the formatted message.
- The demonstration driver and the unit-test runner (`play_a_game`, the `print` calls,
  `unittest.main`) are not modelled. The unit tests appear as the lemmas and
  scenario methods listed above.
- Marks are the two values `X` and `O`. The source accepts any string as
  `next_player` and as a mark, including Python's truthiness of other values.
- `is_board_full`, `is_row_filled` and `is_diag_filled` have no final
  `return`, so where the answer is no they return `None`, not `False`. The
  model returns `false` there. Both are falsy in Python, and every caller uses
  the result only as a condition.
- Coordinates must be in 0..2 (a `requires` on `PlayMove` and
  `SquareIsEmpty`). The source does no bounds check: Python would wrap a
  negative index or raise `IndexError`.
- `Game.TicTacToe.constructor`: a non-empty `board_state` must be a 3x3 grid.
  The source stores whatever list it is given, by reference. The aliasing is
  not modelled, so a caller cannot change the board behind the object's back.
- `get_history` returns the live list in the source. `GetHistory` returns the
  history as a value, so that aliasing is not modelled either.
- `Board.IsDiagFilled`: the model requires a full 3x3 board. The source needs
  only the five squares of the two diagonals to exist.
