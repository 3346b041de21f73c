/**
 * Model of the move reducer and winner check of examples/ch06/tic-tac-toe/index.js.
 * The board is three rows of three cells; a cell holds a player's mark or
 * nothing (`null`).
 */
module TicTacToe {
  import opened Wrappers

  datatype Player = X | O

  type Cell = Option<Player>

  /** The rows of the board. Rows have three cells, and can gain a fourth through the as-written guard. */
  type Board = seq<seq<Cell>>

  datatype GameState = GameState(board: Board, currentPlayer: Player, draw: bool, winner: Option<Player>)

  /** Why `markReducer` throws. */
  datatype MoveError =
    | OffBoard    // "Invalid Move: Space doesn't exist on board"
    | SpaceTaken  // "Invalid Move: Space already taken"
    | TypeError   // `board[3][col]` reads a property of `undefined`

  datatype MoveResult = Moved(state: GameState) | Rejected(error: MoveError)

  /** Three rows of at least three cells, all that the reducer's reads need. */
  predicate Shaped(board: Board)
  {
    |board| == 3 && forall r | 0 <= r < 3 :: |board[r]| >= 3
  }

  /** A proper 3 by 3 board. */
  predicate Square(board: Board)
  {
    |board| == 3 && forall r | 0 <= r < 3 :: |board[r]| == 3
  }

  /** The initial state of the application: an empty board and X to move. */
  const InitialState: GameState := GameState([[None, None, None], [None, None, None], [None, None, None]], X, false, None)

  /** `currentPlayer === "X" ? "O" : "X"`. */
  function Opponent(p: Player): (q: Player)
    ensures q != p
  {
    if p == X then O else X
  }

  /** `checkRow(board, index, player)`: every cell of row `index` holds the player's mark. */
  predicate CheckRow(board: Board, index: nat, player: Player)
    requires index < |board|
  {
    forall k | 0 <= k < |board[index]| :: board[index][k] == Some(player)
  }

  /** `checkCol(board, index, player)` as written: it reads `board[index]`, a row. */
  predicate CheckCol(board: Board, index: nat, player: Player)
    requires index < |board|
  {
    var col := board[index];
    forall k | 0 <= k < |col| :: col[k] == Some(player)
  }

  /** Column `index` is all the player's mark, what `checkCol` is meant to test. */
  predicate CheckColumn(board: Board, index: nat, player: Player)
    requires Shaped(board) && index < 3
  {
    forall r | 0 <= r < 3 :: board[r][index] == Some(player)
  }

  /** `checkDiagnol(board, player)`. */
  predicate CheckDiagonal(board: Board, player: Player)
    requires Shaped(board)
  {
    var mainDiagonal := [board[0][0], board[1][1], board[2][2]];
    var secondaryDiagonal := [board[0][2], board[1][1], board[2][0]];
    (forall k | 0 <= k < 3 :: mainDiagonal[k] == Some(player))
    || (forall k | 0 <= k < 3 :: secondaryDiagonal[k] == Some(player))
  }

  /** The cell numbered `k` in the board diagram of the source: 0 1 2 / 3 4 5 / 6 7 8. */
  function CellAt(board: Board, k: nat): Cell
    requires Square(board) && k < 9
  {
    board[k / 3][k % 3]
  }

  /** The winning possibilities listed beside the winner check: three rows, three columns, two diagonals. */
  const WinningLines: seq<seq<nat>> :=
    [[0, 1, 2], [3, 4, 5], [6, 7, 8], [0, 3, 6], [1, 4, 7], [2, 5, 8], [0, 4, 8], [2, 4, 6]]

  predicate LineComplete(board: Board, line: seq<nat>, player: Player)
    requires Square(board) && forall i | 0 <= i < |line| :: line[i] < 9
  {
    forall i | 0 <= i < |line| :: CellAt(board, line[i]) == Some(player)
  }

  /** Reference definition of a win: some winning possibility is all the player's mark. */
  predicate HasWon(board: Board, player: Player)
    requires Square(board)
  {
    exists i | 0 <= i < |WinningLines| :: LineComplete(board, WinningLines[i], player)
  }

  /** What `checkWinner` tests as written: a row, the `checkCol` duplicate of a row, or a diagonal. */
  predicate WinsAsWritten(board: Board, player: Player)
    requires Shaped(board)
  {
    (exists i | 0 <= i < 3 :: CheckRow(board, i, player) || CheckCol(board, i, player))
    || CheckDiagonal(board, player)
  }

  /** A quantifier over three indices is the conjunction of its three instances. */
  lemma ThreeCells(cells: seq<Cell>, player: Player)
    requires |cells| == 3
    ensures (forall k | 0 <= k < 3 :: cells[k] == Some(player)) <==>
      cells[0] == Some(player) && cells[1] == Some(player) && cells[2] == Some(player)
  {
    if cells[0] == Some(player) && cells[1] == Some(player) && cells[2] == Some(player) {
      forall k | 0 <= k < 3 ensures cells[k] == Some(player) {
        assert k == 0 || k == 1 || k == 2;
      }
    }
  }

  /** A three-cell line of the diagram is complete exactly when its three cells are the player's mark. */
  lemma LineCells(board: Board, a: nat, b: nat, c: nat, player: Player)
    requires Square(board) && a < 9 && b < 9 && c < 9
    ensures LineComplete(board, [a, b, c], player) <==>
      CellAt(board, a) == Some(player) && CellAt(board, b) == Some(player) && CellAt(board, c) == Some(player)
  {
    var line := [a, b, c];
    if CellAt(board, a) == Some(player) && CellAt(board, b) == Some(player) && CellAt(board, c) == Some(player) {
      forall i | 0 <= i < 3 ensures CellAt(board, line[i]) == Some(player) {
        assert i == 0 || i == 1 || i == 2;
      }
    }
    if LineComplete(board, line, player) {
      assert CellAt(board, line[0]) == Some(player) && CellAt(board, line[1]) == Some(player);
      assert CellAt(board, line[2]) == Some(player);
    }
  }

  /** The winning possibilities of a square board, class by class. */
  lemma LinesByKind(board: Board, player: Player)
    requires Square(board)
    ensures forall i | 0 <= i < 3 :: CheckRow(board, i, player) == LineComplete(board, [3 * i, 3 * i + 1, 3 * i + 2], player)
    ensures forall i | 0 <= i < 3 :: CheckColumn(board, i, player) == LineComplete(board, [i, i + 3, i + 6], player)
    ensures CheckDiagonal(board, player) == (LineComplete(board, [0, 4, 8], player) || LineComplete(board, [2, 4, 6], player))
  {
    forall i | 0 <= i < 3
      ensures CheckRow(board, i, player) == LineComplete(board, [3 * i, 3 * i + 1, 3 * i + 2], player)
      ensures CheckColumn(board, i, player) == LineComplete(board, [i, i + 3, i + 6], player)
    {
      ThreeCells(board[i], player);
      ThreeCells([board[0][i], board[1][i], board[2][i]], player);
      assert CheckColumn(board, i, player) <==> forall k | 0 <= k < 3 :: [board[0][i], board[1][i], board[2][i]][k] == Some(player);
      LineCells(board, 3 * i, 3 * i + 1, 3 * i + 2, player);
      LineCells(board, i, i + 3, i + 6, player);
      assert (3 * i) / 3 == i && (3 * i) % 3 == 0;
      assert (3 * i + 1) / 3 == i && (3 * i + 1) % 3 == 1;
      assert (3 * i + 2) / 3 == i && (3 * i + 2) % 3 == 2;
      assert i / 3 == 0 && i % 3 == i;
      assert (i + 3) / 3 == 1 && (i + 3) % 3 == i;
      assert (i + 6) / 3 == 2 && (i + 6) % 3 == i;
    }
    ThreeCells([board[0][0], board[1][1], board[2][2]], player);
    ThreeCells([board[0][2], board[1][1], board[2][0]], player);
    LineCells(board, 0, 4, 8, player);
    LineCells(board, 2, 4, 6, player);
  }

  /**
   * The intended winner check is exact: a row, a column or a diagonal is all
   * the player's mark exactly when one of the eight winning possibilities is.
   */
  lemma WinnerCheckIsExact(board: Board, player: Player)
    requires Square(board)
    ensures HasWon(board, player) <==>
      (exists i | 0 <= i < 3 :: CheckRow(board, i, player) || CheckColumn(board, i, player)) || CheckDiagonal(board, player)
  {
    LinesByKind(board, player);
    if HasWon(board, player) {
      var i :| 0 <= i < |WinningLines| && LineComplete(board, WinningLines[i], player);
      if i < 3 {
        assert WinningLines[i] == [3 * i, 3 * i + 1, 3 * i + 2];
        assert CheckRow(board, i, player);
      } else if i < 6 {
        assert WinningLines[i] == [i - 3, i, i + 3];
        assert CheckColumn(board, i - 3, player);
      } else {
        assert CheckDiagonal(board, player);
      }
    }
    if exists i | 0 <= i < 3 :: CheckRow(board, i, player) || CheckColumn(board, i, player) {
      var i :| 0 <= i < 3 && (CheckRow(board, i, player) || CheckColumn(board, i, player));
      if CheckRow(board, i, player) {
        assert WinningLines[i] == [3 * i, 3 * i + 1, 3 * i + 2];
      } else {
        assert WinningLines[i + 3] == [i, i + 3, i + 6];
      }
    }
    if CheckDiagonal(board, player) {
      assert WinningLines[6] == [0, 4, 8] && WinningLines[7] == [2, 4, 6];
    }
  }

  /** As written, the winner check ignores columns: a win is a complete row or diagonal. */
  lemma WinsAsWrittenIgnoresColumns(board: Board, player: Player)
    requires Square(board)
    ensures WinsAsWritten(board, player) <==>
      (exists i | 0 <= i < 3 :: LineComplete(board, WinningLines[i], player))
      || LineComplete(board, WinningLines[6], player) || LineComplete(board, WinningLines[7], player)
  {
    LinesByKind(board, player);
    assert WinningLines[0] == [0, 1, 2] && WinningLines[1] == [3, 4, 5] && WinningLines[2] == [6, 7, 8];
    assert WinningLines[6] == [0, 4, 8] && WinningLines[7] == [2, 4, 6];
    forall i | 0 <= i < 3 ensures CheckCol(board, i, player) == CheckRow(board, i, player) {
    }
    if exists i | 0 <= i < 3 :: LineComplete(board, WinningLines[i], player) {
      var i :| 0 <= i < 3 && LineComplete(board, WinningLines[i], player);
      assert WinningLines[i] == [3 * i, 3 * i + 1, 3 * i + 2];
      assert CheckRow(board, i, player);
    }
    if exists i | 0 <= i < 3 :: CheckRow(board, i, player) || CheckCol(board, i, player) {
      var i :| 0 <= i < 3 && (CheckRow(board, i, player) || CheckCol(board, i, player));
      assert WinningLines[i] == [3 * i, 3 * i + 1, 3 * i + 2];
    }
  }

  /** A completed column that `checkWinner` does not see. */
  lemma ColumnWinMissed()
    ensures var board := [[Some(X), Some(O), None], [Some(X), Some(O), None], [Some(X), None, None]];
      Square(board) && HasWon(board, X) && !WinsAsWritten(board, X)
  {
    var board := [[Some(X), Some(O), None], [Some(X), Some(O), None], [Some(X), None, None]];
    assert LineComplete(board, WinningLines[3], X);
    assert !CheckRow(board, 0, X) by { assert board[0][1] != Some(X); }
    assert !CheckRow(board, 1, X) by { assert board[1][1] != Some(X); }
    assert !CheckRow(board, 2, X) by { assert board[2][1] != Some(X); }
    assert !CheckDiagonal(board, X) by {
      assert [board[0][0], board[1][1], board[2][2]][1] != Some(X);
      assert [board[0][2], board[1][1], board[2][0]][1] != Some(X);
    }
  }

  /** `checkWinner(board, player)` as written. */
  method CheckWinner(board: Board, player: Player) returns (winner: Option<Player>)
    requires Shaped(board)
    ensures winner == (if WinsAsWritten(board, player) then Some(player) else None)
  {
    for i := 0 to 3
      invariant forall j | 0 <= j < i :: !CheckRow(board, j, player) && !CheckCol(board, j, player)
    {
      if CheckRow(board, i, player) {
        return Some(player);
      }
      if CheckCol(board, i, player) {
        return Some(player);
      }
    }
    if CheckDiagonal(board, player) {
      return Some(player);
    }
    return None;
  }

  /** `checkWinner` with `checkCol` reading a column. */
  method CheckWinnerCorrected(board: Board, player: Player) returns (winner: Option<Player>)
    requires Square(board)
    ensures winner == (if HasWon(board, player) then Some(player) else None)
  {
    WinnerCheckIsExact(board, player);
    for i := 0 to 3
      invariant forall j | 0 <= j < i :: !CheckRow(board, j, player) && !CheckColumn(board, j, player)
    {
      if CheckRow(board, i, player) {
        return Some(player);
      }
      if CheckColumn(board, i, player) {
        return Some(player);
      }
    }
    if CheckDiagonal(board, player) {
      return Some(player);
    }
    return None;
  }

  /** `board[row][col]`: past the end of a row it reads `undefined`, which counts as empty. */
  function CellRead(board: Board, row: nat, col: nat): Cell
    requires row < |board|
  {
    if col < |board[row]| then board[row][col] else None
  }

  /** The copied rows with `newBoard[row][col] = player`; writing just past a row's end extends it. */
  function Written(board: Board, row: nat, col: nat, player: Player): Board
    requires Shaped(board) && row < 3 && col <= |board[row]|
  {
    var newRow := if col < |board[row]| then board[row][col := Some(player)] else board[row] + [Some(player)];
    board[row := newRow]
  }

  /** `newBoard.every((row) => row.every((cell) => cell))`. */
  predicate Full(board: Board)
  {
    forall r, c | 0 <= r < |board| && 0 <= c < |board[r]| :: board[r][c].Some?
  }

  /** The result of `markReducer(state, { row, col })` as written. */
  function MarkSpec(state: GameState, row: int, col: int): MoveResult
    requires Shaped(state.board)
  {
    if row > 3 || row < 0 || col > 3 || col < 0 then Rejected(OffBoard)
    else if row == 3 then Rejected(TypeError)
    else if CellRead(state.board, row, col).Some? then Rejected(SpaceTaken)
    else
      var newBoard := Written(state.board, row, col, state.currentPlayer);
      var winner := if WinsAsWritten(newBoard, state.currentPlayer) then Some(state.currentPlayer) else None;
      Moved(GameState(newBoard, Opponent(state.currentPlayer), winner.None? && Full(newBoard), winner))
  }

  /** `markReducer(state, { row, col })`. */
  method MarkReducer(state: GameState, row: int, col: int) returns (result: MoveResult)
    requires Shaped(state.board)
    ensures result == MarkSpec(state, row, col)
  {
    if row > 3 || row < 0 || col > 3 || col < 0 {
      return Rejected(OffBoard);
    }
    if row == 3 {
      return Rejected(TypeError);
    }
    if CellRead(state.board, row, col).Some? {
      return Rejected(SpaceTaken);
    }
    var newBoard := Written(state.board, row, col, state.currentPlayer);
    var newPlayer := Opponent(state.currentPlayer);
    var winner := CheckWinner(newBoard, state.currentPlayer);
    var draw := winner.None? && Full(newBoard);
    result := Moved(GameState(newBoard, newPlayer, draw, winner));
  }

  /**
   * A legal move on a square board: only the chosen cell changes, to the
   * mover's mark; the other player moves next; the mover is the winner
   * exactly when the as-written check succeeds, and a draw is declared
   * exactly when there is no winner and every cell is filled.
   */
  lemma MarkLegalMove(state: GameState, row: nat, col: nat)
    requires Square(state.board) && row < 3 && col < 3 && state.board[row][col].None?
    ensures var result := MarkSpec(state, row, col);
      && result.Moved?
      && Square(result.state.board)
      && result.state.board[row][col] == Some(state.currentPlayer)
      && (forall r, c | 0 <= r < 3 && 0 <= c < 3 && (r, c) != (row, col) :: result.state.board[r][c] == state.board[r][c])
      && result.state.currentPlayer != state.currentPlayer
      && (result.state.winner.Some? <==> WinsAsWritten(result.state.board, state.currentPlayer))
      && (result.state.winner.Some? ==> result.state.winner.value == state.currentPlayer)
      && (result.state.draw <==> result.state.winner.None? && Full(result.state.board))
  {
  }

  /** A move onto a marked cell is rejected. */
  lemma MarkOccupied(state: GameState, row: nat, col: nat)
    requires Shaped(state.board) && row < 3 && col < 3 && state.board[row][col].Some?
    ensures MarkSpec(state, row, col) == Rejected(SpaceTaken)
  {
  }

  /** A position below 0 or above 3 in either coordinate is rejected as off the board. */
  lemma MarkOutside(state: GameState, row: int, col: int)
    requires Shaped(state.board)
    requires row < 0 || row > 3 || col < 0 || col > 3
    ensures MarkSpec(state, row, col) == Rejected(OffBoard)
  {
  }

  /**
   * The guard admits 3: on the initial board, column 3 is accepted and grows
   * the first row to four cells, and row 3 fails reading `undefined` instead
   * of being reported as off the board.
   */
  lemma GuardAdmitsThree()
    ensures MarkSpec(InitialState, 0, 3).Moved?
    ensures |MarkSpec(InitialState, 0, 3).state.board[0]| == 4
    ensures MarkSpec(InitialState, 3, 0) == Rejected(TypeError)
  {
    var board := InitialState.board;
    var newBoard := Written(board, 0, 3, X);
    assert newBoard[0] == [None, None, None, Some(X)];
    assert !CheckRow(newBoard, 0, X) by { assert newBoard[0][0] != Some(X); }
    assert !CheckRow(newBoard, 1, X) by { assert newBoard[1][0] != Some(X); }
    assert !CheckRow(newBoard, 2, X) by { assert newBoard[2][0] != Some(X); }
    assert !CheckDiagonal(newBoard, X) by {
      assert [newBoard[0][0], newBoard[1][1], newBoard[2][2]][1] != Some(X);
      assert [newBoard[0][2], newBoard[1][1], newBoard[2][0]][1] != Some(X);
    }
  }

  /** The reducer with the bounds the board has, 0 to 2, and the intended winner check. */
  function MarkCorrectedSpec(state: GameState, row: int, col: int): MoveResult
    requires Square(state.board)
  {
    if row > 2 || row < 0 || col > 2 || col < 0 then Rejected(OffBoard)
    else if state.board[row][col].Some? then Rejected(SpaceTaken)
    else
      var newBoard := state.board[row := state.board[row][col := Some(state.currentPlayer)]];
      var winner := if HasWon(newBoard, state.currentPlayer) then Some(state.currentPlayer) else None;
      Moved(GameState(newBoard, Opponent(state.currentPlayer), winner.None? && Full(newBoard), winner))
  }

  /** `markReducer` with the bounds 0 to 2 and the corrected winner check. */
  method MarkCorrected(state: GameState, row: int, col: int) returns (result: MoveResult)
    requires Square(state.board)
    ensures result == MarkCorrectedSpec(state, row, col)
  {
    if row > 2 || row < 0 || col > 2 || col < 0 {
      return Rejected(OffBoard);
    }
    if state.board[row][col].Some? {
      return Rejected(SpaceTaken);
    }
    var newBoard := state.board[row := state.board[row][col := Some(state.currentPlayer)]];
    var winner := CheckWinnerCorrected(newBoard, state.currentPlayer);
    var draw := winner.None? && Full(newBoard);
    result := Moved(GameState(newBoard, Opponent(state.currentPlayer), draw, winner));
  }

  /**
   * With the corrected bounds a move is accepted exactly when it names an
   * empty cell of the board; the board stays 3 by 3, only that cell changes,
   * and the mover wins exactly when one of the eight lines is complete.
   */
  lemma MarkCorrectedMoves(state: GameState, row: int, col: int)
    requires Square(state.board)
    ensures MarkCorrectedSpec(state, row, col).Moved? <==>
      0 <= row < 3 && 0 <= col < 3 && state.board[row][col].None?
    ensures MarkCorrectedSpec(state, row, col).Rejected? ==>
      MarkCorrectedSpec(state, row, col).error == (if 0 <= row < 3 && 0 <= col < 3 then SpaceTaken else OffBoard)
    ensures var result := MarkCorrectedSpec(state, row, col);
      result.Moved? ==>
        && Square(result.state.board)
        && result.state.board[row][col] == Some(state.currentPlayer)
        && (forall r, c | 0 <= r < 3 && 0 <= c < 3 && (r, c) != (row, col) :: result.state.board[r][c] == state.board[r][c])
        && (result.state.winner == Some(state.currentPlayer) <==> HasWon(result.state.board, state.currentPlayer))
        && (result.state.draw <==> !HasWon(result.state.board, state.currentPlayer) && Full(result.state.board))
  {
  }
}
