/**
 * The engine's `GameState`: board, side to move, move log, both king squares
 * and the two terminal flags, together with `makeMove` and `undoMove`.
 * The state is an immutable value; each operation returns the next state.
 */
module GameStates {
  import opened Pieces
  import opened Moves

  /** A (row, column) pair such as the engine's king locations. */
  datatype Pos = Pos(row: Coord, col: Coord)

  datatype GameState = GameState(
    board: Board,
    whiteToMove: bool,
    moveLog: seq<Move>,
    whiteKingLocation: Pos,
    blackKingLocation: Pos,
    checkMate: bool,
    staleMate: bool)

  const WhiteKing: Square := Piece(White, King)
  const BlackKing: Square := Piece(Black, King)

  /** The standard starting array, Black's back rank in row 0. */
  const StartBoard: Board := [
    [Piece(Black, Rook), Piece(Black, Knight), Piece(Black, Bishop), Piece(Black, Queen),
     Piece(Black, King), Piece(Black, Bishop), Piece(Black, Knight), Piece(Black, Rook)],
    [Piece(Black, Pawn), Piece(Black, Pawn), Piece(Black, Pawn), Piece(Black, Pawn), Piece(Black, Pawn), Piece(Black, Pawn), Piece(Black, Pawn), Piece(Black, Pawn)],
    [Empty, Empty, Empty, Empty, Empty, Empty, Empty, Empty],
    [Empty, Empty, Empty, Empty, Empty, Empty, Empty, Empty],
    [Empty, Empty, Empty, Empty, Empty, Empty, Empty, Empty],
    [Empty, Empty, Empty, Empty, Empty, Empty, Empty, Empty],
    [Piece(White, Pawn), Piece(White, Pawn), Piece(White, Pawn), Piece(White, Pawn), Piece(White, Pawn), Piece(White, Pawn), Piece(White, Pawn), Piece(White, Pawn)],
    [Piece(White, Rook), Piece(White, Knight), Piece(White, Bishop), Piece(White, Queen),
     Piece(White, King), Piece(White, Bishop), Piece(White, Knight), Piece(White, Rook)]
  ]

  /** Each king location field names the square of that king whenever such a king is on the board. */
  predicate KingLocationsAgree(s: GameState) {
    forall r: Coord, c: Coord ::
      && (s.board[r][c] == WhiteKing ==> s.whiteKingLocation == Pos(r, c))
      && (s.board[r][c] == BlackKing ==> s.blackKingLocation == Pos(r, c))
  }

  /** The engine's `GameState()` constructor: the start position, White to move, empty log. */
  function NewGame(): (s: GameState)
    ensures s.whiteToMove && s.moveLog == [] && !s.checkMate && !s.staleMate
    ensures s.board[s.whiteKingLocation.row][s.whiteKingLocation.col] == WhiteKing
    ensures s.board[s.blackKingLocation.row][s.blackKingLocation.col] == BlackKing
    ensures KingLocationsAgree(s)
    ensures NoPawnOnLastRow(s.board)
  {
    GameState(StartBoard, true, [], Pos(7, 4), Pos(0, 4), false, false)
  }

  /** The side to move is handed to the other player and nothing else changes. */
  function SwapTurn(s: GameState): GameState {
    s.(whiteToMove := !s.whiteToMove)
  }

  /** The cell a promoted pawn becomes: a queen of the pawn's colour. */
  function Promoted(piece: Square): Square
    requires piece.Piece?
  {
    Piece(piece.color, Queen)
  }

  /**
   * The board half of the engine's `makeMove`: the origin is emptied, the
   * moved piece is put on the destination, and a promoting pawn is then
   * replaced there by a queen of its colour.
   */
  function MovedBoard(b: Board, m: Move): (nb: Board)
    requires m.isPawnPromotion ==> m.pieceMoved.Piece?
    ensures (m.startRow != m.endRow || m.startCol != m.endCol) ==> nb[m.startRow][m.startCol] == Empty
    ensures nb[m.endRow][m.endCol] == if m.isPawnPromotion then Promoted(m.pieceMoved) else m.pieceMoved
    ensures forall i: Coord, j: Coord ::
      (i != m.startRow || j != m.startCol) && (i != m.endRow || j != m.endCol) ==> nb[i][j] == b[i][j]
  {
    var cleared := SetSquare(b, m.startRow, m.startCol, Empty);
    var placed := SetSquare(cleared, m.endRow, m.endCol, m.pieceMoved);
    if m.isPawnPromotion then SetSquare(placed, m.endRow, m.endCol, Promoted(m.pieceMoved)) else placed
  }

  /**
   * The engine's `makeMove`: moves the piece on the board, logs the move,
   * hands the turn over and follows a moving king.
   */
  function ApplyMove(s: GameState, m: Move): (r: GameState)
    requires m.isPawnPromotion ==> m.pieceMoved.Piece?
    ensures r.board == MovedBoard(s.board, m)
    ensures r.whiteToMove == !s.whiteToMove
    ensures r.moveLog == s.moveLog + [m]
    ensures r.whiteKingLocation == if m.pieceMoved == WhiteKing then Pos(m.endRow, m.endCol) else s.whiteKingLocation
    ensures r.blackKingLocation == if m.pieceMoved == BlackKing then Pos(m.endRow, m.endCol) else s.blackKingLocation
    ensures r.checkMate == s.checkMate && r.staleMate == s.staleMate
  {
    var moved := s.(board := MovedBoard(s.board, m), moveLog := s.moveLog + [m], whiteToMove := !s.whiteToMove);
    if m.pieceMoved == WhiteKing then moved.(whiteKingLocation := Pos(m.endRow, m.endCol))
    else if m.pieceMoved == BlackKing then moved.(blackKingLocation := Pos(m.endRow, m.endCol))
    else moved
  }

  /**
   * The engine's `undoMove`: with an empty log nothing happens; otherwise the
   * last move is popped, its two snapshot cells are put back, the turn is
   * handed back and a moved king is returned to its origin.
   */
  function UndoMove(s: GameState): (r: GameState)
    ensures |s.moveLog| == 0 ==> r == s
    ensures |s.moveLog| > 0 ==> var m := s.moveLog[|s.moveLog| - 1];
      && r.moveLog == s.moveLog[..|s.moveLog| - 1]
      && r.board[m.endRow][m.endCol] == m.pieceCaptured
      && ((m.startRow != m.endRow || m.startCol != m.endCol) ==> r.board[m.startRow][m.startCol] == m.pieceMoved)
      && (forall i: Coord, j: Coord ::
            (i != m.startRow || j != m.startCol) && (i != m.endRow || j != m.endCol) ==> r.board[i][j] == s.board[i][j])
      && r.whiteToMove == !s.whiteToMove
      && r.whiteKingLocation == (if m.pieceMoved == WhiteKing then Pos(m.startRow, m.startCol) else s.whiteKingLocation)
      && r.blackKingLocation == (if m.pieceMoved == BlackKing then Pos(m.startRow, m.startCol) else s.blackKingLocation)
      && r.checkMate == s.checkMate && r.staleMate == s.staleMate
  {
    if |s.moveLog| == 0 then s
    else
      var m := s.moveLog[|s.moveLog| - 1];
      var restored := SetSquare(s.board, m.startRow, m.startCol, m.pieceMoved);
      var board := SetSquare(restored, m.endRow, m.endCol, m.pieceCaptured);
      var popped := s.(board := board, moveLog := s.moveLog[..|s.moveLog| - 1], whiteToMove := !s.whiteToMove);
      if m.pieceMoved == WhiteKing then popped.(whiteKingLocation := Pos(m.startRow, m.startCol))
      else if m.pieceMoved == BlackKing then popped.(blackKingLocation := Pos(m.startRow, m.startCol))
      else popped
  }

  /**
   * Making a move built from the current board and then undoing it restores
   * the exact prior state: board (a promoted pawn comes back as the pawn),
   * side to move, both king locations, log and flags.
   */
  lemma UndoAfterApply(s: GameState, m: Move)
    requires Snapshot(m, s.board)
    requires KingLocationsAgree(s)
    ensures UndoMove(ApplyMove(s, m)) == s
  {
    var a := ApplyMove(s, m);
    var u := UndoMove(a);
    assert a.moveLog[|a.moveLog| - 1] == m;
    assert u.moveLog == s.moveLog by {
      assert a.moveLog[..|a.moveLog| - 1] == s.moveLog;
    }
    UndoRestoresCells(s, m);
    BoardsEqual(u.board, s.board);
    if m.pieceMoved == WhiteKing {
      assert s.board[m.startRow][m.startCol] == WhiteKing;
    }
    if m.pieceMoved == BlackKing {
      assert s.board[m.startRow][m.startCol] == BlackKing;
    }
  }

  /** The cell-by-cell half of the round trip. */
  lemma UndoRestoresCells(s: GameState, m: Move)
    requires Snapshot(m, s.board)
    ensures forall i: Coord, j: Coord :: UndoMove(ApplyMove(s, m)).board[i][j] == s.board[i][j]
  {
    var a := ApplyMove(s, m);
    var u := UndoMove(a);
    assert a.moveLog[|a.moveLog| - 1] == m;
    forall i: Coord, j: Coord
      ensures u.board[i][j] == s.board[i][j]
    {
      if i == m.endRow && j == m.endCol {
        assert u.board[i][j] == m.pieceCaptured;
      } else if i == m.startRow && j == m.startCol {
        assert u.board[i][j] == m.pieceMoved;
      } else {
        assert u.board[i][j] == a.board[i][j];
      }
    }
  }

  /** A move built from the board never leaves a pawn on its promotion row. */
  lemma ApplyKeepsPawnsOffLastRow(s: GameState, m: Move)
    requires Snapshot(m, s.board)
    requires NoPawnOnLastRow(s.board)
    ensures NoPawnOnLastRow(ApplyMove(s, m).board)
  {
    var a := ApplyMove(s, m);
    forall c: Coord
      ensures a.board[0][c] != Piece(White, Pawn) && a.board[7][c] != Piece(Black, Pawn)
    {
    }
  }

  /** A move built from the board keeps the king location fields in step with the board. */
  lemma ApplyKeepsKingLocations(s: GameState, m: Move)
    requires Snapshot(m, s.board)
    requires KingLocationsAgree(s)
    ensures KingLocationsAgree(ApplyMove(s, m))
  {
    var a := ApplyMove(s, m);
    forall r: Coord, c: Coord
      ensures a.board[r][c] == WhiteKing ==> a.whiteKingLocation == Pos(r, c)
      ensures a.board[r][c] == BlackKing ==> a.blackKingLocation == Pos(r, c)
    {
      if a.board[r][c] == WhiteKing && (r != m.endRow || c != m.endCol) {
        assert s.board[r][c] == WhiteKing;
      }
      if a.board[r][c] == BlackKing && (r != m.endRow || c != m.endCol) {
        assert s.board[r][c] == BlackKing;
      }
    }
  }
}
