/**
 * The engine's `getAllPossibleMoves`: a row-major scan of the board that, for
 * every piece of the side to move, appends that piece's pseudo-legal moves.
 * The engine dispatches through a table keyed by the kind letter; here the
 * dispatch is a match on `Kind`.
 */
module MoveGen {
  import opened Pieces
  import opened Moves
  import opened PieceMoves
  import opened Scans

  /** The moves of the piece of the side to move standing on (r, c), by its kind. */
  function PieceMovesAt(b: Board, white: bool, r: Coord, c: Coord): seq<Move>
    requires NoPawnOnLastRow(b) && Friendly(b[r][c], white)
  {
    match b[r][c].kind
    case Pawn => PawnMoves(b, white, r, c)
    case Rook => RookMoves(b, white, r, c)
    case Knight => KnightMoves(b, white, r, c)
    case Bishop => BishopMoves(b, white, r, c)
    case Queen => QueenMoves(b, white, r, c)
    case King => KingMoves(b, white, r, c)
  }

  /** Some number of steps along one of `ds` reaches the move's destination. */
  ghost predicate SlidesTo(b: Board, white: bool, ds: seq<Dir>, m: Move) {
    exists d, j :: d in ds && AtStep(m, d, j) && SlideReaches(b, white, m.startRow, m.startCol, d, 1, j)
  }

  /**
   * The movement rule of the piece on the move's origin, stated square by
   * square and independently of the generators' loops.
   */
  ghost predicate FollowsPieceRule(b: Board, white: bool, m: Move)
    requires b[m.startRow][m.startCol].Piece?
  {
    var r, c, er, ec := m.startRow, m.startCol, m.endRow, m.endCol;
    match b[r][c].kind
    case Pawn => PawnRule(b, white, r, c, er, ec)
    case Knight => KnightJump(r, c, er, ec) && !Friendly(b[er][ec], white)
    case King => KingStep(r, c, er, ec) && !Friendly(b[er][ec], white)
    case Rook => SlidesTo(b, white, RookDirs, m)
    case Bishop => SlidesTo(b, white, BishopDirs, m)
    case Queen => SlidesTo(b, white, QueenDirs, m)
  }

  /** A piece generates a move exactly when the move follows that piece's rule from its square. */
  lemma PieceMovesExactly(b: Board, white: bool, r: Coord, c: Coord, m: Move)
    requires NoPawnOnLastRow(b) && Friendly(b[r][c], white)
    ensures m in PieceMovesAt(b, white, r, c) <==>
      m.startRow == r && m.startCol == c && Snapshot(m, b) && FollowsPieceRule(b, white, m)
  {
    if b[r][c].kind in {Rook, Bishop, Queen} {
      SliderMovesExactly(b, white, r, c, m);
    } else {
      StepperMovesExactly(b, white, r, c, m);
    }
  }

  /** `PieceMovesExactly` for the pawn, the knight and the king. */
  lemma StepperMovesExactly(b: Board, white: bool, r: Coord, c: Coord, m: Move)
    requires NoPawnOnLastRow(b) && Friendly(b[r][c], white) && b[r][c].kind !in {Rook, Bishop, Queen}
    ensures m in PieceMovesAt(b, white, r, c) <==>
      m.startRow == r && m.startCol == c && Snapshot(m, b) && FollowsPieceRule(b, white, m)
  {
    match b[r][c].kind
    case Pawn => PawnMovesExactly(b, white, r, c, m);
    case Knight => KnightMovesExactly(b, white, r, c, m);
    case King => KingMovesExactly(b, white, r, c, m);
  }

  /** `PieceMovesExactly` for the rook, the bishop and the queen. */
  lemma SliderMovesExactly(b: Board, white: bool, r: Coord, c: Coord, m: Move)
    requires NoPawnOnLastRow(b) && Friendly(b[r][c], white) && b[r][c].kind in {Rook, Bishop, Queen}
    ensures m in PieceMovesAt(b, white, r, c) <==>
      m.startRow == r && m.startCol == c && Snapshot(m, b) && FollowsPieceRule(b, white, m)
  {
    var ds := match b[r][c].kind
      case Rook => RookDirs
      case Bishop => BishopDirs
      case _ => QueenDirs;
    assert PieceMovesAt(b, white, r, c) == Slides(b, white, r, c, ds);
    SlidesToExactly(b, white, r, c, ds, m);
    if m.startRow == r && m.startCol == c {
      assert FollowsPieceRule(b, white, m) == SlidesTo(b, white, ds, m);
    }
  }

  /** A sliding piece on (r, c) generates a move exactly when the move slides there along one of `ds`. */
  lemma SlidesToExactly(b: Board, white: bool, r: Coord, c: Coord, ds: seq<Dir>, m: Move)
    requires UnitDirs(ds)
    ensures m in Slides(b, white, r, c, ds) <==>
      m.startRow == r && m.startCol == c && Snapshot(m, b) && SlidesTo(b, white, ds, m)
  {
    SlidesExactly(b, white, r, c, ds, m);
  }

  /** Every generated move leaves its origin and lands on an empty square or an enemy piece. */
  lemma PieceMovesSound(b: Board, white: bool, r: Coord, c: Coord, m: Move)
    requires NoPawnOnLastRow(b) && Friendly(b[r][c], white)
    requires m in PieceMovesAt(b, white, r, c)
    ensures m.startRow == r && m.startCol == c && Snapshot(m, b)
    ensures m.endRow != r || m.endCol != c
    ensures b[m.endRow][m.endCol] == Empty || Enemy(b[m.endRow][m.endCol], white)
  {
    PieceMovesExactly(b, white, r, c, m);
    match b[r][c].kind
    case Pawn =>
    case Knight =>
    case King =>
    case Rook =>
      var d, j :| d in RookDirs && AtStep(m, d, j) && SlideReaches(b, white, r, c, d, 1, j);
    case Bishop =>
      var d, j :| d in BishopDirs && AtStep(m, d, j) && SlideReaches(b, white, r, c, d, 1, j);
    case Queen =>
      var d, j :| d in QueenDirs && AtStep(m, d, j) && SlideReaches(b, white, r, c, d, 1, j);
  }

  lemma PieceMovesDistinct(b: Board, white: bool, r: Coord, c: Coord)
    requires NoPawnOnLastRow(b) && Friendly(b[r][c], white)
    ensures Distinct(PieceMovesAt(b, white, r, c))
  {
    match b[r][c].kind
    case Pawn => PawnMovesDistinct(b, white, r, c);
    case Knight => KnightMovesDistinct(b, white, r, c);
    case King => KingMovesDistinct(b, white, r, c);
    case Rook => SlidesDistinct(b, white, r, c, RookDirs);
    case Bishop => SlidesDistinct(b, white, r, c, BishopDirs);
    case Queen => SlidesDistinct(b, white, r, c, QueenDirs);
  }

  /** One step of the scan: the moves of (r, c) when it holds a piece of the side to move, else none. */
  function SquareMoves(b: Board, white: bool, r: Coord, c: Coord): seq<Move>
    requires NoPawnOnLastRow(b)
  {
    if Friendly(b[r][c], white) then PieceMovesAt(b, white, r, c) else []
  }

  /** The per-square step of the scan on board `b` for the side `white` says is to move. */
  function SquareGen(b: Board, white: bool): (Coord, Coord) -> seq<Move>
    requires NoPawnOnLastRow(b)
  {
    (r: Coord, c: Coord) => SquareMoves(b, white, r, c)
  }

  /** The engine's `getAllPossibleMoves`, for the side `white` says is to move. */
  function AllPossibleMoves(b: Board, white: bool): seq<Move>
    requires NoPawnOnLastRow(b)
  {
    Scan(SquareGen(b, white), 0)
  }

  /** Each square lists moves that start on it, none twice. */
  lemma SquareGenFacts(b: Board, white: bool)
    requires NoPawnOnLastRow(b)
    ensures StartsOnItsSquare(SquareGen(b, white)) && EachDistinct(SquareGen(b, white))
  {
    SquareGenStarts(b, white);
    SquareGenDistinct(b, white);
  }

  lemma SquareGenStarts(b: Board, white: bool)
    requires NoPawnOnLastRow(b)
    ensures StartsOnItsSquare(SquareGen(b, white))
  {
    forall r: Coord, c: Coord
      ensures AllStartOn(SquareGen(b, white)(r, c), r, c)
    {
      SquareMovesStart(b, white, r, c);
    }
  }

  lemma SquareMovesStart(b: Board, white: bool, r: Coord, c: Coord)
    requires NoPawnOnLastRow(b)
    ensures AllStartOn(SquareMoves(b, white, r, c), r, c)
  {
    forall m | m in SquareMoves(b, white, r, c)
      ensures m.startRow == r && m.startCol == c
    {
      PieceMovesSound(b, white, r, c, m);
    }
  }

  lemma SquareGenDistinct(b: Board, white: bool)
    requires NoPawnOnLastRow(b)
    ensures EachDistinct(SquareGen(b, white))
  {
    var gen := SquareGen(b, white);
    forall r: Coord, c: Coord
      ensures Distinct(gen(r, c))
    {
      if Friendly(b[r][c], white) {
        PieceMovesDistinct(b, white, r, c);
      }
    }
  }

  /** A move is listed by the scan exactly when its own square lists it. */
  lemma AllPossibleMovesBySquare(b: Board, white: bool, m: Move)
    requires NoPawnOnLastRow(b)
    ensures m in AllPossibleMoves(b, white) <==> m in SquareMoves(b, white, m.startRow, m.startCol)
  {
    SquareGenFacts(b, white);
    ScanExactly(SquareGen(b, white), 0, m);
  }

  /**
   * Every move of `getAllPossibleMoves` starts on a piece of the side to move,
   * was built from the current board, really leaves its origin, and lands on
   * an empty square or an enemy piece, never on a piece of its own colour.
   * (Its four coordinates are board indices by their type.)
   */
  lemma AllPossibleMovesSound(b: Board, white: bool, m: Move)
    requires NoPawnOnLastRow(b)
    requires m in AllPossibleMoves(b, white)
    ensures Friendly(b[m.startRow][m.startCol], white) && m.pieceMoved == b[m.startRow][m.startCol]
    ensures Snapshot(m, b)
    ensures m.endRow != m.startRow || m.endCol != m.startCol
    ensures !Friendly(b[m.endRow][m.endCol], white)
    ensures b[m.endRow][m.endCol] == Empty || Enemy(b[m.endRow][m.endCol], white)
  {
    AllPossibleMovesBySquare(b, white, m);
    PieceMovesSound(b, white, m.startRow, m.startCol, m);
  }

  /**
   * The pseudo-legal moves are exactly the moves built from the board that
   * start on a piece of the side to move and follow that piece's rule.
   */
  lemma AllPossibleMovesExactly(b: Board, white: bool, m: Move)
    requires NoPawnOnLastRow(b)
    ensures m in AllPossibleMoves(b, white) <==>
      && Friendly(b[m.startRow][m.startCol], white)
      && Snapshot(m, b)
      && FollowsPieceRule(b, white, m)
  {
    AllPossibleMovesBySquare(b, white, m);
    if Friendly(b[m.startRow][m.startCol], white) {
      PieceMovesExactly(b, white, m.startRow, m.startCol, m);
    }
  }

  /** The scan never lists the same move twice under the engine's move equality. */
  lemma AllPossibleMovesDistinct(b: Board, white: bool)
    requires NoPawnOnLastRow(b)
    ensures Distinct(AllPossibleMoves(b, white))
  {
    SquareGenFacts(b, white);
    ScanDistinct(SquareGen(b, white), 0);
  }
}
