/**
 * Pieces and the 8x8 board of the chess engine's game state.
 *
 * The engine stores each cell as a two-letter string: "--" for an empty
 * square, otherwise a colour letter ('w' or 'b') followed by a kind letter
 * ('P', 'N', 'B', 'R', 'Q', 'K'). Here a cell is a `Square` value instead.
 */
module Pieces {

  /** A row or column index. Row 0 is rank 8, row 7 is rank 1; column 0 is file a. */
  type Coord = i: int | 0 <= i < 8

  datatype Color = White | Black

  datatype Kind = Pawn | Knight | Bishop | Rook | Queen | King

  /** One board cell: the engine's "--", or a piece such as "wP". */
  datatype Square = Empty | Piece(color: Color, kind: Kind)

  /** The board as a list of eight rows of eight cells each. */
  type Board = b: seq<seq<Square>> | |b| == 8 && forall r :: 0 <= r < |b| ==> |b[r]| == 8
    witness seq(8, _ => seq(8, _ => Empty))

  /** True when (r, c) names a cell of the board. */
  predicate OnBoard(r: int, c: int) {
    0 <= r < 8 && 0 <= c < 8
  }

  /** The colour of the side to move, read from the engine's `whiteToMove` flag. */
  function SideColor(whiteToMove: bool): Color {
    if whiteToMove then White else Black
  }

  /** The cell holds a piece of the side to move (the engine compares the colour letter). */
  predicate Friendly(sq: Square, whiteToMove: bool) {
    sq.Piece? && sq.color == SideColor(whiteToMove)
  }

  /** The cell holds a piece of the side not to move. */
  predicate Enemy(sq: Square, whiteToMove: bool) {
    sq.Piece? && sq.color != SideColor(whiteToMove)
  }

  /** The cell (r, c) exists and is empty. */
  predicate EmptyAt(b: Board, r: int, c: int) {
    OnBoard(r, c) && b[r][c] == Empty
  }

  /** The board with cell (r, c) replaced by `sq`: the engine's `board[r][c] = sq`. */
  function SetSquare(b: Board, r: Coord, c: Coord, sq: Square): (b': Board)
    ensures b'[r][c] == sq
    ensures forall i: Coord, j: Coord :: (i != r || j != c) ==> b'[i][j] == b[i][j]
  {
    b[r := b[r][c := sq]]
  }

  /** Two boards that agree on every cell are the same board. */
  lemma BoardsEqual(a: Board, b: Board)
    requires forall i: Coord, j: Coord :: a[i][j] == b[i][j]
    ensures a == b
  {
    forall i | 0 <= i < 8
      ensures a[i] == b[i]
    {
      assert forall j :: 0 <= j < 8 ==> a[i][j] == b[i][j];
    }
  }

  /**
   * No pawn stands on the row it would promote on: no white pawn on row 0 and
   * no black pawn on row 7. The engine's pawn generator reads the row ahead of
   * the pawn without a bounds check, so it relies on this.
   */
  predicate NoPawnOnLastRow(b: Board) {
    forall c: Coord :: b[0][c] != Piece(White, Pawn) && b[7][c] != Piece(Black, Pawn)
  }
}
