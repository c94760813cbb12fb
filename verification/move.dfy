/**
 * The engine's `Move` value: the two squares, a snapshot of the moving and
 * the captured cell, the promotion flag, the integer `moveID` that decides
 * equality, and the algebraic square notation.
 */
module Moves {
  import opened Pieces

  datatype Move = Move(
    startRow: Coord, startCol: Coord,
    endRow: Coord, endCol: Coord,
    pieceMoved: Square,
    pieceCaptured: Square,
    isPawnPromotion: bool)
  {
    /** The engine's `moveID`: the four coordinates read as decimal digits. */
    function MoveId(): int {
      startRow * 1000 + startCol * 100 + endRow * 10 + endCol
    }
  }

  /** A pawn of the given cell promotes when it lands on row `endRow`. */
  predicate PromotesOn(piece: Square, endRow: int) {
    (piece == Piece(White, Pawn) && endRow == 0) || (piece == Piece(Black, Pawn) && endRow == 7)
  }

  /**
   * The engine's `Move(startSq, endSq, board)` constructor: snapshots the
   * moving and the captured cell and decides the promotion flag.
   */
  function NewMove(b: Board, sr: Coord, sc: Coord, er: Coord, ec: Coord): (m: Move)
    ensures m.isPawnPromotion ==> m.pieceMoved.Piece? && m.pieceMoved.kind == Pawn
    ensures m.isPawnPromotion ==> m.endRow == if m.pieceMoved.color == White then 0 else 7
  {
    Move(sr, sc, er, ec, b[sr][sc], b[er][ec], PromotesOn(b[sr][sc], er))
  }

  /**
   * The constructor snapshots the two cells, and the promotion flag is set
   * exactly for a pawn that reaches the far row of its own colour.
   */
  lemma NewMoveExactly(b: Board, sr: Coord, sc: Coord, er: Coord, ec: Coord)
    ensures var m := NewMove(b, sr, sc, er, ec);
      && m.startRow == sr && m.startCol == sc && m.endRow == er && m.endCol == ec
      && m.pieceMoved == b[sr][sc] && m.pieceCaptured == b[er][ec]
      && (m.isPawnPromotion <==>
            && m.pieceMoved.Piece? && m.pieceMoved.kind == Pawn
            && m.endRow == if m.pieceMoved.color == White then 0 else 7)
  {
    var p := b[sr][sc];
    if p.Piece? && p.kind == Pawn {
      assert p == Piece(p.color, Pawn);
    }
  }

  /** `m` is exactly what the constructor builds from board `b` for its two squares. */
  predicate Snapshot(m: Move, b: Board) {
    m == NewMove(b, m.startRow, m.startCol, m.endRow, m.endCol)
  }

  /** The engine's `Move.__eq__`: equal move IDs. */
  predicate SameMove(a: Move, b: Move) {
    a.MoveId() == b.MoveId()
  }

  /** The two moves join the same pair of squares. */
  predicate SameSquares(a: Move, b: Move) {
    a.startRow == b.startRow && a.startCol == b.startCol && a.endRow == b.endRow && a.endCol == b.endCol
  }

  /** `moveID` is injective on board coordinates, so equality is equality of the four coordinates. */
  lemma MoveIdIdentifiesSquares(a: Move, b: Move)
    ensures SameMove(a, b) <==> SameSquares(a, b)
  {
    if SameMove(a, b) {
      DigitsAgree(a.startRow - b.startRow, a.startCol - b.startCol, a.endRow - b.endRow, a.endCol - b.endCol);
    }
  }

  /** Four differences of base-10 digits that cancel out are all zero. */
  lemma DigitsAgree(d3: int, d2: int, d1: int, d0: int)
    requires -7 <= d3 <= 7 && -7 <= d2 <= 7 && -7 <= d1 <= 7 && -7 <= d0 <= 7
    requires d3 * 1000 + d2 * 100 + d1 * 10 + d0 == 0
    ensures d3 == 0 && d2 == 0 && d1 == 0 && d0 == 0
  {
    var q := d3 * 100 + d2 * 10 + d1;
    assert -7 <= 10 * q <= 7;
    var p := d3 * 10 + d2;
    assert -7 <= 10 * p <= 7;
    assert d2 == -10 * d3;
  }

  /** No two entries of `ms` are equal under the engine's move equality. */
  predicate Distinct(ms: seq<Move>) {
    forall i, j :: 0 <= i < j < |ms| ==> !SameMove(ms[i], ms[j])
  }

  /** Two lists without repeats, sharing no move, join into a list without repeats. */
  lemma DistinctConcat(a: seq<Move>, b: seq<Move>)
    requires Distinct(a) && Distinct(b)
    requires forall x, y :: x in a && y in b ==> !SameMove(x, y)
    ensures Distinct(a + b)
  {
    var ab := a + b;
    forall i, j | 0 <= i < j < |ab|
      ensures !SameMove(ab[i], ab[j])
    {
      if j < |a| {
        assert ab[i] == a[i] && ab[j] == a[j];
      } else if i >= |a| {
        assert ab[i] == b[i - |a|] && ab[j] == b[j - |a|];
      } else {
        assert ab[i] in a && ab[j] in b;
      }
    }
  }

  /**
   * Python's `list.remove(x)` on a list of moves: drops the first entry equal
   * to `x` under move equality. The list must hold such an entry (Python raises
   * otherwise).
   */
  function RemoveFirst(ms: seq<Move>, x: Move): (r: seq<Move>)
    requires exists i :: 0 <= i < |ms| && SameMove(ms[i], x)
    ensures |r| == |ms| - 1
    ensures forall y :: y in r ==> y in ms
  {
    if SameMove(ms[0], x) then ms[1..]
    else
      assert exists i :: 0 <= i < |ms[1..]| && SameMove(ms[1..][i], x) by {
        var i :| 0 <= i < |ms| && SameMove(ms[i], x);
        assert ms[1..][i - 1] == ms[i];
      }
      [ms[0]] + RemoveFirst(ms[1..], x)
  }

  /** When nothing before `x` equals it, removing `x` removes exactly that entry. */
  lemma {:induction false} RemoveFirstAt(p: seq<Move>, x: Move, q: seq<Move>)
    requires forall y :: y in p ==> !SameMove(y, x)
    ensures exists i :: 0 <= i < |p + [x] + q| && SameMove((p + [x] + q)[i], x)
    ensures RemoveFirst(p + [x] + q, x) == p + q
  {
    assert (p + [x] + q)[|p|] == x;
    if |p| > 0 {
      assert (p + [x] + q)[1..] == p[1..] + [x] + q;
      RemoveFirstAt(p[1..], x, q);
      assert p + q == [p[0]] + (p[1..] + q);
    } else {
      assert p + [x] + q == [x] + q;
    }
  }

  // Algebraic notation: the engine's class-level dictionaries.

  const RanksToRows: map<char, Coord> :=
    map['1' := 7, '2' := 6, '3' := 5, '4' := 4, '5' := 3, '6' := 2, '7' := 1, '8' := 0]

  /** The engine's inverse dictionary `rowsToRanks`, written out (it builds it by swapping key and value). */
  const RowsToRanks: map<Coord, char> :=
    map[7 := '1', 6 := '2', 5 := '3', 4 := '4', 3 := '5', 2 := '6', 1 := '7', 0 := '8']

  const FilesToCols: map<char, Coord> :=
    map['a' := 0, 'b' := 1, 'c' := 2, 'd' := 3, 'e' := 4, 'f' := 5, 'g' := 6, 'h' := 7]

  /** The engine's `colsToFiles`, likewise written out. */
  const ColsToFiles: map<Coord, char> :=
    map[0 := 'a', 1 := 'b', 2 := 'c', 3 := 'd', 4 := 'e', 5 := 'f', 6 := 'g', 7 := 'h']

  /** `rowsToRanks` inverts `ranksToRows`, in both directions, and names every row. */
  lemma RanksRoundTrip()
    ensures forall r: Coord :: r in RowsToRanks && RowsToRanks[r] in RanksToRows && RanksToRows[RowsToRanks[r]] == r
    ensures forall k :: k in RanksToRows ==> RanksToRows[k] in RowsToRanks && RowsToRanks[RanksToRows[k]] == k
  {
  }

  /** `colsToFiles` inverts `filesToCols`, in both directions, and names every column. */
  lemma FilesRoundTrip()
    ensures forall c: Coord :: c in ColsToFiles && ColsToFiles[c] in FilesToCols && FilesToCols[ColsToFiles[c]] == c
    ensures forall k :: k in FilesToCols ==> FilesToCols[k] in ColsToFiles && ColsToFiles[FilesToCols[k]] == k
  {
  }

  /** The engine's `getRankFile`: file letter, then rank digit. */
  function RankFile(r: Coord, c: Coord): (s: string)
    ensures |s| == 2
    ensures s[0] in FilesToCols && FilesToCols[s[0]] == c
    ensures s[1] in RanksToRows && RanksToRows[s[1]] == r
  {
    RanksRoundTrip();
    FilesRoundTrip();
    [ColsToFiles[c], RowsToRanks[r]]
  }

  /** The engine's `getChessNotation`: origin square then destination square, e.g. "e2e4". */
  function ChessNotation(m: Move): (s: string)
    ensures |s| == 4
  {
    RankFile(m.startRow, m.startCol) + RankFile(m.endRow, m.endCol)
  }

  /** The notation can be read back with the forward dictionaries to the move's four coordinates. */
  lemma NotationDecodes(m: Move)
    ensures var s := ChessNotation(m);
      && s[0] in FilesToCols && FilesToCols[s[0]] == m.startCol
      && s[1] in RanksToRows && RanksToRows[s[1]] == m.startRow
      && s[2] in FilesToCols && FilesToCols[s[2]] == m.endCol
      && s[3] in RanksToRows && RanksToRows[s[3]] == m.endRow
  {
    var a := RankFile(m.startRow, m.startCol);
    var b := RankFile(m.endRow, m.endCol);
    assert ChessNotation(m) == a + b;
  }

  /** Two moves have the same notation exactly when the engine considers them equal. */
  lemma NotationIdentifiesMove(a: Move, b: Move)
    ensures ChessNotation(a) == ChessNotation(b) <==> SameMove(a, b)
  {
    MoveIdIdentifiesSquares(a, b);
    NotationDecodes(a);
    NotationDecodes(b);
  }
}
