/**
 * The row-major board scan of `getAllPossibleMoves`, stated for any function
 * that lists the moves of one square. Keeping it generic lets its proofs
 * ignore how each square's moves are produced.
 */
module Scans {
  import opened Pieces
  import opened Moves

  /** The position of a square in the engine's row-major scan. */
  function ScanIndex(r: Coord, c: Coord): nat {
    r * 8 + c
  }

  /** Square number `i` of the scan is (i / 8, i % 8), and no other square has that number. */
  lemma ScanSquare(i: nat)
    requires i < 64
    ensures 0 <= i / 8 < 8 && 0 <= i % 8 < 8 && ScanIndex(i / 8, i % 8) == i
    ensures forall r: Coord, c: Coord :: ScanIndex(r, c) == i ==> r == i / 8 && c == i % 8
  {
  }

  /** The scan from square number `i` to the end of the board, appending each square's moves. */
  function Scan(gen: (Coord, Coord) -> seq<Move>, i: nat): seq<Move>
    requires i <= 64
    decreases 64 - i
  {
    if i == 64 then []
    else gen(i / 8, i % 8) + Scan(gen, i + 1)
  }

  /** Every move of `ms` starts on (r, c). */
  predicate AllStartOn(ms: seq<Move>, r: Coord, c: Coord) {
    forall m :: m in ms ==> m.startRow == r && m.startCol == c
  }

  /** Every move listed for a square starts on that square. */
  predicate StartsOnItsSquare(gen: (Coord, Coord) -> seq<Move>) {
    forall r: Coord, c: Coord :: AllStartOn(gen(r, c), r, c)
  }

  /** No square's list holds two equal moves. */
  predicate EachDistinct(gen: (Coord, Coord) -> seq<Move>) {
    forall r: Coord, c: Coord :: Distinct(gen(r, c))
  }

  /** The scan from square `i` lists exactly the moves of the squares numbered `i` or later. */
  lemma {:induction false} ScanExactly(gen: (Coord, Coord) -> seq<Move>, i: nat, m: Move)
    requires i <= 64 && StartsOnItsSquare(gen)
    ensures m in Scan(gen, i) <==>
      ScanIndex(m.startRow, m.startCol) >= i && m in gen(m.startRow, m.startCol)
    decreases 64 - i
  {
    if i < 64 {
      ScanSquare(i);
      var r: Coord, c: Coord := i / 8, i % 8;
      assert Scan(gen, i) == gen(r, c) + Scan(gen, i + 1);
      ScanExactly(gen, i + 1, m);
      if ScanIndex(m.startRow, m.startCol) == i {
        assert m.startRow == r && m.startCol == c;
      }
    }
  }

  /** Squares listing distinct moves that start on them give a scan without repeats. */
  lemma {:induction false} ScanDistinct(gen: (Coord, Coord) -> seq<Move>, i: nat)
    requires i <= 64 && StartsOnItsSquare(gen) && EachDistinct(gen)
    ensures Distinct(Scan(gen, i))
    decreases 64 - i
  {
    if i < 64 {
      ScanSquare(i);
      var r: Coord, c: Coord := i / 8, i % 8;
      var head := gen(r, c);
      var tail := Scan(gen, i + 1);
      assert Scan(gen, i) == head + tail;
      ScanDistinct(gen, i + 1);
      forall x, y | x in head && y in tail
        ensures !SameMove(x, y)
      {
        ScanExactly(gen, i + 1, y);
        assert ScanIndex(x.startRow, x.startCol) != ScanIndex(y.startRow, y.startCol);
        MoveIdIdentifiesSquares(x, y);
      }
      DistinctConcat(head, tail);
    }
  }
}
