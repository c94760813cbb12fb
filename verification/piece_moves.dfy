/**
 * Pseudo-legal moves of one piece, per kind: the engine's `getPawnMoves`,
 * `getKnightMoves`, `getKingMoves` and the three ray-casting generators
 * `getRookMoves`, `getBishopMoves`, `getQueenMoves`. Each generator takes the
 * board, whose turn it is and the piece's square, and lists the moves in the
 * engine's order. None of them looks at check.
 */
module PieceMoves {
  import opened Pieces
  import opened Moves

  function Abs(x: int): nat {
    if x < 0 then -x else x
  }

  // ---------------------------------------------------------------- pawns

  /** Row step of a pawn of the side to move: White advances toward row 0. */
  function Forward(whiteToMove: bool): int {
    if whiteToMove then -1 else 1
  }

  /** The row from which a pawn of the side to move may advance two squares. */
  function PawnStartRow(whiteToMove: bool): Coord {
    if whiteToMove then 6 else 1
  }

  /** The row ahead of a pawn on row `r` exists (the pawn is not on its promotion row). */
  predicate PawnCanStep(whiteToMove: bool, r: int) {
    if whiteToMove then r >= 1 else r <= 6
  }

  /**
   * The engine's `getPawnMoves`: one square ahead if empty, then two from the
   * start row if that square is empty too; then the left and the right
   * diagonal, each only onto an enemy piece.
   */
  function PawnMoves(b: Board, white: bool, r: Coord, c: Coord): seq<Move>
    requires PawnCanStep(white, r)
  {
    var ahead: Coord := r + Forward(white);
    var pushes :=
      if b[ahead][c] == Empty then
        [NewMove(b, r, c, ahead, c)]
        + (if r == PawnStartRow(white) && b[ahead + Forward(white)][c] == Empty
           then [NewMove(b, r, c, ahead + Forward(white), c)] else [])
      else [];
    var left := if c - 1 >= 0 && Enemy(b[ahead][c - 1], white) then [NewMove(b, r, c, ahead, c - 1)] else [];
    var right := if c + 1 < 8 && Enemy(b[ahead][c + 1], white) then [NewMove(b, r, c, ahead, c + 1)] else [];
    pushes + left + right
  }

  /**
   * The pawn rules as a relation on squares: a single push onto an empty
   * square, a double push from the start row across two empty squares, or a
   * diagonal step onto an enemy piece.
   */
  predicate PawnRule(b: Board, white: bool, r: Coord, c: Coord, er: Coord, ec: Coord) {
    var f := Forward(white);
    || (ec == c && er == r + f && b[er][ec] == Empty)
    || (ec == c && r == PawnStartRow(white) && er == r + 2 * f && EmptyAt(b, r + f, c) && b[er][ec] == Empty)
    || ((ec == c - 1 || ec == c + 1) && er == r + f && Enemy(b[er][ec], white))
  }

  /** A move is generated for the pawn exactly when it follows the pawn rules. */
  lemma PawnMovesExactly(b: Board, white: bool, r: Coord, c: Coord, m: Move)
    requires PawnCanStep(white, r)
    ensures m in PawnMoves(b, white, r, c) <==>
      m.startRow == r && m.startCol == c && Snapshot(m, b) && PawnRule(b, white, r, c, m.endRow, m.endCol)
  {
    if m in PawnMoves(b, white, r, c) {
      PawnMoveFollowsRule(b, white, r, c, m);
    } else if m.startRow == r && m.startCol == c && Snapshot(m, b) && PawnRule(b, white, r, c, m.endRow, m.endCol) {
      PawnRuleIsGenerated(b, white, r, c, m.endRow, m.endCol);
    }
  }

  lemma PawnMoveFollowsRule(b: Board, white: bool, r: Coord, c: Coord, m: Move)
    requires PawnCanStep(white, r) && m in PawnMoves(b, white, r, c)
    ensures m.startRow == r && m.startCol == c && Snapshot(m, b) && PawnRule(b, white, r, c, m.endRow, m.endCol)
  {
  }

  lemma PawnRuleIsGenerated(b: Board, white: bool, r: Coord, c: Coord, er: Coord, ec: Coord)
    requires PawnCanStep(white, r) && PawnRule(b, white, r, c, er, ec)
    ensures NewMove(b, r, c, er, ec) in PawnMoves(b, white, r, c)
  {
  }

  /** The pawn generator never lists the same move twice. */
  lemma PawnMovesDistinct(b: Board, white: bool, r: Coord, c: Coord)
    requires PawnCanStep(white, r)
    ensures Distinct(PawnMoves(b, white, r, c))
  {
    var ms := PawnMoves(b, white, r, c);
    forall i, j | 0 <= i < j < |ms|
      ensures !SameMove(ms[i], ms[j])
    {
      MoveIdIdentifiesSquares(ms[i], ms[j]);
    }
  }

  // ------------------------------------------------------ knights and kings

  /** The engine's knight target list, in its order. */
  function KnightTargets(r: int, c: int): seq<(int, int)> {
    [(r - 2, c - 1), (r - 2, c + 1), (r + 2, c - 1), (r + 2, c + 1),
     (r - 1, c - 2), (r - 1, c + 2), (r + 1, c - 2), (r + 1, c + 2)]
  }

  /** The engine's king target list, in its order. */
  function KingTargets(r: int, c: int): seq<(int, int)> {
    [(r + 1, c), (r + 1, c - 1), (r + 1, c + 1), (r, c - 1),
     (r, c + 1), (r - 1, c), (r - 1, c - 1), (r - 1, c + 1)]
  }

  /** A knight's jump: two squares one way and one square the other. */
  predicate KnightJump(r: int, c: int, er: int, ec: int) {
    (Abs(er - r) == 1 && Abs(ec - c) == 2) || (Abs(er - r) == 2 && Abs(ec - c) == 1)
  }

  /** A king's step: to any of the eight neighbouring squares. */
  predicate KingStep(r: int, c: int, er: int, ec: int) {
    Abs(er - r) <= 1 && Abs(ec - c) <= 1 && (er != r || ec != c)
  }

  /** The knight list holds exactly the knight's jumps. */
  lemma KnightTargetsAreJumps(r: int, c: int, er: int, ec: int)
    ensures (er, ec) in KnightTargets(r, c) <==> KnightJump(r, c, er, ec)
  {
  }

  /** The king list holds exactly the king's steps. */
  lemma KingTargetsAreSteps(r: int, c: int, er: int, ec: int)
    ensures (er, ec) in KingTargets(r, c) <==> KingStep(r, c, er, ec)
  {
  }

  /**
   * The loop shared by `getKnightMoves` and `getKingMoves`: every target on
   * the board that does not hold a piece of the side to move.
   */
  function Leaps(b: Board, white: bool, r: Coord, c: Coord, targets: seq<(int, int)>): seq<Move>
    decreases |targets|
  {
    if |targets| == 0 then []
    else
      var er, ec := targets[0].0, targets[0].1;
      (if OnBoard(er, ec) && !Friendly(b[er][ec], white) then [NewMove(b, r, c, er, ec)] else [])
      + Leaps(b, white, r, c, targets[1..])
  }

  lemma {:induction false} LeapsExactly(b: Board, white: bool, r: Coord, c: Coord, targets: seq<(int, int)>, m: Move)
    ensures m in Leaps(b, white, r, c, targets) <==>
      && m.startRow == r && m.startCol == c && Snapshot(m, b)
      && (m.endRow, m.endCol) in targets && !Friendly(b[m.endRow][m.endCol], white)
    decreases |targets|
  {
    if |targets| > 0 {
      LeapsExactly(b, white, r, c, targets[1..], m);
      assert targets == [targets[0]] + targets[1..];
    }
  }

  /** No value occurs twice in `xs`. */
  predicate NoRepeats<T(==)>(xs: seq<T>) {
    forall i, j :: 0 <= i < j < |xs| ==> xs[i] != xs[j]
  }

  lemma {:induction false} LeapsDistinct(b: Board, white: bool, r: Coord, c: Coord, targets: seq<(int, int)>)
    requires NoRepeats(targets)
    ensures Distinct(Leaps(b, white, r, c, targets))
    decreases |targets|
  {
    if |targets| > 0 {
      var head := if OnBoard(targets[0].0, targets[0].1) && !Friendly(b[targets[0].0][targets[0].1], white)
        then [NewMove(b, r, c, targets[0].0, targets[0].1)] else [];
      var tail := Leaps(b, white, r, c, targets[1..]);
      assert Leaps(b, white, r, c, targets) == head + tail;
      LeapsDistinct(b, white, r, c, targets[1..]);
      forall x, y | x in head && y in tail
        ensures !SameMove(x, y)
      {
        LeapsExactly(b, white, r, c, targets[1..], y);
        MoveIdIdentifiesSquares(x, y);
      }
      DistinctConcat(head, tail);
    }
  }

  /** The engine's `getKnightMoves`. */
  function KnightMoves(b: Board, white: bool, r: Coord, c: Coord): seq<Move> {
    Leaps(b, white, r, c, KnightTargets(r, c))
  }

  /** The engine's `getKingMoves`. */
  function KingMoves(b: Board, white: bool, r: Coord, c: Coord): seq<Move> {
    Leaps(b, white, r, c, KingTargets(r, c))
  }

  /** A knight move is generated exactly for each jump onto a square without a friendly piece. */
  lemma KnightMovesExactly(b: Board, white: bool, r: Coord, c: Coord, m: Move)
    ensures m in KnightMoves(b, white, r, c) <==>
      && m.startRow == r && m.startCol == c && Snapshot(m, b)
      && KnightJump(r, c, m.endRow, m.endCol) && !Friendly(b[m.endRow][m.endCol], white)
  {
    LeapsExactly(b, white, r, c, KnightTargets(r, c), m);
    KnightTargetsAreJumps(r, c, m.endRow, m.endCol);
  }

  /** A king move is generated exactly for each step onto a square without a friendly piece. */
  lemma KingMovesExactly(b: Board, white: bool, r: Coord, c: Coord, m: Move)
    ensures m in KingMoves(b, white, r, c) <==>
      && m.startRow == r && m.startCol == c && Snapshot(m, b)
      && KingStep(r, c, m.endRow, m.endCol) && !Friendly(b[m.endRow][m.endCol], white)
  {
    LeapsExactly(b, white, r, c, KingTargets(r, c), m);
    KingTargetsAreSteps(r, c, m.endRow, m.endCol);
  }

  lemma KnightMovesDistinct(b: Board, white: bool, r: Coord, c: Coord)
    ensures Distinct(KnightMoves(b, white, r, c))
  {
    LeapsDistinct(b, white, r, c, KnightTargets(r, c));
  }

  lemma KingMovesDistinct(b: Board, white: bool, r: Coord, c: Coord)
    ensures Distinct(KingMoves(b, white, r, c))
  {
    LeapsDistinct(b, white, r, c, KingTargets(r, c));
  }

  // ------------------------------------------------------- sliding pieces

  /** A direction vector (row step, column step). */
  datatype Dir = Dir(dr: int, dc: int)

  /** One square in one of the eight directions. */
  predicate IsUnit(d: Dir) {
    -1 <= d.dr <= 1 && -1 <= d.dc <= 1 && (d.dr != 0 || d.dc != 0)
  }

  predicate UnitDirs(ds: seq<Dir>) {
    forall d :: d in ds ==> IsUnit(d)
  }

  const RookDirs: seq<Dir> := [Dir(1, 0), Dir(-1, 0), Dir(0, 1), Dir(0, -1)]
  const BishopDirs: seq<Dir> := [Dir(1, 1), Dir(-1, -1), Dir(-1, 1), Dir(1, -1)]
  const QueenDirs: seq<Dir> :=
    [Dir(1, 0), Dir(-1, 0), Dir(0, 1), Dir(0, -1), Dir(1, 1), Dir(-1, -1), Dir(-1, 1), Dir(1, -1)]

  /** The coordinate `x` moved `k` times by the unit step `step`. */
  function Offset(x: int, step: int, k: int): int {
    if step > 0 then x + k else if step < 0 then x - k else x
  }

  /** The move ends `j` steps from its origin along `d`. */
  predicate AtStep(m: Move, d: Dir, j: int) {
    m.endRow == Offset(m.startRow, d.dr, j) && m.endCol == Offset(m.startCol, d.dc, j)
  }

  /** Every square along `d` from (r, c) at steps `from` up to, not including, `to` exists and is empty. */
  predicate ClearBetween(b: Board, r: Coord, c: Coord, d: Dir, from: int, to: int) {
    forall i :: from <= i < to ==> EmptyAt(b, Offset(r, d.dr, i), Offset(c, d.dc, i))
  }

  /**
   * A sliding piece on (r, c) reaches step `j` along `d`: the square exists,
   * the squares before it (from step `from` on) are empty, and it is empty or
   * holds an enemy piece.
   */
  predicate SlideReaches(b: Board, white: bool, r: Coord, c: Coord, d: Dir, from: int, j: int) {
    var er, ec := Offset(r, d.dr, j), Offset(c, d.dc, j);
    && from <= j
    && OnBoard(er, ec)
    && ClearBetween(b, r, c, d, from, j)
    && (b[er][ec] == Empty || Enemy(b[er][ec], white))
  }

  /**
   * One iteration of the engine's ray loop, from step `k` on: empty squares
   * are listed and the ray goes on; an enemy piece is listed and ends the
   * ray; a friendly piece or the board edge ends it.
   */
  function Ray(b: Board, white: bool, r: Coord, c: Coord, d: Dir, k: nat): seq<Move>
    requires IsUnit(d) && 1 <= k <= 8
    decreases 8 - k
  {
    var row, col := Offset(r, d.dr, k), Offset(c, d.dc, k);
    if !OnBoard(row, col) then []
    else if b[row][col] == Empty then [NewMove(b, r, c, row, col)] + Ray(b, white, r, c, d, k + 1)
    else if Enemy(b[row][col], white) then [NewMove(b, r, c, row, col)]
    else []
  }

  /** Entry `i` of the ray begun at step `k` lies at step `k + i` and is reached along a clear path. */
  predicate RayEntry(b: Board, white: bool, r: Coord, c: Coord, d: Dir, k: int, j: int, m: Move) {
    && m.startRow == r && m.startCol == c && Snapshot(m, b)
    && AtStep(m, d, j) && SlideReaches(b, white, r, c, d, k, j)
  }

  lemma {:induction false} RayShape(b: Board, white: bool, r: Coord, c: Coord, d: Dir, k: nat)
    requires IsUnit(d) && 1 <= k <= 8
    ensures forall i :: 0 <= i < |Ray(b, white, r, c, d, k)| ==>
      RayEntry(b, white, r, c, d, k, k + i, Ray(b, white, r, c, d, k)[i])
    decreases 8 - k
  {
    var ms := Ray(b, white, r, c, d, k);
    RayHead(b, white, r, c, d, k);
    if |ms| > 1 {
      var rest := Ray(b, white, r, c, d, k + 1);
      RayShape(b, white, r, c, d, k + 1);
      forall i | 1 <= i < |ms|
        ensures RayEntry(b, white, r, c, d, k, k + i, ms[i])
      {
        assert ms[i] == rest[i - 1];
        RayEntryExtends(b, white, r, c, d, k, k + i, rest[i - 1]);
      }
    }
  }

  /**
   * The first entry of a ray lies at step `k`; a ray with more than one entry
   * passed an empty square at step `k` and goes on as the ray from `k + 1`.
   */
  lemma RayHead(b: Board, white: bool, r: Coord, c: Coord, d: Dir, k: nat)
    requires IsUnit(d) && 1 <= k <= 8
    ensures var ms := Ray(b, white, r, c, d, k);
      && (|ms| > 0 ==> RayEntry(b, white, r, c, d, k, k, ms[0]))
      && (|ms| > 1 ==> k < 8 && EmptyAt(b, Offset(r, d.dr, k), Offset(c, d.dc, k))
                       && ms[1..] == Ray(b, white, r, c, d, k + 1))
  {
  }

  /** An entry reached from step `k + 1` is reached from step `k` when the square at step `k` is empty. */
  lemma RayEntryExtends(b: Board, white: bool, r: Coord, c: Coord, d: Dir, k: int, j: int, m: Move)
    requires RayEntry(b, white, r, c, d, k + 1, j, m)
    requires EmptyAt(b, Offset(r, d.dr, k), Offset(c, d.dc, k))
    ensures RayEntry(b, white, r, c, d, k, j, m)
  {
    forall i | k <= i < j
      ensures EmptyAt(b, Offset(r, d.dr, i), Offset(c, d.dc, i))
    {
    }
  }

  lemma {:induction false} RayComplete(b: Board, white: bool, r: Coord, c: Coord, d: Dir, k: nat, j: int)
    requires IsUnit(d) && 1 <= k <= 8
    requires SlideReaches(b, white, r, c, d, k, j)
    ensures NewMove(b, r, c, Offset(r, d.dr, j), Offset(c, d.dc, j)) in Ray(b, white, r, c, d, k)
    decreases j - k
  {
    if j > k {
      assert EmptyAt(b, Offset(r, d.dr, k), Offset(c, d.dc, k));
      RayComplete(b, white, r, c, d, k + 1, j);
    }
  }

  /** The sign of an integer: -1, 0 or 1. */
  function Sign(x: int): int {
    if x > 0 then 1 else if x < 0 then -1 else 0
  }

  /** The direction in which a move leaves its origin. */
  function DirectionOf(m: Move): Dir {
    Dir(Sign(m.endRow - m.startRow), Sign(m.endCol - m.startCol))
  }

  lemma StepDirection(m: Move, d: Dir, j: int)
    requires IsUnit(d) && j >= 1 && AtStep(m, d, j)
    ensures DirectionOf(m) == d
  {
  }

  lemma RayDistinct(b: Board, white: bool, r: Coord, c: Coord, d: Dir)
    requires IsUnit(d)
    ensures Distinct(Ray(b, white, r, c, d, 1))
  {
    var ms := Ray(b, white, r, c, d, 1);
    RayShape(b, white, r, c, d, 1);
    forall i, j | 0 <= i < j < |ms|
      ensures !SameMove(ms[i], ms[j])
    {
      assert RayEntry(b, white, r, c, d, 1, 1 + i, ms[i]);
      assert RayEntry(b, white, r, c, d, 1, 1 + j, ms[j]);
      MoveIdIdentifiesSquares(ms[i], ms[j]);
    }
  }

  /** The rays of all directions in `ds`, one after the other. */
  function Slides(b: Board, white: bool, r: Coord, c: Coord, ds: seq<Dir>): seq<Move>
    requires UnitDirs(ds)
    decreases |ds|
  {
    if |ds| == 0 then [] else Ray(b, white, r, c, ds[0], 1) + Slides(b, white, r, c, ds[1..])
  }

  lemma {:induction false} SlidesSound(b: Board, white: bool, r: Coord, c: Coord, ds: seq<Dir>, m: Move)
    requires UnitDirs(ds)
    requires m in Slides(b, white, r, c, ds)
    ensures m.startRow == r && m.startCol == c && Snapshot(m, b)
    ensures exists d, j :: d in ds && AtStep(m, d, j) && SlideReaches(b, white, r, c, d, 1, j)
    decreases |ds|
  {
    var ray := Ray(b, white, r, c, ds[0], 1);
    if m in ray {
      RayShape(b, white, r, c, ds[0], 1);
      var i :| 0 <= i < |ray| && ray[i] == m;
      assert RayEntry(b, white, r, c, ds[0], 1, 1 + i, m);
    } else {
      SlidesSound(b, white, r, c, ds[1..], m);
      var d, j :| d in ds[1..] && AtStep(m, d, j) && SlideReaches(b, white, r, c, d, 1, j);
      assert d in ds;
    }
  }

  lemma {:induction false} SlidesComplete(b: Board, white: bool, r: Coord, c: Coord, ds: seq<Dir>, d: Dir, j: int)
    requires UnitDirs(ds)
    requires d in ds && SlideReaches(b, white, r, c, d, 1, j)
    ensures NewMove(b, r, c, Offset(r, d.dr, j), Offset(c, d.dc, j)) in Slides(b, white, r, c, ds)
    decreases |ds|
  {
    if d == ds[0] {
      RayComplete(b, white, r, c, d, 1, j);
    } else {
      assert d in ds[1..];
      SlidesComplete(b, white, r, c, ds[1..], d, j);
    }
  }

  /**
   * A sliding generator lists a move exactly when it ends some steps along
   * one of the piece's directions, every square strictly between is empty,
   * and the destination is empty or holds an enemy piece.
   */
  lemma SlidesExactly(b: Board, white: bool, r: Coord, c: Coord, ds: seq<Dir>, m: Move)
    requires UnitDirs(ds)
    ensures m in Slides(b, white, r, c, ds) <==>
      && m.startRow == r && m.startCol == c && Snapshot(m, b)
      && exists d, j :: d in ds && AtStep(m, d, j) && SlideReaches(b, white, r, c, d, 1, j)
  {
    if m in Slides(b, white, r, c, ds) {
      SlidesSound(b, white, r, c, ds, m);
    } else if m.startRow == r && m.startCol == c && Snapshot(m, b) {
      if exists d, j :: d in ds && AtStep(m, d, j) && SlideReaches(b, white, r, c, d, 1, j) {
        var d, j :| d in ds && AtStep(m, d, j) && SlideReaches(b, white, r, c, d, 1, j);
        SlidesComplete(b, white, r, c, ds, d, j);
        assert false;
      }
    }
  }

  lemma {:induction false} SlidesDistinct(b: Board, white: bool, r: Coord, c: Coord, ds: seq<Dir>)
    requires UnitDirs(ds) && NoRepeats(ds)
    ensures Distinct(Slides(b, white, r, c, ds))
    decreases |ds|
  {
    if |ds| > 0 {
      var ray := Ray(b, white, r, c, ds[0], 1);
      var rest := Slides(b, white, r, c, ds[1..]);
      RayDistinct(b, white, r, c, ds[0]);
      SlidesDistinct(b, white, r, c, ds[1..]);
      forall x, y | x in ray && y in rest
        ensures !SameMove(x, y)
      {
        SlidesSound(b, white, r, c, [ds[0]], x);
        SlidesSound(b, white, r, c, ds[1..], y);
        var d1, j1 :| d1 in [ds[0]] && AtStep(x, d1, j1) && SlideReaches(b, white, r, c, d1, 1, j1);
        var d2, j2 :| d2 in ds[1..] && AtStep(y, d2, j2) && SlideReaches(b, white, r, c, d2, 1, j2);
        StepDirection(x, d1, j1);
        StepDirection(y, d2, j2);
        MoveIdIdentifiesSquares(x, y);
        var k :| 0 <= k < |ds[1..]| && ds[1..][k] == d2;
        assert ds[k + 1] == d2;
      }
      DistinctConcat(ray, rest);
    }
  }

  lemma {:induction false} SlidesAppend(b: Board, white: bool, r: Coord, c: Coord, ds1: seq<Dir>, ds2: seq<Dir>)
    requires UnitDirs(ds1) && UnitDirs(ds2)
    ensures UnitDirs(ds1 + ds2)
    ensures Slides(b, white, r, c, ds1 + ds2) == Slides(b, white, r, c, ds1) + Slides(b, white, r, c, ds2)
    decreases |ds1|
  {
    if |ds1| > 0 {
      assert (ds1 + ds2)[1..] == ds1[1..] + ds2;
      SlidesAppend(b, white, r, c, ds1[1..], ds2);
    } else {
      assert ds1 + ds2 == ds2;
    }
  }

  /** The engine's `getRookMoves`. */
  function RookMoves(b: Board, white: bool, r: Coord, c: Coord): seq<Move> {
    Slides(b, white, r, c, RookDirs)
  }

  /** The engine's `getBishopMoves`. */
  function BishopMoves(b: Board, white: bool, r: Coord, c: Coord): seq<Move> {
    Slides(b, white, r, c, BishopDirs)
  }

  /** The engine's `getQueenMoves`. */
  function QueenMoves(b: Board, white: bool, r: Coord, c: Coord): seq<Move> {
    Slides(b, white, r, c, QueenDirs)
  }

  /** The queen's direction list is the rook's followed by the bishop's, so its moves are theirs in that order. */
  lemma QueenIsRookThenBishop(b: Board, white: bool, r: Coord, c: Coord)
    ensures QueenMoves(b, white, r, c) == RookMoves(b, white, r, c) + BishopMoves(b, white, r, c)
  {
    assert QueenDirs == RookDirs + BishopDirs;
    SlidesAppend(b, white, r, c, RookDirs, BishopDirs);
  }
}
