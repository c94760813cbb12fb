/**
 * Check detection and the legality filter: the engine's `squareUnderAttack`,
 * `inCheck` and `getValidMoves`, with the checkmate and stalemate flags.
 */
module Legality {
  import opened Pieces
  import opened Moves
  import opened GameStates
  import opened MoveGen

  /** `a` is `b` with some entries deleted, order kept. */
  predicate SubsequenceOf<T(==)>(a: seq<T>, b: seq<T>)
    decreases |b|
  {
    || |a| == 0
    || (|b| > 0 && ((a[0] == b[0] && SubsequenceOf(a[1..], b[1..])) || SubsequenceOf(a, b[1..])))
  }

  lemma {:induction false} SubsequenceElements<T>(a: seq<T>, b: seq<T>)
    requires SubsequenceOf(a, b)
    ensures forall x :: x in a ==> x in b
    decreases |b|
  {
    if |a| > 0 {
      if a[0] == b[0] && SubsequenceOf(a[1..], b[1..]) {
        SubsequenceElements(a[1..], b[1..]);
        forall x | x in a
          ensures x in b
        {
          if x != a[0] {
            assert x in a[1..];
          }
        }
      } else {
        SubsequenceElements(a, b[1..]);
      }
    }
  }

  lemma {:induction false} SubsequenceKeepsDistinct(a: seq<Move>, b: seq<Move>)
    requires SubsequenceOf(a, b) && Distinct(b)
    ensures Distinct(a)
    decreases |b|
  {
    if |a| > 0 {
      assert forall i, j :: 0 <= i < j < |b[1..]| ==> b[1..][i] == b[i + 1] && b[1..][j] == b[j + 1];
      assert Distinct(b[1..]);
      if a[0] == b[0] && SubsequenceOf(a[1..], b[1..]) {
        SubsequenceKeepsDistinct(a[1..], b[1..]);
        SubsequenceElements(a[1..], b[1..]);
        forall i, j | 0 <= i < j < |a|
          ensures !SameMove(a[i], a[j])
        {
          assert a[j] == a[1..][j - 1];
          if i > 0 {
            assert a[i] == a[1..][i - 1];
          } else {
            assert a[j] in a[1..];
            var k :| 0 <= k < |b[1..]| && b[1..][k] == a[j];
            assert b[k + 1] == a[j];
          }
        }
      } else {
        SubsequenceKeepsDistinct(a, b[1..]);
      }
    }
  }

  /** The engine's `getAllPossibleMoves` on a game state. */
  function PossibleMoves(s: GameState): seq<Move>
    requires NoPawnOnLastRow(s.board)
  {
    AllPossibleMoves(s.board, s.whiteToMove)
  }

  /** The loop at the end of `squareUnderAttack`: does some listed move end on (r, c)? */
  function AnyEndsOn(ms: seq<Move>, r: int, c: int): (found: bool)
    ensures found <==> exists m :: m in ms && m.endRow == r && m.endCol == c
    decreases |ms|
  {
    if |ms| == 0 then false
    else if ms[0].endRow == r && ms[0].endCol == c then true
    else
      var rest := AnyEndsOn(ms[1..], r, c);
      assert forall m :: m in ms <==> m == ms[0] || m in ms[1..];
      rest
  }

  /**
   * The engine's `squareUnderAttack(r, c)`: with the turn handed to the
   * opponent for a moment, one of the opponent's pseudo-legal moves ends on (r, c).
   */
  function SquareUnderAttack(s: GameState, r: Coord, c: Coord): bool
    requires NoPawnOnLastRow(s.board)
  {
    AnyEndsOn(PossibleMoves(SwapTurn(s)), r, c)
  }

  /** Square (r, c) is attacked exactly when an opponent's piece, by its own movement rule, may move there. */
  lemma SquareUnderAttackExactly(s: GameState, r: Coord, c: Coord)
    requires NoPawnOnLastRow(s.board)
    ensures SquareUnderAttack(s, r, c) <==>
      exists m: Move :: Friendly(s.board[m.startRow][m.startCol], !s.whiteToMove) && Snapshot(m, s.board)
        && FollowsPieceRule(s.board, !s.whiteToMove, m) && m.endRow == r && m.endCol == c
  {
    var ms := PossibleMoves(SwapTurn(s));
    if SquareUnderAttack(s, r, c) {
      var o :| o in ms && o.endRow == r && o.endCol == c;
      AllPossibleMovesExactly(s.board, !s.whiteToMove, o);
    }
    forall m: Move | Friendly(s.board[m.startRow][m.startCol], !s.whiteToMove) && Snapshot(m, s.board)
        && FollowsPieceRule(s.board, !s.whiteToMove, m) && m.endRow == r && m.endCol == c
      ensures SquareUnderAttack(s, r, c)
    {
      AllPossibleMovesExactly(s.board, !s.whiteToMove, m);
    }
  }

  /** The square of the king of the side to move, as the state records it. */
  function MoverKing(s: GameState): Pos {
    if s.whiteToMove then s.whiteKingLocation else s.blackKingLocation
  }

  /** The engine's `inCheck`: the recorded square of the mover's king is attacked. */
  function InCheck(s: GameState): bool
    requires NoPawnOnLastRow(s.board)
  {
    SquareUnderAttack(s, MoverKing(s).row, MoverKing(s).col)
  }

  /** The mover is in check exactly when some opponent piece, by its own rule, may move onto the recorded king square. */
  lemma InCheckExactly(s: GameState)
    requires NoPawnOnLastRow(s.board)
    ensures InCheck(s) <==>
      exists m: Move :: Friendly(s.board[m.startRow][m.startCol], !s.whiteToMove) && Snapshot(m, s.board)
        && FollowsPieceRule(s.board, !s.whiteToMove, m) && m.endRow == MoverKing(s).row && m.endCol == MoverKing(s).col
  {
    SquareUnderAttackExactly(s, MoverKing(s).row, MoverKing(s).col);
  }

  /**
   * The test inside `getValidMoves`: `m` was built from this board, and once
   * it is made and the turn is handed back to the mover, the mover is not in check.
   */
  predicate KeepsKingSafe(s: GameState, m: Move) {
    && NoPawnOnLastRow(s.board)
    && Snapshot(m, s.board)
    && (ApplyKeepsPawnsOffLastRow(s, m); !InCheck(SwapTurn(ApplyMove(s, m))))
  }

  /**
   * A move built from the board keeps the king safe exactly when, on the board
   * after it, no pseudo-legal move of the opponent ends on the mover's king square.
   */
  lemma KeepsKingSafeExactly(s: GameState, m: Move)
    requires NoPawnOnLastRow(s.board) && Snapshot(m, s.board)
    ensures NoPawnOnLastRow(ApplyMove(s, m).board)
    ensures var after := ApplyMove(s, m);
      var king := if s.whiteToMove then after.whiteKingLocation else after.blackKingLocation;
      KeepsKingSafe(s, m) <==>
        forall o :: o in AllPossibleMoves(after.board, !s.whiteToMove) ==> o.endRow != king.row || o.endCol != king.col
  {
    ApplyKeepsPawnsOffLastRow(s, m);
  }

  /**
   * After any move `getValidMoves` returns is made, no pseudo-legal move of
   * the opponent ends on a square holding the mover's king.
   */
  lemma ValidMoveLeavesKingUnattacked(s: GameState, m: Move)
    requires NoPawnOnLastRow(s.board) && KingLocationsAgree(s)
    requires m in GetValidMoves(s).moves
    ensures NoPawnOnLastRow(ApplyMove(s, m).board)
    ensures var after := ApplyMove(s, m);
      forall r: Coord, c: Coord :: after.board[r][c] == Piece(SideColor(s.whiteToMove), King) ==>
        forall o :: o in AllPossibleMoves(after.board, !s.whiteToMove) ==> o.endRow != r || o.endCol != c
  {
    KeepsKingSafeExactly(s, m);
    ApplyKeepsKingLocations(s, m);
  }

  /** The entries of `ms` that pass `keep`, in their original order. */
  function Filter(ms: seq<Move>, keep: Move -> bool): seq<Move>
    decreases |ms|
  {
    if |ms| == 0 then []
    else
      var rest := Filter(ms[1..], keep);
      if keep(ms[0]) then [ms[0]] + rest else rest
  }

  /** A move is kept exactly when it is among the entries and passes the test. */
  lemma {:induction false} FilterKeepsExactly(ms: seq<Move>, keep: Move -> bool, m: Move)
    ensures m in Filter(ms, keep) <==> m in ms && keep(m)
    decreases |ms|
  {
    if |ms| > 0 {
      FilterKeepsExactly(ms[1..], keep, m);
      assert m in ms <==> m == ms[0] || m in ms[1..];
    }
  }

  /** The filter keeps the order of the entries it keeps. */
  lemma {:induction false} FilterIsSubsequence(ms: seq<Move>, keep: Move -> bool)
    ensures SubsequenceOf(Filter(ms, keep), ms)
    decreases |ms|
  {
    if |ms| > 0 {
      FilterIsSubsequence(ms[1..], keep);
    }
  }

  /** The legality test of `getValidMoves` for the state `s`. */
  function LegalIn(s: GameState): Move -> bool {
    m => KeepsKingSafe(s, m)
  }

  /** What `getValidMoves` returns, and the state it leaves behind (with its two flags). */
  datatype ValidMoves = ValidMoves(moves: seq<Move>, state: GameState)

  /**
   * The engine's `getValidMoves`: the pseudo-legal moves that keep the king
   * safe, and the state with the terminal flags set. When no move is left the
   * code sets only one flag and leaves the other as it was.
   */
  function GetValidMoves(s: GameState): (v: ValidMoves)
    requires NoPawnOnLastRow(s.board)
    ensures SubsequenceOf(v.moves, PossibleMoves(s))
    ensures forall m :: m in v.moves <==> m in PossibleMoves(s) && KeepsKingSafe(s, m)
    ensures Distinct(v.moves)
    ensures v.state.(checkMate := s.checkMate, staleMate := s.staleMate) == s
    ensures |v.moves| > 0 ==> !v.state.checkMate && !v.state.staleMate
    ensures |v.moves| == 0 && InCheck(s) ==> v.state.checkMate && v.state.staleMate == s.staleMate
    ensures |v.moves| == 0 && !InCheck(s) ==> v.state.staleMate && v.state.checkMate == s.checkMate
  {
    var moves := Filter(PossibleMoves(s), LegalIn(s));
    FilterIsSubsequence(PossibleMoves(s), LegalIn(s));
    forall m
      ensures m in moves <==> m in PossibleMoves(s) && KeepsKingSafe(s, m)
    {
      FilterKeepsExactly(PossibleMoves(s), LegalIn(s), m);
    }
    AllPossibleMovesDistinct(s.board, s.whiteToMove);
    SubsequenceKeepsDistinct(moves, PossibleMoves(s));
    var state :=
      if |moves| == 0 then
        if InCheck(s) then s.(checkMate := true) else s.(staleMate := true)
      else s.(checkMate := false, staleMate := false);
    ValidMoves(moves, state)
  }

  /**
   * Entered with both flags clear, as after the constructor or any call that
   * found a move, an empty result sets `checkMate` to `inCheck()` and
   * `staleMate` to its negation; the two flags are never both set.
   */
  lemma TerminalFlags(s: GameState)
    requires NoPawnOnLastRow(s.board)
    requires !s.checkMate && !s.staleMate
    ensures var v := GetValidMoves(s);
      && (|v.moves| == 0 ==> v.state.checkMate == InCheck(s) && v.state.staleMate == !InCheck(s))
      && !(v.state.checkMate && v.state.staleMate)
  {
  }

  /** The filter from `i` on is entry `i`, if it passes, followed by the filter after it. */
  lemma FilterFrom(ms: seq<Move>, keep: Move -> bool, i: nat, j: nat)
    requires j + 1 == i <= |ms|
    ensures ms[..i] == ms[..j] + [ms[j]]
    ensures Filter(ms[j..], keep) ==
      (if keep(ms[j]) then [ms[j]] else []) + Filter(ms[i..], keep)
  {
    assert ms[j..][1..] == ms[i..];
  }

  /** In a list without repeats, nothing before entry `j` equals it. */
  lemma NothingBeforeEquals(ms: seq<Move>, j: nat)
    requires j < |ms| && Distinct(ms)
    ensures forall y :: y in ms[..j] ==> !SameMove(y, ms[j])
  {
    forall y | y in ms[..j]
      ensures !SameMove(y, ms[j])
    {
      var k :| 0 <= k < j && ms[k] == y;
    }
  }

  /**
   * One step of the engine's backward loop: with the entries after `j`
   * already filtered, keeping entry `j` when it passes and removing it with
   * `list.remove` when it fails gives the filter from `j` on.
   */
  lemma FilterStep(ms: seq<Move>, keep: Move -> bool, i: nat, j: nat, moves: seq<Move>)
    requires j + 1 == i <= |ms| && Distinct(ms)
    requires moves == ms[..i] + Filter(ms[i..], keep)
    ensures j < |moves| && moves[j] == ms[j]
    ensures !keep(ms[j]) ==> exists k :: 0 <= k < |moves| && SameMove(moves[k], ms[j])
    ensures (if keep(ms[j]) then moves else RemoveFirst(moves, ms[j])) == ms[..j] + Filter(ms[j..], keep)
  {
    var m := ms[j];
    var rest := Filter(ms[i..], keep);
    FilterFrom(ms, keep, i, j);
    assert moves == ms[..j] + [m] + rest;
    if !keep(m) {
      NothingBeforeEquals(ms, j);
      RemoveFirstAt(ms[..j], m, rest);
    } else {
      assert ms[..j] + [m] + rest == ms[..j] + ([m] + rest);
    }
  }

  /** A candidate fails the test exactly when the mover is in check once it is made and the turn is handed back. */
  lemma LegalMeansNotInCheck(s: GameState, m: Move)
    requires NoPawnOnLastRow(s.board) && Snapshot(m, s.board)
    ensures NoPawnOnLastRow(ApplyMove(s, m).board)
    ensures InCheck(SwapTurn(ApplyMove(s, m))) <==> !LegalIn(s)(m)
  {
    ApplyKeepsPawnsOffLastRow(s, m);
  }

  /**
   * The body of the engine's loop for one candidate: make it, hand the turn
   * back, drop the candidate with `list.remove` if the mover is in check,
   * hand the turn over again and undo. The state comes back unchanged.
   */
  method TryCandidate(s: GameState, moves: seq<Move>, m: Move) returns (kept: seq<Move>, st: GameState)
    requires NoPawnOnLastRow(s.board) && KingLocationsAgree(s) && Snapshot(m, s.board)
    requires !LegalIn(s)(m) ==> exists k :: 0 <= k < |moves| && SameMove(moves[k], m)
    ensures st == s
    ensures kept == if LegalIn(s)(m) then moves else RemoveFirst(moves, m)
  {
    LegalMeansNotInCheck(s, m);
    kept := moves;
    st := ApplyMove(s, m);
    st := SwapTurn(st);
    if InCheck(st) {
      kept := RemoveFirst(kept, m);
    }
    st := SwapTurn(st);
    UndoAfterApply(s, m);
    st := UndoMove(st);
  }

  /**
   * `getValidMoves` as the engine runs it: walk the candidates from the last
   * to the first, make each one, hand the turn back, drop the candidate with
   * `list.remove` if the mover is in check, hand the turn over again and undo;
   * then set the flags. It computes the filter above, and every make is
   * undone: the state comes back unchanged apart from the flags.
   */
  method GetValidMovesInPlace(s: GameState) returns (moves: seq<Move>, st: GameState)
    requires NoPawnOnLastRow(s.board) && KingLocationsAgree(s)
    ensures moves == GetValidMoves(s).moves
    ensures st == GetValidMoves(s).state
  {
    moves := PossibleMoves(s);
    ghost var candidates := moves;
    AllPossibleMovesDistinct(s.board, s.whiteToMove);
    st := s;
    var i := |moves|;
    while i > 0
      invariant 0 <= i <= |candidates|
      invariant st == s
      invariant Distinct(candidates)
      invariant moves == candidates[..i] + Filter(candidates[i..], LegalIn(s))
    {
      var j := i - 1;
      FilterStep(candidates, LegalIn(s), i, j, moves);
      var m := moves[j];
      AllPossibleMovesSound(s.board, s.whiteToMove, m);
      moves, st := TryCandidate(s, moves, m);
      i := j;
    }
    assert candidates[0..] == candidates;
    if |moves| == 0 {
      if InCheck(st) {
        st := st.(checkMate := true);
      } else {
        st := st.(staleMate := true);
      }
    } else {
      st := st.(checkMate := false, staleMate := false);
    }
  }
}
