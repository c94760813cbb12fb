# Chess rules engine: a verified model of `ChessEngine.py`

This project models the rules engine of a small Python chess program. The
engine is made of two classes:

- `GameState` holds the 8×8 board, the side to move, the move log, both king
  squares and the checkmate and stalemate flags. Its operations are:
  - `makeMove` and `undoMove`;
  - the per-piece pseudo-legal generators (pawn, knight, rook, bishop,
    queen, king);
  - `getAllPossibleMoves`;
  - `squareUnderAttack` and `inCheck`;
  - `getValidMoves`, which keeps the candidates that do not leave the
    mover's king attacked and sets the two terminal flags.
- `Move` is the move record. It snapshots the moved and the captured cell
  and sets the pawn-promotion flag. It builds the integer `moveID` that
  decides equality, and it returns algebraic square notation.

The engine has no castling and no en passant. Promotion is always to a queen.

The model is functional. A state is an immutable value, and `makeMove` and
`undoMove` return the next state. Coordinates have the type `Coord` (0..7),
so every square a generator produces is on the board by construction.
`getValidMoves` is modelled twice:

- `Legality.GetValidMoves` states its meaning as a filter;
- `Legality.GetValidMovesInPlace` is a method that walks the candidates
  backwards the way the engine does. It makes each candidate, tests for
  check, calls `list.remove` and undoes the move. It is proved to compute
  the same moves and the same final state, for every state whose two king
  fields agree with the board (`KingLocationsAgree`).

`KingLocationsAgree` is needed because `undoMove` resets a moved king's field
to the move's origin, not to the field's previous value (ChessEngine.py:57).
Every state the engine reaches satisfies it: `GameStates.NewGame` establishes
it, `GameStates.ApplyKeepsKingLocations` preserves it across a move built from
the board, and `GameStates.UndoAfterApply` returns to the earlier state.

Modules, in dependency order:

| file | module | contents |
|---|---|---|
| `pieces.dfy` | `Pieces` | colours, kinds, squares, the board type, cell update |
| `move.dfy` | `Moves` | `Move`, `moveID` equality, notation dictionaries, `list.remove` |
| `game_state.dfy` | `GameStates` | `GameState`, the constructor, `makeMove`, `undoMove` |
| `piece_moves.dfy` | `PieceMoves` | the six per-piece generators and their rules |
| `scan.dfy` | `Scans` | the row-major board scan, for any per-square move list |
| `move_gen.dfy` | `MoveGen` | dispatch by kind, and `getAllPossibleMoves` as the scan of the dispatch |
| `legality.dfy` | `Legality` | `squareUnderAttack`, `inCheck`, `getValidMoves` and the flags |

## Model

| member | source | states |
|---|---|---|
| GameStates.NewGame | ChessEngine.py:6-24 | The start position has White to move, an empty log and both flags clear. Each recorded king square holds that king, the king fields agree with the board, and no pawn stands on its promotion row. |
| GameStates.MovedBoard | ChessEngine.py:35-47 | The board after `makeMove` has the origin emptied. It has the moved piece on the destination, or a queen of its colour when the promotion flag is set. Every other square is unchanged. |
| GameStates.ApplyMove | ChessEngine.py:35-47 | `makeMove` leaves the board that `GameStates.MovedBoard` describes. The turn flips and the log grows by exactly this move. A king field follows only a moving king. The flags are untouched. |
| GameStates.UndoMove | ChessEngine.py:49-59 | On an empty log `undoMove` changes nothing. Otherwise it pops the last move and puts both snapshot cells back, with every other square unchanged. It flips the turn and returns a moved king's field to the origin. |
| GameStates.UndoAfterApply | ChessEngine.py:35-59 | In a state whose king fields agree with the board, making a move built from the current board and then undoing it gives back exactly the prior state: board, side to move, both king squares, log and flags. This holds for a promotion too, because undo restores the pawn. |
| GameStates.ApplyKeepsKingLocations | ChessEngine.py:35-47 | If the king fields agree with the board before a move built from it, they agree after. |
| GameStates.ApplyKeepsPawnsOffLastRow | ChessEngine.py:46-47 | A move built from the board never leaves a pawn on its promotion row, because such a pawn is replaced by a queen. |
| Moves.NewMove | ChessEngine.py:252-261 | A move with the promotion flag set is a pawn move onto row 0 for White or row 7 for Black. |
| Moves.NewMoveExactly | ChessEngine.py:252-261 | The constructor keeps the four coordinates. It snapshots the origin cell as the moved piece and the destination cell as the captured one. The promotion flag is set exactly when a pawn reaches the far row of its own colour. |
| Moves.MoveIdIdentifiesSquares | ChessEngine.py:263-270 | Two moves are equal under `__eq__` (equal `moveID`) exactly when their four coordinates are equal. |
| Moves.RemoveFirst | ChessEngine.py:71 | `list.remove` drops one entry. Every remaining entry was in the list. |
| Moves.RemoveFirstAt | ChessEngine.py:71 | If no entry before position i equals the entry at i, then `list.remove` of that entry removes exactly position i. |
| Moves.RanksRoundTrip | ChessEngine.py:247-248 | `rowsToRanks` and `ranksToRows` invert each other in both directions, and every row has a rank. |
| Moves.FilesRoundTrip | ChessEngine.py:249-250 | `colsToFiles` and `filesToCols` invert each other in both directions, and every column has a file. |
| Moves.RankFile | ChessEngine.py:279-280 | `getRankFile` gives two characters that the forward dictionaries read back as the given column and row. |
| Moves.ChessNotation | ChessEngine.py:273-274 | `getChessNotation` is four characters long. |
| Moves.NotationDecodes | ChessEngine.py:273-280 | The four characters read back as the move's start column, start row, end column and end row. |
| Moves.NotationIdentifiesMove | ChessEngine.py:263-280 | Two moves have the same notation exactly when they are equal under `__eq__`. |
| PieceMoves.PawnMovesExactly | ChessEngine.py:121-154 | The pawn generator lists a move exactly when it is one of three kinds. (1) A single push onto an empty square. (2) A double push from row 6 (White) or row 1 (Black) with both squares ahead empty. (3) A diagonal step onto an enemy piece. |
| PieceMoves.PawnMovesDistinct | ChessEngine.py:121-154 | The pawn generator never lists two equal moves. |
| PieceMoves.KnightTargetsAreJumps | ChessEngine.py:179 | The knight's eight targets are exactly the squares a knight's jump away. |
| PieceMoves.KingTargetsAreSteps | ChessEngine.py:233 | The king's eight targets are exactly the eight neighbouring squares. |
| PieceMoves.LeapsExactly | ChessEngine.py:181-187 | The target loop lists a move exactly for each on-board target that does not hold a piece of the side to move. |
| PieceMoves.KnightMovesExactly | ChessEngine.py:178-187 | `getKnightMoves` lists exactly the knight jumps onto squares without a friendly piece. |
| PieceMoves.KingMovesExactly | ChessEngine.py:232-241 | `getKingMoves` lists exactly the king steps onto squares without a friendly piece. |
| PieceMoves.KnightMovesDistinct | ChessEngine.py:178-187 | `getKnightMoves` never lists two equal moves. |
| PieceMoves.KingMovesDistinct | ChessEngine.py:232-241 | `getKingMoves` never lists two equal moves. |
| PieceMoves.RayShape | ChessEngine.py:164-175 | Entry i of a ray lies i steps further along the direction. Every square before it is empty, and it is empty or holds an enemy piece. |
| PieceMoves.RayComplete | ChessEngine.py:164-175 | Every square the piece reaches along a clear path, empty or enemy, is listed by the ray. |
| PieceMoves.RayDistinct | ChessEngine.py:164-175 | One ray never lists two equal moves. |
| PieceMoves.SlidesSound | ChessEngine.py:157-175 | Every sliding move lies along one of the piece's directions with an empty path, and lands on an empty or enemy square. |
| PieceMoves.SlidesComplete | ChessEngine.py:157-175 | Every such square is listed. |
| PieceMoves.SlidesExactly | ChessEngine.py:157-229 | A rook, bishop or queen generator lists a move exactly when three things hold. It ends some steps along one of the piece's direction vectors. Every square strictly between is empty. The destination is empty or holds an enemy piece. |
| PieceMoves.SlidesDistinct | ChessEngine.py:157-229 | A sliding generator with distinct directions never lists two equal moves. |
| PieceMoves.QueenIsRookThenBishop | ChessEngine.py:211-212 | The queen's list is the rook's list followed by the bishop's list. |
| MoveGen.PieceMovesExactly | ChessEngine.py:113-117 | Dispatching on the piece's kind lists exactly the moves from that square that follow that kind's rule. |
| MoveGen.PieceMovesSound | ChessEngine.py:113-117 | Every dispatched move leaves its origin and lands on an empty square or an enemy piece. |
| Scans.ScanExactly | ChessEngine.py:109-119 | The scan from square number i lists a move exactly when the move's own square is numbered i or later in row-major order and that square lists it. This holds whenever every square lists only moves that start on it. |
| Scans.ScanDistinct | ChessEngine.py:109-119 | If each square lists moves that start on it, none twice, then the scan never lists two equal moves. |
| MoveGen.SquareGenFacts | ChessEngine.py:113-117 | Each square lists only moves that start on it, and never two equal moves. |
| MoveGen.AllPossibleMovesBySquare | ChessEngine.py:109-119 | `getAllPossibleMoves` lists a move exactly when the move's own square lists it. |
| MoveGen.AllPossibleMovesSound | ChessEngine.py:109-119 | Every pseudo-legal move meets four conditions. It starts on a piece of the side to move and was built from the current board. It leaves its origin. Its destination is empty or holds an enemy, never a friendly piece. |
| MoveGen.AllPossibleMovesExactly | ChessEngine.py:109-119 | The pseudo-legal moves are exactly the moves built from the board that start on a piece of the side to move and follow that piece's rule. |
| MoveGen.AllPossibleMovesDistinct | ChessEngine.py:109-119 | `getAllPossibleMoves` never lists two equal moves. |
| Legality.AnyEndsOn | ChessEngine.py:102-106 | The loop answers true exactly when some listed move ends on the queried square. |
| Legality.SquareUnderAttackExactly | ChessEngine.py:97-106 | A square is attacked exactly when some opponent piece may move there by its own rule. |
| Legality.InCheckExactly | ChessEngine.py:90-94 | The mover is in check exactly when some opponent piece may move onto the mover's recorded king square. |
| Legality.KeepsKingSafeExactly | ChessEngine.py:65-69 | The loop's test (make the move, hand the turn back, ask `inCheck()`) passes a candidate exactly when, on the board after it, no pseudo-legal opponent move ends on the mover's king square. |
| Legality.FilterKeepsExactly | ChessEngine.py:64-72 | A move is kept exactly when it is among the candidates and passes the test. |
| Legality.FilterIsSubsequence | ChessEngine.py:64-72 | The kept moves are a subsequence of the candidates, in their original order. |
| Legality.FilterStep | ChessEngine.py:64-75 | One backward step: keeping candidate i, or removing it with `list.remove`, extends the filtered suffix by one position. |
| Legality.TryCandidate | ChessEngine.py:65-75 | In a state whose king fields agree with the board, the loop body leaves the state exactly as it found it. It drops the candidate exactly when the candidate fails the test. |
| Legality.GetValidMoves | ChessEngine.py:61-86 | The result is a subsequence of the pseudo-legal moves without repeats, holding exactly those that keep the king safe. Only the flags of the state change. With moves left, both flags are cleared. With none left, checkMate is set if in check and staleMate otherwise, and the other flag keeps its old value. |
| Legality.ValidMoveLeavesKingUnattacked | ChessEngine.py:61-86 | In a state whose king fields agree with the board and with no pawn on its promotion row, after any returned move is made, no pseudo-legal opponent move ends on a square holding the mover's king. |
| Legality.TerminalFlags | ChessEngine.py:77-84 | Entered with both flags clear, an empty result gives checkMate equal to `inCheck()` and staleMate equal to its negation. The two flags are never both set. |
| Legality.GetValidMovesInPlace | ChessEngine.py:61-86 | In a state whose king fields agree with the board and with no pawn on its promotion row, the engine's backward make/test/remove/undo loop returns the same moves and the same final state as the filter. |

## Left out

- `ChessMain.py` is not part of this model. It is pygame drawing, image loading and the mouse and keyboard loop. Its only engine logic is matching a clicked move against the valid moves, and `Moves.MoveIdIdentifiesSquares` covers that.
- Castling, en passant and castling rights are not implemented by the engine, so they are not modelled.
- Python's negative-index wrap-around in `getPawnMoves` is not modelled. It happens for a pawn on its promotion row (ChessEngine.py:125 and 142), where the lookup reaches row -1 or raises IndexError at row 8. Instead `PawnMoves` requires the pawn not to stand on its promotion row, and the dispatch `MoveGen.PieceMovesAt`, `MoveGen.AllPossibleMoves`, `Legality.SquareUnderAttack`, `Legality.InCheck` and `Legality.GetValidMoves` require `NoPawnOnLastRow` of the board. The knight, king, rook, bishop and queen generators have no precondition. The constructor establishes it, and `GameStates.ApplyKeepsPawnsOffLastRow` shows every generated move preserves it.
- The string-keyed dispatch table `moveFunctions` (ChessEngine.py:26-33) becomes a match on the closed `Kind` datatype. Board cells are a datatype instead of two-letter strings.
- The engine mutates the state in place. Here each operation returns a new state, and the in-place behaviour of `getValidMoves` is modelled by the `Legality.GetValidMovesInPlace` method.
- `Move.__eq__` returns false when the other value is not a `Move`. The model is typed, so that case does not arise.
- The commented-out debug `print` and the cost of the repeated full generation passes are not modelled.
- No concrete game is evaluated, such as the number of opening moves or a fool's-mate sequence. The properties are stated for all positions.
- Legality.TerminalFlags: proves "checkMate equals inCheck, staleMate is its negation" only when both flags are clear on entry. With moves left, both flags are cleared; with none left, the code sets one flag and never clears the other. So a state entered with a stale flag can come out with both set. In the engine's own driver an empty result is always followed, after an undo, by a non-empty one that clears both flags.
- No generator produces a move whose origin and destination coincide. For such a move, `GameStates.ApplyMove` and `GameStates.UndoMove` state only what happens to the destination.
