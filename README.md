# A verified model of the chess rules engine of `main.c`

The program is a two-player chess game drawn with OpenGL. Its rules engine
works on one global `int board[8][8]`. A square holds `0` when empty and
`colour*10 + kind` otherwise: colour 0 is White and 1 is Black; kinds 1 to 6
are Pawn, King, Queen, Rook, Bishop and Knight. Around the board sit the
selected square, the player to move, the highlight grid `availableMoves`
and six has-moved flags that gate castling. This project models that
engine in Dafny:

- `isLegalMove`, including its castling branch. That branch places a king on
  e, f/d and g/c in turn, asks `isInCheck`, and restores each square.
- `isInCheck`.
- `isCheckmate`, which makes each trial move on the board and takes it back.
- `updateAvailableMoves`.
- The game branch of the mouse handler: select a piece; refuse or make a
  move; update the flags; relocate the castling rook; promote a pawn; then
  keep the move and pass the turn, or take it back.
- `boardInitializer`.

The project has two layers.

**The specification layer** works on values:

- `ChessPieces` holds the encoding.
- `ChessBoard` holds a 64-entry row-major board, with square (r, c) at index
  8r + c. It also holds the flags and the initial position.
- `Legality` holds the legality and check tests as predicates.
- `Checkmate` holds checkmate and the highlight grid.
- `Turn` holds one click as a function on a `GameState`.
- `LegalityFacts` proves the rules the engine promises from these
  definitions: the piece rules, castling, pawns, and the probe quirk.
- `Scenarios` plays concrete positions through these definitions: the
  pawn push from the starting position, the first click of a game, and
  queenside castling onto an attacked square, which is accepted and then
  taken back.

**The program layer** is module `Game`. Its class `ChessGame` keeps the
globals as fields:

- `board: array<int>` and `availableMoves: array<bool>`, 64 entries each;
- the selection, the player to move, and the six flags.

The engine functions `isLegalMove`, `isInCheck`, `isCheckmate`,
`updateAvailableMoves`, `boardInitializer` and the game branch of `mouse`
are methods there, with the same loops, early returns and in-place probes.
Each method is proved to compute its specification function:

- The read-only methods and their helpers (`IsLegalMove`, `TryCastling`,
  `CastlingPathSafe`, `IsInCheck`, `IsCheckmate`, `UpdateAvailableMoves`)
  are also proved to leave the board as they found it, although they probe
  it in place.
- The move-making methods (`PlayMove`, `CastleRook`, `PromotePawn`,
  `TryMove`, `SettleMove`, `Click`) are proved to produce the board that
  `Turn` gives, and `BoardInitializer` the starting position.

- `IsLegalMove`, `TryCastling` and `CastlingPathSafe` call `IsInCheck`, and
  `IsInCheck` calls `IsLegalMove`. This mutual recursion is proved to
  terminate: `isInCheck` only ever targets an occupied king square, and
  castling needs an empty destination.
- `Click` is proved to change the state exactly as `Turn.Click` says.

The engine's quirks are kept, and they are stated as lemmas:

- The king `isInCheck` finds is the last square in row-major order holding
  the king code (`KingSquare`).
- The queenside probes on d and c re-test the king on e
  (`QueensideProbesTestOnlyE`).
- Castling never looks at the rook's corner. The relocation copies whatever
  stands there.
- The rook relocation and the second flag update run only when the moved
  king is not attacked (`PlayedCastles`, `AttackedKingNotRelocated`).
- The flags set by a move survive its rollback. The rollback restores only
  the move's two squares (`RollbackShape`).
- A legal move stands exactly when the played board leaves the mover out
  of check, and is taken back otherwise (`MoveStandsIffSafe`).

## Model

| member | source | states |
|---|---|---|
| ChessPieces.DecodeEncode | main.c:202-203 | decoding the code of any piece gives that piece back |
| ChessPieces.EncodeDecode | main.c:202-203 | a code that decodes to a piece is that piece's code |
| ChessPieces.DecodeAgreesWithDivRem | main.c:280 | the engine's `val/10` and `val%10` read the colour and kind of any valid code |
| ChessPieces.CodeFromColorAndKind | main.c:280 | a value whose truncating `/10` and `%10` give colour p and kind k is exactly `10p + k` |
| ChessBoard.SqCoords | main.c:24 | row and column are recovered from a square's index by `/8` and `%8` |
| ChessBoard.KingSquare | main.c:257-263 | the square the king scan settles on holds p's king code, and no later square in row-major order does |
| ChessBoard.InitialPosition | main.c:600-616 | the starting board has Black's back rank R N B Q K B N R on row 0, Black pawns on row 1, empty rows 2-5, White pawns on row 6 and White's back rank on row 7 |
| ChessBoard.InitialKings | main.c:600-616 | in the starting position each king code appears exactly once, White's on e1 (7,4) and Black's on e8 (0,4) |
| Legality.IsLegalMove | main.c:279-415 | the legality test: the guards, then the piece's movement rule or, for a king, castling; a king left attacked is not considered |
| Legality.IsInCheck | main.c:254-276 | some square not of colour p holds a piece that may move, for the other player, onto the square where the scan found p's king |
| Legality.WithKingAt | main.c:314-317 | a castling probe board: p's king code placed on one square, with the king then present |
| LegalityFacts.LegalMoveGuards | main.c:280-285 | a legal move starts on a non-empty square of the mover's colour, does not land on the mover's own piece, and is never the null move |
| LegalityFacts.PathClearBetween | main.c:371-408 | the sliding-path loop succeeds exactly when every square strictly between origin and destination is empty |
| LegalityFacts.SliderRule | main.c:371-408 | a queen, rook or bishop move that passes the guards is legal iff it lies on the piece's lines and every square strictly between is empty |
| LegalityFacts.SliderBlocked | main.c:371-408 | no square beyond an occupied square on a slider's line is reachable |
| LegalityFacts.KnightRule | main.c:410-412 | a knight move is legal iff it passes the guards and is one of the eight (1,2)/(2,1) jumps |
| LegalityFacts.KnightJumps | main.c:410-412 | the knight's verdict depends only on its origin and destination squares, not on what lies between |
| LegalityFacts.PawnRuleHolds | main.c:289-299 | a pawn move is legal iff it is one step forward onto an empty square, two steps from the start row over two empty squares, or one diagonal step onto an opposing piece |
| LegalityFacts.PawnAdvances | main.c:289-299 | a legal pawn move goes toward row 0 for White and toward row 7 for Black |
| LegalityFacts.KingStep | main.c:300-301 | a king may step to any neighbouring square that does not hold one of its own pieces |
| LegalityFacts.KingMoveShape | main.c:300-369 | a legal king move is a single step, or two squares along the home row from the e-file |
| LegalityFacts.CastlingRuleKingside | main.c:304-321 | kingside castling from e1/e8 is legal iff the king and kingside rook flags are clear, f and g are empty, and the king is not in check when placed on e, f and g in turn |
| LegalityFacts.CastlingRuleQueenside | main.c:322-336 | queenside castling is legal iff the king and queenside rook flags are clear, d, c and b are empty, and the three probes on e, d and c find no check |
| LegalityFacts.KingStepIgnoresFlags | main.c:300-301 | the flags never change the verdict on a one-square king move |
| LegalityFacts.LegalOntoOccupied | main.c:279-415 | onto an occupied square the legality test never reaches castling and equals the movement rule |
| LegalityFacts.InCheckIffAttacked | main.c:254-276 | p is in check iff some square not of colour p has a legal move, for the other player, onto p's king square |
| LegalityFacts.PieceMoveFewer | main.c:254-276 | adding pieces off the origin and target can only remove attacks |
| LegalityFacts.PathClearFewer | main.c:374-381 | a sliding path that is clear stays clear when pieces are taken off the board |
| LegalityFacts.ProbeKingSquare | main.c:257-263 | a probe king placed after e1/e8 in row-major order becomes the king the scan finds; one placed before it does not |
| LegalityFacts.ProbeBeforeKing | main.c:327-334 | a probe on an empty square before the real king finds a check only when the real king is already in check |
| LegalityFacts.QueensideProbesTestOnlyE | main.c:327-334 | the three queenside probes succeed iff the king is not in check where it stands: attacks on d and c are never examined |
| LegalityFacts.WalkStart | main.c:374-380 | the sliding-path loop's state before its first step, with the answer it will give |
| Checkmate.ApplyMovesPiece | main.c:432-434 | the trial move carries the piece to its destination, empties its origin and touches nothing else |
| Checkmate.KingSurvivesMove | main.c:432-435 | a legal move of p never removes p's king code from the board, so the check test after a trial move is defined |
| Checkmate.IsCheckmate | main.c:418-442 | p is in check and no legal move of p, tried as a plain copy, leaves p out of check |
| Checkmate.NoEscapeBeforeAll | main.c:428-437 | every destination the scan has passed without finding an escape is no escape |
| Checkmate.NoEscapeAtAll | main.c:428-437 | a piece none of whose 64 destinations is an escape has no escape |
| Checkmate.Highlights | main.c:644-680 | the highlight grid has 64 squares, and each one is marked iff a piece of the player to move is selected and its legal move there leaves the player out of check |
| Checkmate.MarksEscapesAt | main.c:663-679 | every square of a prefix the marking loop has filled holds its escape verdict |
| Checkmate.EscapesAreHighlights | main.c:663-679 | a full grid marking exactly the selected piece's escapes is the highlight grid |
| Checkmate.HighlightsExt | main.c:644-680 | a grid that agrees with the highlight rule on every square is the highlight grid |
| Checkmate.NoSelectionNoHighlights | main.c:649-656 | with no selection, or a selected square that is empty or not the player's, nothing is highlighted |
| Checkmate.CheckmateNeedsCheck | main.c:419 | a player who is not in check is not checkmated |
| Checkmate.CheckmateIffNothingHighlighted | main.c:418-442 | p is checkmated iff p is in check and no selection of p's pieces highlights any square |
| Turn.Click | main.c:488-592 | one click, as a function of the state: off the board, select or ignore, or attempt the move; a selection is always cleared afterwards |
| Turn.PlayedKeepsKing | main.c:501-568 | after a legal move, its flag updates, relocation and promotion, the mover's king code is still on the board |
| Turn.PlayedPlainMove | main.c:501-568 | a move that is neither a king move nor a promotion is played as the plain copy |
| Turn.PlayedPromotes | main.c:558-568 | a pawn reaching its last rank becomes a queen of its colour, its origin is empty, and every other square is as the plain move left it |
| Turn.PlayedCastles | main.c:527-547 | castling that leaves the king safe puts the king two squares over, the corner piece beside it, empties the corner and e, leaves every other square as it was, and loses the king's castling rights |
| Turn.AttackedKingNotRelocated | main.c:527-555 | a king move that leaves the king attacked on its destination relocates nothing and makes only the first flag update |
| Turn.UndoRestores | main.c:582-586 | for anything but a king move, putting back the two squares restores the whole board |
| Turn.PlayedFlagsGrow | main.c:506-555 | the flag updates of a move only set flags |
| Turn.KingBlockSetsOnlyKingFlags | main.c:549-555 | the rook updates of the second flag block can never fire |
| Turn.CommitShape | main.c:498-591 | a move stands only if it passed the legality test and leaves the mover out of check; the new state is the played board, the updated flags, the other player to move, and nothing selected or highlighted |
| Turn.CommitReports | main.c:570-581 | a kept move reports whether it captured and, when the new player to move has a king code on the board, whether that player is in check and whether it is checkmated; otherwise it reports the missing king |
| Turn.RollbackShape | main.c:498-591 | a move that was taken back left the mover in check, and is undone on its two squares only; the flags it set stay set, the turn does not pass, and the selection is cleared |
| Turn.MoveStandsIffSafe | main.c:570-588 | a legal move of the selected piece is kept iff the played board leaves the mover out of check, and taken back iff it leaves the mover in check |
| Turn.ClickSelects | main.c:489-496 | with nothing selected, a click selects exactly a piece of the player to move, and highlights its safe destinations; the position is unchanged |
| Turn.ClickRefusesIllegal | main.c:497-499 | with a piece selected, clicking it again deselects; another square is refused iff the legality test refuses the move; a refusal only clears the selection |
| Turn.ClickFlagsGrow | main.c:485-596 | castling rights are only ever lost: no click clears a flag |
| Turn.AttemptKeepsKing | main.c:498-586 | a move attempt, whether refused, kept or taken back, leaves the player to move with a king on the board, unless the committed move leaves no king code of the new player to move (outcome `MovedOpponentKingMissing`) |
| Turn.ClickKeepsKing | main.c:485-596 | after any click except a committed move that leaves no king code of the new player to move (outcome `MovedOpponentKingMissing`), the player to move still has a king on the board, so clicks can follow one another |
| Scenarios.InitialLowerRowsWhite | main.c:600-616 | rows 2 to 7 of the starting position hold no Black piece |
| Scenarios.BlackHomeRowsMiss | main.c:279-415 | no Black piece on its starting square in rows 0 and 1 has a move onto e1 |
| Scenarios.WhiteSafeAfterPush | main.c:254-276 | after e2-e3 or e2-e4 the king scan finds White's king on e1, and White is not in check |
| Scenarios.OpeningPawnPush | main.c:289-299 | from the starting position the e2 pawn may advance one or two squares, but not three |
| Scenarios.FirstClickOnE2 | main.c:489-496 | White's first click on e2 selects the pawn and highlights e3 and e4 but not e5; the board and the turn are unchanged |
| Scenarios.RookOnC8Attacks | main.c:254-276 | with only the two kings and a Black rook on c8, White's king on c1 is attacked only by the rook, and on e1 not at all |
| Scenarios.CastlingOntoC8FileAccepted | main.c:322-336 | with only the two kings and a Black rook on c8, queenside castling onto the attacked c1 passes the legality test, because the probes on d1 and c1 re-test the king on e1 |
| Scenarios.CastledKingInCheck | main.c:254-276 | once White's king has been copied onto c1, the rook on c8 gives check |
| Scenarios.CastlingIntoCheckRolledBack | main.c:498-588 | queenside castling onto the attacked c1 passes the legality test, because its probes re-test e1; the click makes the move, finds the king in check and takes it back, leaving the board and the turn as before but White's king flag set |
| Game.ChessGame.PathIsClear | main.c:374-381 | the stepping loop answers the path-clear test on the board |
| Game.ChessGame.FindKing | main.c:255-263 | the scan finds nothing iff p's king code is absent, otherwise the last square in row-major order holding it |
| Game.ChessGame.IsInCheck | main.c:254-276 | the method answers `Legality.IsInCheck` on the board, which it leaves unchanged though the legality calls probe it |
| Game.ChessGame.AttackerAt | main.c:266-273 | one square of the attack scan answers `Attacks` and leaves the board unchanged |
| Game.ChessGame.CastlingPathSafe | main.c:310-320 | the probe loop writes and restores each square and answers whether every probe was free of check |
| Game.ChessGame.TryCastling | main.c:303-368 | the castling branch answers `CastlingMove` and leaves the board unchanged |
| Game.ChessGame.PawnRule | main.c:289-299 | the pawn branch answers `PawnPattern` |
| Game.ChessGame.IsLegalMove | main.c:279-415 | the method answers `Legality.IsLegalMove` on the board and the flags, and leaves the board unchanged |
| Game.ChessGame.TrialMove | main.c:431-436 | the trial move answers the check test on the moved board, and restores the board |
| Game.ChessGame.EscapeTo | main.c:430-437 | one destination answers `EscapeMove` and leaves the board unchanged |
| Game.ChessGame.EscapeFrom | main.c:428-437 | the destination loops answer whether the piece has an escape, and leave the board unchanged |
| Game.ChessGame.IsCheckmate | main.c:418-442 | the method answers `Checkmate.IsCheckmate` and leaves the board unchanged |
| Game.ChessGame.ClearAvailableMoves | main.c:645-648 | every square of the grid is unmarked |
| Game.ChessGame.MarkSquare | main.c:663-679 | one destination is marked when it is an escape, and the board is unchanged |
| Game.ChessGame.MarkEscapes | main.c:660-679 | the marking loops produce the highlight grid for the selected piece, and the board is unchanged |
| Game.ChessGame.UpdateAvailableMoves | main.c:644-680 | the grid becomes `Highlights` of the current state, and the board is unchanged |
| Game.ChessGame.MarkMovedFlags | main.c:506-524 | the flags become `MarkMoved` of the old flags |
| Game.ChessGame.CastleRook | main.c:528-547 | the board becomes `RelocateRook` of the old board |
| Game.ChessGame.MarkKingMoveFlags | main.c:549-555 | the flags become `MarkKingMove` of the old flags |
| Game.ChessGame.PromotePawn | main.c:559-568 | the board becomes `Promote` of the old board |
| Game.ChessGame.PlayMove | main.c:501-568 | the board becomes `Played` and the flags `PlayedFlags`, and the captured and moved codes are returned |
| Game.ChessGame.TryMove | main.c:498-588 | the state and outcome are those of `Turn.Attempt` |
| Game.ChessGame.SettleMove | main.c:570-586 | the state and outcome are those of `Turn.Settle`: commit and pass the turn, or put back the two squares |
| Game.ChessGame.Click | main.c:485-596 | the new state and the outcome are exactly those of `Turn.Click` on the old state |
| Game.ChessGame.BoardInitializer | main.c:600-616 | the board becomes the starting position |
| Game.ChessGame.constructor | main.c:24-41 | the fresh engine is `Turn.NewGame`: the starting position, nothing selected or highlighted, no flag set, and the chosen starter to move |

## Left out

- Drawing, textures, window reshaping and `main`'s GLUT set-up are not modelled. They are foreign OpenGL, GLUT and image-loading calls.
- Sounds and console messages are not modelled. Each click instead returns an `Outcome`: off board, ignored, selected, deselected, illegal, left in check, or moved. A move reports whether it captured, whether the new player is in check and whether that player is checkmated. The winner line is not printed.
- The menu and credits screens (`gameState`, `inRect`) are not modelled. Changing the starter is not modelled either. The constructor takes the starter as a parameter.
- The pixel-to-square conversion is not modelled. `Click` takes a row and a column directly.
- `Game.ChessGame.IsInCheck` and `Legality.IsInCheck` require p's king code to be on the board. Without it, the C code indexes `board[-1][-1]`, which is undefined behaviour.
  - `Click` and `TryMove` therefore require the king of the player to move.
  - After a committed move that leaves no king code of the new player to move on the board, the model reports `MovedOpponentKingMissing`. It does not evaluate check or checkmate for a player with no king.
  - To decide this, `SettleMove` scans for that king once more before testing check. The C code does not.
- `availableMoves` keeps both writes of main.c:673 and 678, but both happen after `TrialMove` has taken the trial move back. In the C code the first write happens while the trial move is still on the board. The grid ends up the same either way.
- The board is a flat 64-entry array rather than `int[8][8]`. The layout is the same row-major one, and every square is addressed through `Sq(r, c) = 8r + c`.
- `Game.ChessGame.constructor`: the C globals start zero-initialised and `boardInitializer` runs later, in `main`. The constructor does both at once. Its starter parameter plays the part of the Start Game button setting `currentPlayer`.
