// One left click on the board while a game is in progress: selecting a
// piece, or trying to move the selected piece, with the castling flags,
// the rook relocation, the promotion, and the commit or roll-back of the
// move. This is the specification the class in game.dfy is proved against.
module Turn {
  import opened ChessPieces
  import opened ChessBoard
  import opened Legality
  import opened Checkmate
  import LegalityFacts

  /** Everything a click reads or writes. */
  datatype GameState = GameState(
    board: Board,
    availableMoves: seq<bool>,
    selectedRow: int,
    selectedCol: int,
    currentPlayer: Player,
    flags: Flags)

  predicate Valid(s: GameState)
  {
    |s.availableMoves| == 64 && ValidSelection(s.selectedRow, s.selectedCol)
  }

  /** What a click did; the engine reports these through sounds and console lines. */
  datatype Outcome =
    | OffBoard            // the square is outside the 8x8 grid: nothing happens
    | Ignored             // nothing selected, and the square holds no piece of the player to move
    | Selected            // a piece of the player to move is now selected
    | Deselected          // the selected square was clicked again
    | Illegal             // the legality test refused the move
    | LeftInCheck         // the move was made, left the mover in check, and was taken back
    | Moved(captured: bool, check: bool, checkmate: bool)
                          // the move stands and the turn passes; check and checkmate are of the new player to move
    | MovedOpponentKingMissing(captured: bool)
                          // the move stands, but the new player to move has no king code on the board

  datatype Step = Step(state: GameState, outcome: Outcome)

  /** The new game: the initial position, nothing selected or highlighted, no castling right lost. */
  function NewGame(starter: Player): (s: GameState)
    ensures Valid(s)
  {
    GameState(InitialBoard(), seq(64, _ => false), -1, -1, starter, NoneMoved)
  }

  /** The flag updates made after every move: a king leaving e1/e8, a rook leaving its corner. */
  function MarkMoved(f: Flags, moved: int, sr: int, sc: int): Flags
  {
    f.(whiteKingMoved := f.whiteKingMoved || (moved == 2 && sr == 7 && sc == 4),
       blackKingMoved := f.blackKingMoved || (moved == 12 && sr == 0 && sc == 4),
       whiteKingsideRookMoved := f.whiteKingsideRookMoved || (moved == 4 && sr == 7 && sc == 7),
       whiteQueensideRookMoved := f.whiteQueensideRookMoved || (moved == 4 && sr == 7 && sc == 0),
       blackKingsideRookMoved := f.blackKingsideRookMoved || (moved == 14 && sr == 0 && sc == 7),
       blackQueensideRookMoved := f.blackQueensideRookMoved || (moved == 14 && sr == 0 && sc == 0))
  }

  /**
   * The flag updates made after a king move that does not leave the king
   * attacked: the king flag from any origin. The four rook updates of the
   * same block are kept as written; they cannot fire there.
   */
  function MarkKingMove(f: Flags, moved: int, sr: int, sc: int): Flags
  {
    f.(whiteKingMoved := f.whiteKingMoved || moved == 2,
       blackKingMoved := f.blackKingMoved || moved == 12,
       whiteQueensideRookMoved := f.whiteQueensideRookMoved || (moved == 4 && sr == 7 && sc == 0),
       whiteKingsideRookMoved := f.whiteKingsideRookMoved || (moved == 4 && sr == 7 && sc == 7),
       blackQueensideRookMoved := f.blackQueensideRookMoved || (moved == 14 && sr == 0 && sc == 0),
       blackKingsideRookMoved := f.blackKingsideRookMoved || (moved == 14 && sr == 0 && sc == 7))
  }

  /** The second half of castling: whatever stands on the corner is carried next to the king. */
  function RelocateRook(b: Board, moved: int, sr: int, sc: int, tr: int, tc: int): Board
  {
    if moved == 2 && sr == 7 && sc == 4 && tr == 7 && tc == 6 then b[Sq(7, 5) := At(b, 7, 7)][Sq(7, 7) := 0]
    else if moved == 2 && sr == 7 && sc == 4 && tr == 7 && tc == 2 then b[Sq(7, 3) := At(b, 7, 0)][Sq(7, 0) := 0]
    else if moved == 12 && sr == 0 && sc == 4 && tr == 0 && tc == 6 then b[Sq(0, 5) := At(b, 0, 7)][Sq(0, 7) := 0]
    else if moved == 12 && sr == 0 && sc == 4 && tr == 0 && tc == 2 then b[Sq(0, 3) := At(b, 0, 0)][Sq(0, 0) := 0]
    else b
  }

  /** The last rank for p's pawns. */
  function PromotionRow(p: Player): int
  {
    if p == 0 then 0 else 7
  }

  /** A pawn that reached its last rank becomes a queen of its colour. */
  function Promote(b: Board, moved: int, tr: int, tc: int): Board
    requires InRange(tr, tc)
  {
    var piece, color := KindOf(moved), ColorOf(moved);
    if piece == 1 && ((color == 0 && tr == 0) || (color == 1 && tr == 7)) then b[Sq(tr, tc) := color * 10 + 3]
    else b
  }

  /**
   * The moved piece is a king and, standing on its destination, is not
   * attacked: the condition for the rook relocation and the second flag
   * update.
   */
  predicate KingMoveSafe(b: Board, p: Player, sr: int, sc: int, tr: int, tc: int)
    requires InRange(sr, sc) && InRange(tr, tc) && (sr, sc) != (tr, tc)
    requires ColorOf(At(b, sr, sc)) == p
  {
    var moved := At(b, sr, sc);
    var b1 := Apply(b, sr, sc, tr, tc);
    KindOf(moved) == 2 &&
      (CodeFromColorAndKind(moved, p, 2);
       assert b1[Sq(tr, tc)] == KingCode(p);
       !IsInCheck(b1, p))
  }

  /** The board after the move, the rook relocation and the promotion, before the final check test. */
  function Played(b: Board, p: Player, sr: int, sc: int, tr: int, tc: int): Board
    requires InRange(sr, sc) && InRange(tr, tc) && (sr, sc) != (tr, tc)
    requires ColorOf(At(b, sr, sc)) == p
  {
    var moved := At(b, sr, sc);
    var b1 := Apply(b, sr, sc, tr, tc);
    var b2 := if KingMoveSafe(b, p, sr, sc, tr, tc) then RelocateRook(b1, moved, sr, sc, tr, tc) else b1;
    Promote(b2, moved, tr, tc)
  }

  /** The flags after the move: both updates when the king move was safe, the first one otherwise. */
  function PlayedFlags(b: Board, f: Flags, p: Player, sr: int, sc: int, tr: int, tc: int): Flags
    requires InRange(sr, sc) && InRange(tr, tc) && (sr, sc) != (tr, tc)
    requires ColorOf(At(b, sr, sc)) == p
  {
    var moved := At(b, sr, sc);
    var f1 := MarkMoved(f, moved, sr, sc);
    if KingMoveSafe(b, p, sr, sc, tr, tc) then MarkKingMove(f1, moved, sr, sc) else f1
  }

  /** The mover's king code is still on the board after a legal move is played. */
  lemma PlayedKeepsKing(b: Board, f: Flags, p: Player, sr: int, sc: int, tr: int, tc: int)
    requires InRange(sr, sc) && InRange(tr, tc)
    requires KingPresent(b, p) && IsLegalMove(b, f, sr, sc, tr, tc, p)
    ensures KingPresent(Played(b, p, sr, sc, tr, tc), p)
  {
    LegalityFacts.LegalMoveGuards(b, f, sr, sc, tr, tc, p);
    var moved := At(b, sr, sc);
    var b3 := Played(b, p, sr, sc, tr, tc);
    if KindOf(moved) == 2 {
      CodeFromColorAndKind(moved, p, 2);
      assert b3[Sq(tr, tc)] == KingCode(p);
    } else {
      var k :| 0 <= k < 64 && b[k] == KingCode(p);
      assert k != Sq(sr, sc);
      assert k != Sq(tr, tc);
      assert b3[k] == KingCode(p);
    }
  }

  /**
   * A click on a square while a piece is selected, up to (not including) the
   * clearing of the selection.
   */
  function Attempt(s: GameState, row: int, col: int): Step
    requires Valid(s) && InRange(row, col) && InRange(s.selectedRow, s.selectedCol)
    requires KingPresent(s.board, s.currentPlayer)
  {
    var b, f, p, sr, sc := s.board, s.flags, s.currentPlayer, s.selectedRow, s.selectedCol;
    if sr == row && sc == col then Step(s, Deselected)
    else if !IsLegalMove(b, f, sr, sc, row, col, p) then Step(s, Illegal)
    else
      LegalityFacts.LegalMoveGuards(b, f, sr, sc, row, col, p);
      var moved, backup := At(b, sr, sc), At(b, row, col);
      var b3 := Played(b, p, sr, sc, row, col);
      var f2 := PlayedFlags(b, f, p, sr, sc, row, col);
      PlayedKeepsKing(b, f, p, sr, sc, row, col);
      Settle(s.(board := b3, flags := f2), row, col, moved, backup)
  }

  /**
   * The end of a move, on the state t holding the played board and the
   * updated flags: keep the move and pass the turn when the mover is not in
   * check, otherwise put back the two squares of the move.
   */
  function Settle(t: GameState, row: int, col: int, moved: int, backup: int): Step
    requires Valid(t) && InRange(row, col) && InRange(t.selectedRow, t.selectedCol)
    requires KingPresent(t.board, t.currentPlayer)
  {
    var b3, p := t.board, t.currentPlayer;
    if !IsInCheck(b3, p) then
      var q: Player := 1 - p;
      var next := t.(currentPlayer := q);
      if KingPresent(b3, q) then Step(next, Moved(backup != 0, IsInCheck(b3, q), IsCheckmate(b3, t.flags, q)))
      else Step(next, MovedOpponentKingMissing(backup != 0))
    else
      Step(t.(board := b3[Sq(t.selectedRow, t.selectedCol) := moved][Sq(row, col) := backup]), LeftInCheck)
  }

  /** The game branch of a left click on square (row, col). */
  function Click(s: GameState, row: int, col: int): (st: Step)
    requires Valid(s) && KingPresent(s.board, s.currentPlayer)
    ensures Valid(st.state)
  {
    if !InRange(row, col) then Step(s, OffBoard)
    else if s.selectedRow == -1 then
      var val := At(s.board, row, col);
      if val != 0 && s.currentPlayer == ColorOf(val) then
        Step(s.(selectedRow := row, selectedCol := col,
                availableMoves := Highlights(s.board, s.flags, s.currentPlayer, row, col)), Selected)
      else Step(s, Ignored)
    else
      var a := Attempt(s, row, col);
      Step(a.state.(selectedRow := -1, selectedCol := -1,
                    availableMoves := Highlights(a.state.board, a.state.flags, a.state.currentPlayer, -1, -1)),
           a.outcome)
  }

  predicate Committed(o: Outcome)
  {
    o.Moved? || o.MovedOpponentKingMissing?
  }

  // ----- properties of the played board -----

  /** A move that is neither a king move nor a promotion is played as the plain copy. */
  lemma PlayedPlainMove(b: Board, p: Player, sr: int, sc: int, tr: int, tc: int)
    requires InRange(sr, sc) && InRange(tr, tc) && (sr, sc) != (tr, tc)
    requires ColorOf(At(b, sr, sc)) == p
    requires KindOf(At(b, sr, sc)) != 2
    requires KindOf(At(b, sr, sc)) != 1 || tr != PromotionRow(p)
    ensures Played(b, p, sr, sc, tr, tc) == Apply(b, sr, sc, tr, tc)
  {
  }

  /** A pawn reaching its last rank is replaced there by a queen of its colour; its origin is emptied. */
  lemma PlayedPromotes(b: Board, p: Player, sr: int, sc: int, tr: int, tc: int)
    requires InRange(sr, sc) && InRange(tr, tc) && (sr, sc) != (tr, tc)
    requires ColorOf(At(b, sr, sc)) == p
    requires KindOf(At(b, sr, sc)) == 1 && tr == PromotionRow(p)
    ensures Decode(At(Played(b, p, sr, sc, tr, tc), tr, tc)) == Some(Piece(if p == 0 then White else Black, Queen))
    ensures At(Played(b, p, sr, sc, tr, tc), sr, sc) == 0
    ensures Played(b, p, sr, sc, tr, tc) == Apply(b, sr, sc, tr, tc)[Sq(tr, tc) := 10 * (p as int) + 3]
  {
    var b3 := Played(b, p, sr, sc, tr, tc);
    assert At(b3, tr, tc) == 10 * (p as int) + 3;
  }

  /**
   * Castling that leaves the king out of check: the king stands two squares
   * toward the corner, the piece from the corner stands on the square the
   * king crossed, the corner and the king's origin are empty, and the king
   * has lost its castling rights.
   */
  lemma PlayedCastles(b: Board, f: Flags, p: Player, tr: int, tc: int)
    requires tr == HomeRow(p) && (tc == 6 || tc == 2)
    requires At(b, HomeRow(p), 4) == KingCode(p)
    requires KingPresent(Played(b, p, HomeRow(p), 4, tr, tc), p)
    requires !IsInCheck(Played(b, p, HomeRow(p), 4, tr, tc), p)
    ensures var b3 := Played(b, p, HomeRow(p), 4, tr, tc);
      var corner, crossed := if tc == 6 then 7 else 0, if tc == 6 then 5 else 3;
      At(b3, tr, tc) == KingCode(p) && At(b3, tr, 4) == 0 &&
      At(b3, tr, crossed) == At(b, tr, corner) && At(b3, tr, corner) == 0
    ensures var corner, crossed := if tc == 6 then 7 else 0, if tc == 6 then 5 else 3;
      Played(b, p, HomeRow(p), 4, tr, tc) == Apply(b, tr, 4, tr, tc)[Sq(tr, crossed) := At(b, tr, corner)][Sq(tr, corner) := 0]
    ensures KingMoved(PlayedFlags(b, f, p, HomeRow(p), 4, tr, tc), p)
  {
    // Without the relocation the final board would be the plain copy, which
    // is then exactly the board the relocation test found safe.
    assert KingMoveSafe(b, p, HomeRow(p), 4, tr, tc);
  }

  /**
   * A king move that leaves the king attacked on its destination relocates
   * nothing and skips the second flag update: the board is the plain copy
   * and only the first flag update is made.
   */
  lemma AttackedKingNotRelocated(b: Board, f: Flags, p: Player, sr: int, sc: int, tr: int, tc: int)
    requires InRange(sr, sc) && InRange(tr, tc) && (sr, sc) != (tr, tc)
    requires ColorOf(At(b, sr, sc)) == p && KindOf(At(b, sr, sc)) == 2
    requires KingPresent(Apply(b, sr, sc, tr, tc), p) && IsInCheck(Apply(b, sr, sc, tr, tc), p)
    ensures Played(b, p, sr, sc, tr, tc) == Apply(b, sr, sc, tr, tc)
    ensures PlayedFlags(b, f, p, sr, sc, tr, tc) == MarkMoved(f, At(b, sr, sc), sr, sc)
  {
  }

  /** Taking back anything but a king move, on its two squares, restores the whole board. */
  lemma UndoRestores(b: Board, p: Player, sr: int, sc: int, tr: int, tc: int)
    requires InRange(sr, sc) && InRange(tr, tc) && (sr, sc) != (tr, tc)
    requires ColorOf(At(b, sr, sc)) == p
    requires KindOf(At(b, sr, sc)) != 2
    ensures Played(b, p, sr, sc, tr, tc)[Sq(sr, sc) := At(b, sr, sc)][Sq(tr, tc) := At(b, tr, tc)] == b
  {
    var b4 := Played(b, p, sr, sc, tr, tc)[Sq(sr, sc) := At(b, sr, sc)][Sq(tr, tc) := At(b, tr, tc)];
    forall k | 0 <= k < 64
      ensures b4[k] == b[k]
    {
    }
  }

  /** Playing a move only sets flags, and always sets those of the first update. */
  lemma PlayedFlagsGrow(b: Board, f: Flags, p: Player, sr: int, sc: int, tr: int, tc: int)
    requires InRange(sr, sc) && InRange(tr, tc) && (sr, sc) != (tr, tc)
    requires ColorOf(At(b, sr, sc)) == p
    ensures FlagsGrow(f, MarkMoved(f, At(b, sr, sc), sr, sc))
    ensures FlagsGrow(MarkMoved(f, At(b, sr, sc), sr, sc), PlayedFlags(b, f, p, sr, sc, tr, tc))
  {
  }

  /** The second flag update in the king block cannot touch a rook flag: it needs a king code. */
  lemma KingBlockSetsOnlyKingFlags(f: Flags, moved: int, sr: int, sc: int)
    requires KindOf(moved) == 2
    ensures var g := MarkKingMove(f, moved, sr, sc);
      g.whiteKingsideRookMoved == f.whiteKingsideRookMoved &&
      g.whiteQueensideRookMoved == f.whiteQueensideRookMoved &&
      g.blackKingsideRookMoved == f.blackKingsideRookMoved &&
      g.blackQueensideRookMoved == f.blackQueensideRookMoved
  {
  }

  // ----- properties of a click -----

  /**
   * A move stands only if it passed the legality test and its final board
   * leaves the mover out of check; the turn then passes to the other player
   * and the selection and highlights are cleared.
   */
  lemma CommitShape(s: GameState, row: int, col: int)
    requires Valid(s) && KingPresent(s.board, s.currentPlayer)
    requires Committed(Click(s, row, col).outcome)
    ensures InRange(row, col) && InRange(s.selectedRow, s.selectedCol) && (s.selectedRow, s.selectedCol) != (row, col)
    ensures IsLegalMove(s.board, s.flags, s.selectedRow, s.selectedCol, row, col, s.currentPlayer)
    ensures ColorOf(At(s.board, s.selectedRow, s.selectedCol)) == s.currentPlayer
    ensures var b3 := Played(s.board, s.currentPlayer, s.selectedRow, s.selectedCol, row, col);
      Click(s, row, col).state ==
        GameState(b3, seq(64, _ => false), -1, -1, 1 - s.currentPlayer,
                  PlayedFlags(s.board, s.flags, s.currentPlayer, s.selectedRow, s.selectedCol, row, col)) &&
      KingPresent(b3, s.currentPlayer) && !IsInCheck(b3, s.currentPlayer)
  {
    var a := Attempt(s, row, col);
    NoSelectionNoHighlights(a.state.board, a.state.flags, a.state.currentPlayer, -1, -1);
    LegalityFacts.LegalMoveGuards(s.board, s.flags, s.selectedRow, s.selectedCol, row, col, s.currentPlayer);
    PlayedKeepsKing(s.board, s.flags, s.currentPlayer, s.selectedRow, s.selectedCol, row, col);
  }

  /**
   * What a kept move reports: whether it captured, and, when the new player
   * to move has a king code on the board, whether that player is in check
   * and whether it is checkmated.
   */
  lemma CommitReports(s: GameState, row: int, col: int)
    requires Valid(s) && KingPresent(s.board, s.currentPlayer)
    requires Committed(Click(s, row, col).outcome)
    ensures InRange(row, col)
    ensures var st := Click(s, row, col);
      var q := st.state.currentPlayer;
      var captured := At(s.board, row, col) != 0;
      st.outcome ==
        if KingPresent(st.state.board, q) then
          Moved(captured, IsInCheck(st.state.board, q), IsCheckmate(st.state.board, st.state.flags, q))
        else MovedOpponentKingMissing(captured)
  {
    CommitShape(s, row, col);
    LegalityFacts.LegalMoveGuards(s.board, s.flags, s.selectedRow, s.selectedCol, row, col, s.currentPlayer);
    PlayedKeepsKing(s.board, s.flags, s.currentPlayer, s.selectedRow, s.selectedCol, row, col);
  }

  /**
   * A move that left the mover in check is taken back on its two squares
   * only; the turn does not pass, the flags keep what the move set, and the
   * selection and highlights are cleared.
   */
  lemma RollbackShape(s: GameState, row: int, col: int)
    requires Valid(s) && KingPresent(s.board, s.currentPlayer)
    requires Click(s, row, col).outcome == LeftInCheck
    ensures InRange(row, col) && InRange(s.selectedRow, s.selectedCol) && (s.selectedRow, s.selectedCol) != (row, col)
    ensures IsLegalMove(s.board, s.flags, s.selectedRow, s.selectedCol, row, col, s.currentPlayer)
    ensures ColorOf(At(s.board, s.selectedRow, s.selectedCol)) == s.currentPlayer
    ensures var sr, sc, p := s.selectedRow, s.selectedCol, s.currentPlayer;
      var b3 := Played(s.board, p, sr, sc, row, col);
      Click(s, row, col).state ==
        GameState(b3[Sq(sr, sc) := At(s.board, sr, sc)][Sq(row, col) := At(s.board, row, col)],
                  seq(64, _ => false), -1, -1, p, PlayedFlags(s.board, s.flags, p, sr, sc, row, col)) &&
      KingPresent(b3, p) && IsInCheck(b3, p)
  {
    var a := Attempt(s, row, col);
    NoSelectionNoHighlights(a.state.board, a.state.flags, a.state.currentPlayer, -1, -1);
    LegalityFacts.LegalMoveGuards(s.board, s.flags, s.selectedRow, s.selectedCol, row, col, s.currentPlayer);
    PlayedKeepsKing(s.board, s.flags, s.currentPlayer, s.selectedRow, s.selectedCol, row, col);
  }

  /**
   * A legal move of the selected piece stands exactly when the played board
   * leaves the mover out of check, and is taken back exactly when it does
   * not.
   */
  lemma MoveStandsIffSafe(s: GameState, row: int, col: int)
    requires Valid(s) && KingPresent(s.board, s.currentPlayer)
    requires InRange(row, col) && s.selectedRow != -1 && (s.selectedRow, s.selectedCol) != (row, col)
    requires IsLegalMove(s.board, s.flags, s.selectedRow, s.selectedCol, row, col, s.currentPlayer)
    ensures ColorOf(At(s.board, s.selectedRow, s.selectedCol)) == s.currentPlayer
    ensures KingPresent(Played(s.board, s.currentPlayer, s.selectedRow, s.selectedCol, row, col), s.currentPlayer)
    ensures var b3 := Played(s.board, s.currentPlayer, s.selectedRow, s.selectedCol, row, col);
      (Committed(Click(s, row, col).outcome) <==> !IsInCheck(b3, s.currentPlayer)) &&
      (Click(s, row, col).outcome == LeftInCheck <==> IsInCheck(b3, s.currentPlayer))
  {
    LegalityFacts.LegalMoveGuards(s.board, s.flags, s.selectedRow, s.selectedCol, row, col, s.currentPlayer);
    PlayedKeepsKing(s.board, s.flags, s.currentPlayer, s.selectedRow, s.selectedCol, row, col);
  }

  /**
   * With nothing selected, a click on the board selects exactly a piece of
   * the player to move, and the highlights are then that piece's safe
   * destinations; the position is untouched either way.
   */
  lemma ClickSelects(s: GameState, row: int, col: int)
    requires Valid(s) && KingPresent(s.board, s.currentPlayer)
    requires s.selectedRow == -1 && InRange(row, col)
    ensures var st := Click(s, row, col);
      (st.outcome == Selected <==> At(s.board, row, col) != 0 && ColorOf(At(s.board, row, col)) == s.currentPlayer) &&
      (st.outcome == Selected || st.outcome == Ignored) &&
      st.state.board == s.board && st.state.flags == s.flags && st.state.currentPlayer == s.currentPlayer &&
      (st.outcome == Selected ==>
        st.state.selectedRow == row && st.state.selectedCol == col &&
        forall r, c | 0 <= r < 8 && 0 <= c < 8 ::
          st.state.availableMoves[Sq(r, c)] == Highlighted(s.board, s.flags, s.currentPlayer, row, col, r, c))
  {
  }

  /**
   * With a piece selected, a click elsewhere is refused exactly when the
   * legality test refuses the move; a refused move, like a click on the
   * selected square, changes nothing but the selection, which is cleared.
   */
  lemma ClickRefusesIllegal(s: GameState, row: int, col: int)
    requires Valid(s) && KingPresent(s.board, s.currentPlayer)
    requires s.selectedRow != -1 && InRange(row, col)
    ensures var st := Click(s, row, col);
      ((row, col) == (s.selectedRow, s.selectedCol) <==> st.outcome == Deselected) &&
      ((row, col) != (s.selectedRow, s.selectedCol) ==>
        (st.outcome == Illegal <==> !IsLegalMove(s.board, s.flags, s.selectedRow, s.selectedCol, row, col, s.currentPlayer))) &&
      (st.outcome == Illegal || st.outcome == Deselected ==>
        st.state == s.(selectedRow := -1, selectedCol := -1, availableMoves := seq(64, _ => false)))
  {
    var a := Attempt(s, row, col);
    NoSelectionNoHighlights(a.state.board, a.state.flags, a.state.currentPlayer, -1, -1);
  }

  /** Castling rights are only ever lost: no click clears a flag. */
  lemma ClickFlagsGrow(s: GameState, row: int, col: int)
    requires Valid(s) && KingPresent(s.board, s.currentPlayer)
    ensures FlagsGrow(s.flags, Click(s, row, col).state.flags)
  {
    var o := Click(s, row, col).outcome;
    if Committed(o) {
      CommitShape(s, row, col);
      PlayedFlagsGrow(s.board, s.flags, s.currentPlayer, s.selectedRow, s.selectedCol, row, col);
    } else if o == LeftInCheck {
      RollbackShape(s, row, col);
      PlayedFlagsGrow(s.board, s.flags, s.currentPlayer, s.selectedRow, s.selectedCol, row, col);
    }
  }

  /**
   * The move attempt of a click keeps a king of the player to move on the
   * board, unless the committed move leaves no king code of the new player
   * to move (outcome MovedOpponentKingMissing).
   */
  lemma AttemptKeepsKing(s: GameState, row: int, col: int)
    requires Valid(s) && InRange(row, col) && InRange(s.selectedRow, s.selectedCol)
    requires KingPresent(s.board, s.currentPlayer)
    requires !Attempt(s, row, col).outcome.MovedOpponentKingMissing?
    ensures KingPresent(Attempt(s, row, col).state.board, Attempt(s, row, col).state.currentPlayer)
  {
    var b, f, p, sr, sc := s.board, s.flags, s.currentPlayer, s.selectedRow, s.selectedCol;
    if (sr, sc) != (row, col) && IsLegalMove(b, f, sr, sc, row, col, p) {
      LegalityFacts.LegalMoveGuards(b, f, sr, sc, row, col, p);
      PlayedKeepsKing(b, f, p, sr, sc, row, col);
      var moved, backup := At(b, sr, sc), At(b, row, col);
      var b3 := Played(b, p, sr, sc, row, col);
      if IsInCheck(b3, p) {
        var rolled := b3[Sq(sr, sc) := moved][Sq(row, col) := backup];
        assert Attempt(s, row, col).state.board == rolled;
        if KindOf(moved) == 2 {
          CodeFromColorAndKind(moved, p, 2);
          assert rolled[Sq(sr, sc)] == KingCode(p);
        } else {
          var k :| 0 <= k < 64 && b[k] == KingCode(p);
          assert ColorOf(KingCode(p)) == p;
          assert k != Sq(sr, sc) && k != Sq(row, col);
          assert rolled[k] == b3[k] == b[k];
        }
      }
    }
  }

  /**
   * After any click but a committed move that leaves no king code of the
   * new player to move (outcome MovedOpponentKingMissing), the
   * player to move has a king on the board, so the next click is defined.
   */
  lemma ClickKeepsKing(s: GameState, row: int, col: int)
    requires Valid(s) && KingPresent(s.board, s.currentPlayer)
    requires !Click(s, row, col).outcome.MovedOpponentKingMissing?
    ensures KingPresent(Click(s, row, col).state.board, Click(s, row, col).state.currentPlayer)
  {
    if InRange(row, col) && s.selectedRow != -1 {
      AttemptKeepsKing(s, row, col);
    }
  }
}
