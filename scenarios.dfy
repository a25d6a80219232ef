// Concrete positions played through the model: the opening pawn push from
// the starting position, the first click of a game, and queenside castling
// onto an attacked square, which the legality test accepts and the click
// then takes back.
module Scenarios {
  import opened ChessPieces
  import opened ChessBoard
  import opened Legality
  import opened Checkmate
  import opened Turn
  import LegalityFacts

  /** The starting position after White's e-pawn went to row tr (e3 for 5, e4 for 4). */
  function AfterPush(tr: int): Board
    requires tr == 4 || tr == 5
  {
    Apply(InitialBoard(), 6, 4, tr, 4)
  }

  /** Rows 2 to 7 of the starting position hold no Black piece. */
  lemma InitialLowerRowsWhite(r: int, c: int)
    requires 2 <= r < 8 && 0 <= c < 8
    ensures 0 <= At(InitialBoard(), r, c) < 10
  {
    SqCoords(r, c);
  }

  /** No Black piece of the starting rows 0 and 1 can reach e1 in one move. */
  lemma BlackHomeRowsMiss(b: Board, r: int, c: int)
    requires 0 <= r < 2 && 0 <= c < 8
    requires At(b, r, c) == InitialCell(r, c) && At(b, 7, 4) == 2
    ensures !PieceMove(b, r, c, 7, 4, 1)
  {
    if r == 0 {
      assert c == 0 || c == 1 || c == 2 || c == 3 || c == 4 || c == 5 || c == 6 || c == 7;
    }
  }

  /** After e2-e3 or e2-e4 White's king is still alone on e1 and nothing attacks it. */
  lemma WhiteSafeAfterPush(tr: int)
    requires tr == 4 || tr == 5
    ensures KingPresent(AfterPush(tr), 0) && KingSquare(AfterPush(tr), 0) == Sq(7, 4)
    ensures !IsInCheck(AfterPush(tr), 0)
  {
    var b0 := InitialBoard();
    var b := AfterPush(tr);
    InitialKings();
    assert b[60] == 2 && b[61] != 2 && b[62] != 2 && b[63] != 2;
    forall r, c | 0 <= r < 8 && 0 <= c < 8
      ensures !Attacks(b, 0, r, c, 7, 4)
    {
      SqCoords(r, c);
      if r >= 2 {
        InitialLowerRowsWhite(r, c);
        assert 0 <= At(b, r, c) < 10;
      } else {
        assert At(b, r, c) == At(b0, r, c) == InitialCell(r, c);
        BlackHomeRowsMiss(b, r, c);
      }
    }
  }

  /**
   * From the starting position White may push the e-pawn one or two
   * squares, but not three.
   */
  lemma OpeningPawnPush()
    ensures IsLegalMove(InitialBoard(), NoneMoved, 6, 4, 5, 4, 0)
    ensures IsLegalMove(InitialBoard(), NoneMoved, 6, 4, 4, 4, 0)
    ensures !IsLegalMove(InitialBoard(), NoneMoved, 6, 4, 3, 4, 0)
  {
    var b := InitialBoard();
    assert At(b, 6, 4) == 1 && At(b, 5, 4) == 0 && At(b, 4, 4) == 0 && At(b, 3, 4) == 0;
    LegalityFacts.PawnRuleHolds(b, NoneMoved, 6, 4, 5, 4, 0);
    LegalityFacts.PawnRuleHolds(b, NoneMoved, 6, 4, 4, 4, 0);
    LegalityFacts.PawnRuleHolds(b, NoneMoved, 6, 4, 3, 4, 0);
  }

  /**
   * The first click of a game where White starts, on the e2 pawn, selects it
   * and highlights e3 and e4 and not e5.
   */
  lemma FirstClickOnE2()
    ensures KingPresent(NewGame(0).board, 0) &&
      var st := Click(NewGame(0), 6, 4);
      st.outcome == Selected && st.state.selectedRow == 6 && st.state.selectedCol == 4 &&
      st.state.board == InitialBoard() && st.state.currentPlayer == 0 &&
      st.state.availableMoves[Sq(5, 4)] && st.state.availableMoves[Sq(4, 4)] &&
      !st.state.availableMoves[Sq(3, 4)]
  {
    InitialKings();
    var s := NewGame(0);
    assert At(s.board, 6, 4) == 1;
    OpeningPawnPush();
    WhiteSafeAfterPush(5);
    WhiteSafeAfterPush(4);
    var h := Highlights(s.board, s.flags, 0, 6, 4);
    assert h[Sq(5, 4)] == Highlighted(s.board, s.flags, 0, 6, 4, 5, 4);
    assert h[Sq(4, 4)] == Highlighted(s.board, s.flags, 0, 6, 4, 4, 4);
    assert h[Sq(3, 4)] == Highlighted(s.board, s.flags, 0, 6, 4, 3, 4);
  }

  /** White's king on e1, Black's king on e8 and a Black rook on c8; nothing else. */
  function RookOnC8(): Board
  {
    seq(64, k requires 0 <= k < 64 => if k == 2 then 14 else if k == 4 then 12 else if k == 60 then 2 else 0)
  }

  /** With the king on (7, kc) and nothing else White's, only the rook on c8 can attack it, and only on the c-file. */
  lemma RookOnC8Attacks(b: Board, kc: int)
    requires kc == 2 || kc == 4
    requires forall k | 0 <= k < 64 && k != 2 && k != 4 :: b[k] == 0 || b[k] == 2
    requires b[2] == 14 && b[4] == 12 && b[Sq(7, kc)] == 2
    requires kc == 2 ==> forall r | 1 <= r < 7 :: At(b, r, 2) == 0
    ensures forall r, c | 0 <= r < 8 && 0 <= c < 8 :: Attacks(b, 0, r, c, 7, kc) <==> kc == 2 && r == 0 && c == 2
  {
    forall r, c | 0 <= r < 8 && 0 <= c < 8
      ensures Attacks(b, 0, r, c, 7, kc) <==> kc == 2 && r == 0 && c == 2
    {
      if r == 0 && c == 2 && kc == 2 {
        assert LegalityFacts.EmptyAfter(b, 0, 2, 1, 0, 6) by {
          forall k | 1 <= k <= 6 ensures At(b, 0 + Offset(k, 1), 2 + Offset(k, 0)) == 0 {
            assert At(b, k, 2) == 0;
          }
        }
        LegalityFacts.SliderRule(b, NoneMoved, 0, 2, 7, 2, 1);
        LegalityFacts.LegalOntoOccupied(b, NoneMoved, 0, 2, 7, 2, 1);
      } else if Sq(r, c) == 2 || Sq(r, c) == 4 {
        SqCoords(r, c);
      } else {
        assert b[Sq(r, c)] == 0 || b[Sq(r, c)] == 2;
      }
    }
  }

  /** Queenside castling onto c1 passes the legality test: its probes on d1 and c1 re-test the king on e1. */
  lemma CastlingOntoC8FileAccepted()
    ensures KingPresent(RookOnC8(), 0) && IsLegalMove(RookOnC8(), NoneMoved, 7, 4, 7, 2, 0)
  {
    var b := RookOnC8();
    assert b[60] == 2 && b[61] == 0 && b[62] == 0 && b[63] == 0;
    assert KingSquare(b, 0) == Sq(7, 4);
    RookOnC8Attacks(b, 4);
    assert !IsInCheck(b, 0);
    LegalityFacts.QueensideProbesTestOnlyE(b, 0);
    LegalityFacts.CastlingRuleQueenside(b, NoneMoved, 0);
  }

  /** Once the king stands on c1, the rook on c8 gives check. */
  lemma CastledKingInCheck()
    ensures KingPresent(Apply(RookOnC8(), 7, 4, 7, 2), 0) && IsInCheck(Apply(RookOnC8(), 7, 4, 7, 2), 0)
  {
    var b1 := Apply(RookOnC8(), 7, 4, 7, 2);
    assert b1 == RookOnC8()[58 := 2][60 := 0];
    assert b1[58] == 2 && b1[59] == 0 && b1[60] == 0 && b1[61] == 0 && b1[62] == 0 && b1[63] == 0;
    assert KingSquare(b1, 0) == 58 && 58 / 8 == 7 && 58 % 8 == 2;
    RookOnC8Attacks(b1, 2);
    assert Attacks(b1, 0, 0, 2, 7, 2);
  }

  /**
   * Queenside castling onto c1, which the rook on c8 attacks: the legality
   * test accepts it, the click makes the move, finds the king in check and
   * takes it back. The position and the player to move are as before, but
   * White has lost its castling rights.
   */
  lemma CastlingIntoCheckRolledBack()
    ensures var s := GameState(RookOnC8(), seq(64, _ => false), 7, 4, 0, NoneMoved);
      Valid(s) && KingPresent(s.board, 0) &&
      IsLegalMove(s.board, NoneMoved, 7, 4, 7, 2, 0) &&
      var st := Click(s, 7, 2);
      st.outcome == LeftInCheck && st.state.board == RookOnC8() && st.state.currentPlayer == 0 &&
      st.state.selectedRow == -1 && st.state.flags.whiteKingMoved
  {
    var b := RookOnC8();
    CastlingOntoC8FileAccepted();
    CastledKingInCheck();
    var b1 := Apply(b, 7, 4, 7, 2);
    assert At(b, 7, 4) == 2;
    assert !KingMoveSafe(b, 0, 7, 4, 7, 2);
    assert Played(b, 0, 7, 4, 7, 2) == b1;
    assert PlayedFlags(b, NoneMoved, 0, 7, 4, 7, 2).whiteKingMoved;
    assert b1[Sq(7, 4) := 2][Sq(7, 2) := 0] == b;
  }
}
