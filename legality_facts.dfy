// What the legality and check tests promise, stated against independent
// descriptions of the piece rules.
module LegalityFacts {
  import opened ChessPieces
  import opened ChessBoard
  import opened Legality

  /**
   * Every legal move moves a piece of the mover onto a square that does not
   * hold one of the mover's pieces; in particular it is never the null move.
   */
  lemma LegalMoveGuards(b: Board, f: Flags, fr: int, fc: int, tr: int, tc: int, mover: int)
    requires InRange(fr, fc) && InRange(tr, tc)
    requires IsLegalMove(b, f, fr, fc, tr, tc, mover)
    ensures At(b, fr, fc) != 0 && ColorOf(At(b, fr, fc)) == mover
    ensures !(At(b, tr, tc) != 0 && ColorOf(At(b, tr, tc)) == mover)
    ensures (fr, fc) != (tr, tc)
  {
  }

  lemma OffsetSucc(k: int, s: int)
    requires -1 <= s <= 1
    ensures Offset(k + 1, s) == s + Offset(k, s)
  {
  }

  /** The m squares of the run from (r, c) in steps of (sr, sc) are all empty. */
  predicate RunEmpty(b: Board, r: int, c: int, sr: int, sc: int, m: nat)
    requires UnitStep(sr, sc)
    requires m > 0 ==> InRange(r, c) && InRange(r + Offset(m - 1, sr), c + Offset(m - 1, sc))
  {
    forall k | 0 <= k < m :: At(b, r + Offset(k, sr), c + Offset(k, sc)) == 0
  }

  lemma {:induction false} ClearFromRunEmpty(b: Board, r: int, c: int, sr: int, sc: int, m: nat)
    requires UnitStep(sr, sc)
    requires m > 0 ==> InRange(r, c) && InRange(r + Offset(m - 1, sr), c + Offset(m - 1, sc))
    requires ClearFrom(b, r, c, sr, sc, m)
    ensures RunEmpty(b, r, c, sr, sc, m)
    decreases m
  {
    if m > 0 {
      var r', c' := r + sr, c + sc;
      ClearFromRunEmpty(b, r', c', sr, sc, m - 1);
      forall k | 0 <= k < m
        ensures At(b, r + Offset(k, sr), c + Offset(k, sc)) == 0
      {
        if k > 0 {
          OffsetSucc(k - 1, sr);
          OffsetSucc(k - 1, sc);
          assert At(b, r' + Offset(k - 1, sr), c' + Offset(k - 1, sc)) == 0;
        }
      }
    }
  }

  lemma {:induction false} RunEmptyClearFrom(b: Board, r: int, c: int, sr: int, sc: int, m: nat)
    requires UnitStep(sr, sc)
    requires m > 0 ==> InRange(r, c) && InRange(r + Offset(m - 1, sr), c + Offset(m - 1, sc))
    requires RunEmpty(b, r, c, sr, sc, m)
    ensures ClearFrom(b, r, c, sr, sc, m)
    decreases m
  {
    if m > 0 {
      var r', c' := r + sr, c + sc;
      forall k | 0 <= k < m - 1
        ensures At(b, r' + Offset(k, sr), c' + Offset(k, sc)) == 0
      {
        OffsetSucc(k, sr);
        OffsetSucc(k, sc);
        assert At(b, r + Offset(k + 1, sr), c + Offset(k + 1, sc)) == 0;
      }
      assert At(b, r + Offset(0, sr), c + Offset(0, sc)) == 0;
      RunEmptyClearFrom(b, r', c', sr, sc, m - 1);
    }
  }

  /**
   * Every point of a line move, from its origin (k = 0) to its destination
   * (k = its distance), is on the board, and only the last one is the
   * destination.
   */
  lemma LinePoint(fr: int, fc: int, tr: int, tc: int, k: int)
    requires InRange(fr, fc) && InRange(tr, tc) && OnLine(tr - fr, tc - fc)
    requires 0 <= k <= Distance(tr - fr, tc - fc)
    ensures InRange(fr + Offset(k, Sign(tr - fr)), fc + Offset(k, Sign(tc - fc)))
    ensures fr + Offset(k, Sign(tr - fr)) == tr && fc + Offset(k, Sign(tc - fc)) == tc <==>
      k == Distance(tr - fr, tc - fc)
  {
    var dr, dc := tr - fr, tc - fc;
    assert dr != 0 ==> Abs(dr) == Distance(dr, dc);
    assert dc != 0 ==> Abs(dc) == Distance(dr, dc);
  }

  /** Squares 1 .. m steps from (r, c) along (sr, sc) are empty. */
  predicate EmptyAfter(b: Board, r: int, c: int, sr: int, sc: int, m: nat)
    requires UnitStep(sr, sc)
    requires m > 0 ==> InRange(r + sr, c + sc) && InRange(r + Offset(m, sr), c + Offset(m, sc))
  {
    forall k | 1 <= k <= m :: At(b, r + Offset(k, sr), c + Offset(k, sc)) == 0
  }

  lemma RunShiftOut(b: Board, r: int, c: int, sr: int, sc: int, m: nat)
    requires UnitStep(sr, sc) && m > 0
    requires InRange(r + sr, c + sc) && InRange(r + Offset(m, sr), c + Offset(m, sc))
    requires InRange(r + sr + Offset(m - 1, sr), c + sc + Offset(m - 1, sc))
    requires RunEmpty(b, r + sr, c + sc, sr, sc, m)
    ensures EmptyAfter(b, r, c, sr, sc, m)
  {
    forall k | 1 <= k <= m
      ensures At(b, r + Offset(k, sr), c + Offset(k, sc)) == 0
    {
      OffsetSucc(k - 1, sr);
      OffsetSucc(k - 1, sc);
      assert At(b, r + sr + Offset(k - 1, sr), c + sc + Offset(k - 1, sc)) == 0;
    }
  }

  lemma RunShiftIn(b: Board, r: int, c: int, sr: int, sc: int, m: nat)
    requires UnitStep(sr, sc) && m > 0
    requires InRange(r + sr, c + sc) && InRange(r + Offset(m, sr), c + Offset(m, sc))
    requires InRange(r + sr + Offset(m - 1, sr), c + sc + Offset(m - 1, sc))
    requires EmptyAfter(b, r, c, sr, sc, m)
    ensures RunEmpty(b, r + sr, c + sc, sr, sc, m)
  {
    forall k | 0 <= k < m
      ensures At(b, r + sr + Offset(k, sr), c + sc + Offset(k, sc)) == 0
    {
      OffsetSucc(k, sr);
      OffsetSucc(k, sc);
      assert At(b, r + Offset(k + 1, sr), c + Offset(k + 1, sc)) == 0;
    }
  }

  /** Squares 1 .. n-1 of the straight line from (fr, fc) toward (tr, tc), n its length, are empty. */
  predicate EmptyBetween(b: Board, fr: int, fc: int, tr: int, tc: int)
    requires InRange(fr, fc) && InRange(tr, tc) && OnLine(tr - fr, tc - fc)
  {
    var n := Distance(tr - fr, tc - fc);
    n <= 1 ||
      (LinePoint(fr, fc, tr, tc, 1);
       LinePoint(fr, fc, tr, tc, n - 1);
       EmptyAfter(b, fr, fc, Sign(tr - fr), Sign(tc - fc), n - 1))
  }

  /** The loop's run after (r, c) is clear exactly when the squares 1 .. m steps from (r, c) are empty. */
  lemma ClearFromIffEmptyAfter(b: Board, r: int, c: int, sr: int, sc: int, m: nat)
    requires UnitStep(sr, sc) && m > 0
    requires InRange(r + sr, c + sc) && InRange(r + Offset(m, sr), c + Offset(m, sc))
    ensures InRange(r + sr + Offset(m - 1, sr), c + sc + Offset(m - 1, sc))
    ensures ClearFrom(b, r + sr, c + sc, sr, sc, m) <==> EmptyAfter(b, r, c, sr, sc, m)
  {
    OffsetSucc(m - 1, sr);
    OffsetSucc(m - 1, sc);
    if ClearFrom(b, r + sr, c + sc, sr, sc, m) {
      ClearFromRunEmpty(b, r + sr, c + sc, sr, sc, m);
      RunShiftOut(b, r, c, sr, sc, m);
    }
    if EmptyAfter(b, r, c, sr, sc, m) {
      RunShiftIn(b, r, c, sr, sc, m);
      RunEmptyClearFrom(b, r + sr, c + sc, sr, sc, m);
    }
  }

  /** The line loop agrees with "every square strictly between origin and destination is empty". */
  lemma PathClearBetween(b: Board, fr: int, fc: int, tr: int, tc: int)
    requires InRange(fr, fc) && InRange(tr, tc) && OnLine(tr - fr, tc - fc)
    ensures PathClear(b, fr, fc, tr, tc) <==> EmptyBetween(b, fr, fc, tr, tc)
  {
    var n := Distance(tr - fr, tc - fc);
    if n > 1 {
      LinePoint(fr, fc, tr, tc, 1);
      LinePoint(fr, fc, tr, tc, n - 1);
      ClearFromIffEmptyAfter(b, fr, fc, Sign(tr - fr), Sign(tc - fc), n - 1);
    }
  }

  /** The lines a slider moves along: queen (3) any line, rook (4) ranks and files, bishop (5) diagonals. */
  predicate SliderLine(kind: int, dr: int, dc: int)
  {
    (kind == 3 && (dr == 0 || dc == 0 || Abs(dr) == Abs(dc))) ||
    (kind == 4 && (dr == 0 || dc == 0)) ||
    (kind == 5 && Abs(dr) == Abs(dc))
  }

  /**
   * A queen, rook or bishop of the mover may go exactly where its line
   * reaches with every square strictly between origin and destination empty.
   */
  lemma SliderRule(b: Board, f: Flags, fr: int, fc: int, tr: int, tc: int, mover: int)
    requires InRange(fr, fc) && InRange(tr, tc)
    requires 3 <= KindOf(At(b, fr, fc)) <= 5
    requires Guards(b, fr, fc, tr, tc, mover)
    ensures IsLegalMove(b, f, fr, fc, tr, tc, mover) <==>
      SliderLine(KindOf(At(b, fr, fc)), tr - fr, tc - fc) && EmptyBetween(b, fr, fc, tr, tc)
  {
    if OnLine(tr - fr, tc - fc) {
      PathClearBetween(b, fr, fc, tr, tc);
    }
  }

  /** A slider cannot pass an occupied square: nothing beyond a blocker along the line is reachable. */
  lemma SliderBlocked(b: Board, f: Flags, fr: int, fc: int, tr: int, tc: int, mover: int, k: int)
    requires InRange(fr, fc) && InRange(tr, tc)
    requires 3 <= KindOf(At(b, fr, fc)) <= 5
    requires OnLine(tr - fr, tc - fc)
    requires 1 <= k < Distance(tr - fr, tc - fc)
    requires InRange(fr + Offset(k, Sign(tr - fr)), fc + Offset(k, Sign(tc - fc)))
    requires At(b, fr + Offset(k, Sign(tr - fr)), fc + Offset(k, Sign(tc - fc))) != 0
    ensures !IsLegalMove(b, f, fr, fc, tr, tc, mover)
  {
    if Guards(b, fr, fc, tr, tc, mover) {
      SliderRule(b, f, fr, fc, tr, tc, mover);
    }
  }

  /** A knight of the mover may make exactly the eight (1, 2) / (2, 1) jumps, whatever stands between. */
  lemma KnightRule(b: Board, f: Flags, fr: int, fc: int, tr: int, tc: int, mover: int)
    requires InRange(fr, fc) && InRange(tr, tc)
    requires KindOf(At(b, fr, fc)) == 6
    ensures IsLegalMove(b, f, fr, fc, tr, tc, mover) <==>
      Guards(b, fr, fc, tr, tc, mover) &&
      ((Abs(tr - fr) == 1 && Abs(tc - fc) == 2) || (Abs(tr - fr) == 2 && Abs(tc - fc) == 1))
  {
  }

  /** The knight's verdict depends only on the origin and destination squares. */
  lemma KnightJumps(b: Board, b': Board, f: Flags, fr: int, fc: int, tr: int, tc: int, mover: int)
    requires InRange(fr, fc) && InRange(tr, tc)
    requires KindOf(At(b, fr, fc)) == 6
    requires At(b', fr, fc) == At(b, fr, fc) && At(b', tr, tc) == At(b, tr, tc)
    ensures IsLegalMove(b, f, fr, fc, tr, tc, mover) == IsLegalMove(b', f, fr, fc, tr, tc, mover)
  {
    KnightRule(b, f, fr, fc, tr, tc, mover);
    KnightRule(b', f, fr, fc, tr, tc, mover);
  }

  /** The row direction p's pawns advance in: White toward row 0, Black toward row 7. */
  function Forward(p: Player): int
  {
    if p == 0 then -1 else 1
  }

  /** The row from which p's pawns may advance two squares. */
  function PawnStartRow(p: Player): int
  {
    if p == 0 then 6 else 1
  }

  /**
   * A pawn of p moves one square forward onto an empty square, two squares
   * forward from its start row over an empty square onto an empty square,
   * or one square diagonally forward onto a piece of the other colour.
   */
  lemma PawnRuleHolds(b: Board, f: Flags, fr: int, fc: int, tr: int, tc: int, p: Player)
    requires InRange(fr, fc) && InRange(tr, tc)
    requires KindOf(At(b, fr, fc)) == 1 && ColorOf(At(b, fr, fc)) == p
    ensures IsLegalMove(b, f, fr, fc, tr, tc, p) <==>
      (tr == fr + Forward(p) && tc == fc && At(b, tr, tc) == 0) ||
      (fr == PawnStartRow(p) && tr == fr + 2 * Forward(p) && tc == fc &&
       At(b, fr + Forward(p), fc) == 0 && At(b, tr, tc) == 0) ||
      (tr == fr + Forward(p) && Abs(tc - fc) == 1 && At(b, tr, tc) != 0 && ColorOf(At(b, tr, tc)) == 1 - p)
  {
  }

  /** A pawn never moves backward or sideways. */
  lemma PawnAdvances(b: Board, f: Flags, fr: int, fc: int, tr: int, tc: int, p: Player)
    requires InRange(fr, fc) && InRange(tr, tc)
    requires KindOf(At(b, fr, fc)) == 1
    requires IsLegalMove(b, f, fr, fc, tr, tc, p)
    ensures if p == 0 then tr < fr else tr > fr
  {
    PawnRuleHolds(b, f, fr, fc, tr, tc, p);
  }

  /** A king of the mover may step to any neighbouring square that does not hold one of the mover's pieces. */
  lemma KingStep(b: Board, f: Flags, fr: int, fc: int, tr: int, tc: int, mover: int)
    requires InRange(fr, fc) && InRange(tr, tc)
    requires KindOf(At(b, fr, fc)) == 2 && ColorOf(At(b, fr, fc)) == mover
    requires Abs(tr - fr) <= 1 && Abs(tc - fc) <= 1
    ensures IsLegalMove(b, f, fr, fc, tr, tc, mover) <==> !(At(b, tr, tc) != 0 && ColorOf(At(b, tr, tc)) == mover)
  {
  }

  /** A legal king move is a single step, or a two-square castling move along the home row from the e-file. */
  lemma KingMoveShape(b: Board, f: Flags, fr: int, fc: int, tr: int, tc: int, mover: int)
    requires InRange(fr, fc) && InRange(tr, tc)
    requires KindOf(At(b, fr, fc)) == 2
    requires IsLegalMove(b, f, fr, fc, tr, tc, mover)
    ensures (Abs(tr - fr) <= 1 && Abs(tc - fc) <= 1) ||
      (0 <= mover <= 1 && fr == HomeRow(mover) && fc == 4 && tr == fr && Abs(tc - fc) == 2 &&
       !KingMoved(f, mover))
  {
  }

  /**
   * Kingside castling from e1/e8 is legal exactly when neither the king nor
   * the h-rook has moved, f and g are empty, and the king is not in check
   * when placed on e, f and g in turn.
   */
  lemma CastlingRuleKingside(b: Board, f: Flags, p: Player)
    requires At(b, HomeRow(p), 4) == KingCode(p)
    ensures IsLegalMove(b, f, HomeRow(p), 4, HomeRow(p), 6, p) <==>
      !KingMoved(f, p) && !KingsideRookMoved(f, p) &&
      At(b, HomeRow(p), 5) == 0 && At(b, HomeRow(p), 6) == 0 &&
      !IsInCheck(WithKingAt(b, HomeRow(p), 4, p), p) &&
      !IsInCheck(WithKingAt(b, HomeRow(p), 5, p), p) &&
      !IsInCheck(WithKingAt(b, HomeRow(p), 6, p), p)
  {
    var row := HomeRow(p);
    assert ColorOf(KingCode(p)) == p && KindOf(KingCode(p)) == 2;
    var ks := [4, 5, 6];
    assert ProbesSafe(b, row, ks, p) <==>
      !IsInCheck(WithKingAt(b, row, ks[0], p), p) && !IsInCheck(WithKingAt(b, row, ks[1], p), p) &&
      !IsInCheck(WithKingAt(b, row, ks[2], p), p);
  }

  /**
   * Queenside castling from e1/e8 is legal exactly when neither the king nor
   * the a-rook has moved, d, c and b are empty, and the king is not in check
   * when placed on e, d and c in turn.
   */
  lemma CastlingRuleQueenside(b: Board, f: Flags, p: Player)
    requires At(b, HomeRow(p), 4) == KingCode(p)
    ensures IsLegalMove(b, f, HomeRow(p), 4, HomeRow(p), 2, p) <==>
      !KingMoved(f, p) && !QueensideRookMoved(f, p) &&
      At(b, HomeRow(p), 3) == 0 && At(b, HomeRow(p), 2) == 0 && At(b, HomeRow(p), 1) == 0 &&
      !IsInCheck(WithKingAt(b, HomeRow(p), 4, p), p) &&
      !IsInCheck(WithKingAt(b, HomeRow(p), 3, p), p) &&
      !IsInCheck(WithKingAt(b, HomeRow(p), 2, p), p)
  {
    var row := HomeRow(p);
    assert ColorOf(KingCode(p)) == p && KindOf(KingCode(p)) == 2;
    var qs := [4, 3, 2];
    assert ProbesSafe(b, row, qs, p) <==>
      !IsInCheck(WithKingAt(b, row, qs[0], p), p) && !IsInCheck(WithKingAt(b, row, qs[1], p), p) &&
      !IsInCheck(WithKingAt(b, row, qs[2], p), p);
  }

  /** Castling rights and probes only matter for two-square king moves: king steps ignore the flags. */
  lemma KingStepIgnoresFlags(b: Board, f: Flags, g: Flags, fr: int, fc: int, tr: int, tc: int, mover: int)
    requires InRange(fr, fc) && InRange(tr, tc)
    requires Abs(tr - fr) <= 1 && Abs(tc - fc) <= 1
    ensures IsLegalMove(b, f, fr, fc, tr, tc, mover) == IsLegalMove(b, g, fr, fc, tr, tc, mover)
  {
  }

  /** Onto an occupied square the castling branch never applies: legality is PieceMove. */
  lemma LegalOntoOccupied(b: Board, f: Flags, fr: int, fc: int, tr: int, tc: int, mover: int)
    requires InRange(fr, fc) && InRange(tr, tc)
    requires At(b, tr, tc) != 0
    ensures IsLegalMove(b, f, fr, fc, tr, tc, mover) == PieceMove(b, fr, fc, tr, tc, mover)
  {
  }

  /**
   * p is in check exactly when some square not of colour p holds a piece
   * with a legal move, for the other player, onto the last square in
   * row-major order holding p's king code; whatever the castling flags.
   */
  lemma InCheckIffAttacked(b: Board, f: Flags, p: Player)
    requires KingPresent(b, p)
    ensures IsInCheck(b, p) <==>
      exists r, c | 0 <= r < 8 && 0 <= c < 8 ::
        ColorOf(At(b, r, c)) != p && IsLegalMove(b, f, r, c, KingSquare(b, p) / 8, KingSquare(b, p) % 8, 1 - p)
  {
    var k := KingSquare(b, p);
    var kr, kc, q := k / 8, k % 8, 1 - p;
    assert At(b, kr, kc) == KingCode(p);
    forall r, c | 0 <= r < 8 && 0 <= c < 8
      ensures Attacks(b, p, r, c, kr, kc) == (ColorOf(At(b, r, c)) != p && IsLegalMove(b, f, r, c, kr, kc, q))
    {
      LegalOntoOccupied(b, f, r, c, kr, kc, q);
    }
  }

  /** Empty squares of b are empty in b' too, b' holding possibly more pieces. */
  predicate FewerPieces(b: Board, b': Board)
  {
    forall j | 0 <= j < 64 :: b'[j] == 0 ==> b[j] == 0
  }

  lemma {:induction false} ClearFromFewer(b: Board, b': Board, r: int, c: int, sr: int, sc: int, m: nat)
    requires UnitStep(sr, sc)
    requires m > 0 ==> InRange(r, c) && InRange(r + Offset(m - 1, sr), c + Offset(m - 1, sc))
    requires FewerPieces(b, b')
    requires ClearFrom(b', r, c, sr, sc, m)
    ensures ClearFrom(b, r, c, sr, sc, m)
    decreases m
  {
    if m > 0 {
      ClearFromFewer(b, b', r + sr, c + sc, sr, sc, m - 1);
    }
  }

  /** Adding pieces while the origin and target stay put can only remove attacks. */
  lemma PieceMoveFewer(b: Board, b': Board, fr: int, fc: int, tr: int, tc: int, mover: int)
    requires InRange(fr, fc) && InRange(tr, tc)
    requires FewerPieces(b, b')
    requires At(b', fr, fc) == At(b, fr, fc) && At(b', tr, tc) == At(b, tr, tc)
    requires PieceMove(b', fr, fc, tr, tc, mover)
    ensures PieceMove(b, fr, fc, tr, tc, mover)
  {
    var kind := KindOf(At(b, fr, fc));
    if 3 <= kind <= 5 && OnLine(tr - fr, tc - fc) {
      PathClearFewer(b, b', fr, fc, tr, tc);
    }
  }

  /** The sliding path stays clear when pieces are removed from the board. */
  lemma PathClearFewer(b: Board, b': Board, fr: int, fc: int, tr: int, tc: int)
    requires InRange(fr, fc) && InRange(tr, tc) && OnLine(tr - fr, tc - fc)
    requires FewerPieces(b, b')
    requires PathClear(b', fr, fc, tr, tc)
    ensures PathClear(b, fr, fc, tr, tc)
  {
    var dr, dc := tr - fr, tc - fc;
    if Distance(dr, dc) > 1 {
      ClearFromFewer(b, b', fr + Sign(dr), fc + Sign(dc), Sign(dr), Sign(dc), Distance(dr, dc) - 1);
    }
  }

  /**
   * The king square the engine finds when p's king is placed on (row, col)
   * for a castling probe, given that before the probe it finds p's king on
   * (row, 4): the probe square if it comes after e in row-major order, e
   * itself if it comes before.
   */
  lemma ProbeKingSquare(b: Board, p: Player, row: int, col: int)
    requires row == HomeRow(p) && 0 <= col < 8
    requires KingPresent(b, p) && KingSquare(b, p) == Sq(row, 4)
    ensures KingSquare(WithKingAt(b, row, col, p), p) == (if col >= 4 then Sq(row, col) else Sq(row, 4))
  {
    var probe := WithKingAt(b, row, col, p);
    var k := if col >= 4 then Sq(row, col) else Sq(row, 4);
    assert probe[k] == KingCode(p);
    assert forall j | k < j < 64 :: probe[j] == b[j];
  }

  /** A probe on an empty square before e cannot create a check on the king found on e. */
  lemma ProbeBeforeKing(b: Board, p: Player, col: int)
    requires KingPresent(b, p) && KingSquare(b, p) == Sq(HomeRow(p), 4)
    requires 0 <= col < 4 && At(b, HomeRow(p), col) == 0
    ensures IsInCheck(WithKingAt(b, HomeRow(p), col, p), p) ==> IsInCheck(b, p)
  {
    var row := HomeRow(p);
    var probe := WithKingAt(b, row, col, p);
    ProbeKingSquare(b, p, row, col);
    var k := Sq(row, 4);
    var kr, kc := k / 8, k % 8;
    if IsInCheck(probe, p) {
      var r, c :| 0 <= r < 8 && 0 <= c < 8 && Attacks(probe, p, r, c, kr, kc);
      assert ColorOf(KingCode(p)) == p;
      assert Sq(r, c) != Sq(row, col);
      PieceMoveFewer(b, probe, r, c, kr, kc, 1 - p);
      assert Attacks(b, p, r, c, kr, kc);
    }
  }

  /**
   * The queenside probes on d and c re-test e. With p's king found on its
   * home square and d, c empty, the three queenside probes succeed exactly
   * when p is not in check where it stands: attacks on d and c are never
   * looked at.
   */
  lemma QueensideProbesTestOnlyE(b: Board, p: Player)
    requires KingPresent(b, p) && KingSquare(b, p) == Sq(HomeRow(p), 4)
    requires At(b, HomeRow(p), 3) == 0 && At(b, HomeRow(p), 2) == 0
    ensures ProbesSafe(b, HomeRow(p), [4, 3, 2], p) <==> !IsInCheck(b, p)
  {
    var row := HomeRow(p);
    var cols := [4, 3, 2];
    assert ProbesSafe(b, row, cols, p) <==>
      !IsInCheck(WithKingAt(b, row, cols[0], p), p) && !IsInCheck(WithKingAt(b, row, cols[1], p), p) &&
      !IsInCheck(WithKingAt(b, row, cols[2], p), p);
    assert WithKingAt(b, row, 4, p) == b;
    ProbeBeforeKing(b, p, 3);
    ProbeBeforeKing(b, p, 2);
  }

  /**
   * The sliding-path loop standing on (r, c), m unit steps of (sr, sc) short
   * of (tr, tc), answers `clear`: it reaches the destination exactly after
   * m steps over squares on the board, and it answers false at the first
   * occupied one.
   */
  predicate Walk(b: Board, r: int, c: int, sr: int, sc: int, m: nat, tr: int, tc: int, clear: bool)
    decreases m
  {
    if m == 0 then r == tr && c == tc && clear
    else (InRange(r, c) && (r != tr || c != tc) &&
          if b[Sq(r, c)] == 0 then Walk(b, r + sr, c + sc, sr, sc, m - 1, tr, tc, clear) else !clear)
  }

  /** (r, c) is m unit steps of (sr, sc) short of (tr, tc), on the board unless it is there. */
  predicate Ray(r: int, c: int, sr: int, sc: int, m: nat, tr: int, tc: int)
  {
    UnitStep(sr, sc) && (sr != 0 || sc != 0) &&
    r + Offset(m, sr) == tr && c + Offset(m, sc) == tc &&
    InRange(tr, tc) && (m > 0 ==> InRange(r, c))
  }

  /** A ray with a step left is not yet at its end, and the rest of it is a ray. */
  lemma RayStep(r: int, c: int, sr: int, sc: int, m: nat, tr: int, tc: int)
    requires Ray(r, c, sr, sc, m, tr, tc) && m > 0
    ensures r != tr || c != tc
    ensures InRange(r + Offset(m - 1, sr), c + Offset(m - 1, sc))
    ensures Ray(r + sr, c + sc, sr, sc, m - 1, tr, tc)
  {
    OffsetSucc(m - 1, sr);
    OffsetSucc(m - 1, sc);
  }

  /** Every ray whose ends are on the board is walked to its end, answering ClearFrom. */
  lemma {:induction false} WalkClearFrom(b: Board, r: int, c: int, sr: int, sc: int, m: nat, tr: int, tc: int)
    requires Ray(r, c, sr, sc, m, tr, tc)
    ensures m > 0 ==> InRange(r + Offset(m - 1, sr), c + Offset(m - 1, sc))
    ensures Walk(b, r, c, sr, sc, m, tr, tc, ClearFrom(b, r, c, sr, sc, m))
    decreases m
  {
    if m > 0 {
      RayStep(r, c, sr, sc, m, tr, tc);
      WalkClearFrom(b, r + sr, c + sc, sr, sc, m - 1, tr, tc);
    }
  }

  /** The loop of a move along a line starts one step from the origin and answers PathClear. */
  lemma WalkStart(b: Board, fr: int, fc: int, tr: int, tc: int)
    requires InRange(fr, fc) && InRange(tr, tc) && OnLine(tr - fr, tc - fc) && (fr, fc) != (tr, tc)
    ensures Distance(tr - fr, tc - fc) >= 1
    ensures Walk(b, fr + Sign(tr - fr), fc + Sign(tc - fc), Sign(tr - fr), Sign(tc - fc),
                 Distance(tr - fr, tc - fc) - 1, tr, tc, PathClear(b, fr, fc, tr, tc))
  {
    var n := Distance(tr - fr, tc - fc);
    LinePoint(fr, fc, tr, tc, n);
    LinePoint(fr, fc, tr, tc, 1);
    OffsetSucc(n - 1, Sign(tr - fr));
    OffsetSucc(n - 1, Sign(tc - fc));
    WalkClearFrom(b, fr + Sign(tr - fr), fc + Sign(tc - fc), Sign(tr - fr), Sign(tc - fc), n - 1, tr, tc);
  }
}
