// Checkmate detection and the highlighted destinations of a selected piece.
// Both simulate a move as a plain copy of the piece onto its destination
// (no rook relocation, no promotion) and ask whether the mover is then in
// check.
module Checkmate {
  import opened ChessPieces
  import opened ChessBoard
  import opened Legality
  import LegalityFacts

  /** The simulated move: the piece on (fr, fc) copied onto (tr, tc) and its origin emptied. */
  function Apply(b: Board, fr: int, fc: int, tr: int, tc: int): Board
    requires InRange(fr, fc) && InRange(tr, tc)
  {
    b[Sq(tr, tc) := At(b, fr, fc)][Sq(fr, fc) := 0]
  }

  /** The simulated move carries the piece to its destination, empties its origin and touches nothing else. */
  lemma ApplyMovesPiece(b: Board, fr: int, fc: int, tr: int, tc: int)
    requires InRange(fr, fc) && InRange(tr, tc) && (fr, fc) != (tr, tc)
    ensures var a := Apply(b, fr, fc, tr, tc);
      At(a, tr, tc) == At(b, fr, fc) && At(a, fr, fc) == 0 &&
      forall k | 0 <= k < 64 && k != Sq(fr, fc) && k != Sq(tr, tc) :: a[k] == b[k]
  {
  }

  /** A legal move of p never removes p's king code from the board. */
  lemma KingSurvivesMove(b: Board, f: Flags, p: Player, fr: int, fc: int, tr: int, tc: int)
    requires InRange(fr, fc) && InRange(tr, tc)
    requires KingPresent(b, p) && IsLegalMove(b, f, fr, fc, tr, tc, p)
    ensures KingPresent(Apply(b, fr, fc, tr, tc), p)
  {
    LegalityFacts.LegalMoveGuards(b, f, fr, fc, tr, tc, p);
    var a := Apply(b, fr, fc, tr, tc);
    var k :| 0 <= k < 64 && b[k] == KingCode(p);
    if k == Sq(fr, fc) {
      assert a[Sq(tr, tc)] == KingCode(p);
    } else {
      assert ColorOf(KingCode(p)) == p;
      assert a[k] == KingCode(p);
    }
  }

  /** The legal move (fr, fc) -> (tr, tc) of p, made as a plain copy, leaves p out of check. */
  predicate Escapes(b: Board, f: Flags, p: Player, fr: int, fc: int, tr: int, tc: int)
    requires InRange(fr, fc) && InRange(tr, tc)
    requires KingPresent(b, p) && IsLegalMove(b, f, fr, fc, tr, tc, p)
  {
    KingSurvivesMove(b, f, p, fr, fc, tr, tc);
    !IsInCheck(Apply(b, fr, fc, tr, tc), p)
  }

  /** The move (fr, fc) -> (tr, tc) is one of p's, legal, and leaves p out of check. */
  predicate EscapeMove(b: Board, f: Flags, p: Player, fr: int, fc: int, tr: int, tc: int)
    requires InRange(fr, fc) && InRange(tr, tc) && KingPresent(b, p)
  {
    ColorOf(At(b, fr, fc)) == p && IsLegalMove(b, f, fr, fc, tr, tc, p) && Escapes(b, f, p, fr, fc, tr, tc)
  }

  /** The piece on (fr, fc) is one of p's and has a legal move that leaves p out of check. */
  predicate PieceEscapes(b: Board, f: Flags, p: Player, fr: int, fc: int)
    requires InRange(fr, fc) && KingPresent(b, p)
  {
    exists tr, tc | 0 <= tr < 8 && 0 <= tc < 8 :: EscapeMove(b, f, p, fr, fc, tr, tc)
  }

  /** None of the first n destinations, in row-major order, is an escape for the piece on (fr, fc). */
  predicate NoEscapeBefore(b: Board, f: Flags, p: Player, fr: int, fc: int, n: int)
    requires InRange(fr, fc) && KingPresent(b, p) && 0 <= n <= 64
    decreases n
  {
    n == 0 ||
    (NoEscapeBefore(b, f, p, fr, fc, n - 1) && !EscapeMove(b, f, p, fr, fc, (n - 1) / 8, (n - 1) % 8))
  }

  /** Having looked at every destination without finding an escape, the piece has none. */
  lemma {:induction false} NoEscapeBeforeAll(b: Board, f: Flags, p: Player, fr: int, fc: int, n: int)
    requires InRange(fr, fc) && KingPresent(b, p) && 0 <= n <= 64
    requires NoEscapeBefore(b, f, p, fr, fc, n)
    ensures forall k | 0 <= k < n :: !EscapeMove(b, f, p, fr, fc, k / 8, k % 8)
    decreases n
  {
    if n > 0 {
      NoEscapeBeforeAll(b, f, p, fr, fc, n - 1);
    }
  }

  /** A piece none of whose 64 destinations is an escape has no escape. */
  lemma NoEscapeAtAll(b: Board, f: Flags, p: Player, fr: int, fc: int)
    requires InRange(fr, fc) && KingPresent(b, p)
    requires NoEscapeBefore(b, f, p, fr, fc, 64)
    ensures !PieceEscapes(b, f, p, fr, fc)
  {
    NoEscapeBeforeAll(b, f, p, fr, fc, 64);
    forall tr, tc | 0 <= tr < 8 && 0 <= tc < 8
      ensures !EscapeMove(b, f, p, fr, fc, tr, tc)
    {
      SqCoords(tr, tc);
      assert !EscapeMove(b, f, p, fr, fc, Sq(tr, tc) / 8, Sq(tr, tc) % 8);
    }
  }

  /** Some piece of p has a legal move that leaves p out of check. */
  predicate HasEscape(b: Board, f: Flags, p: Player)
    requires KingPresent(b, p)
  {
    exists fr, fc | 0 <= fr < 8 && 0 <= fc < 8 :: PieceEscapes(b, f, p, fr, fc)
  }

  /** isCheckmate: p is in check and no legal move of p, made as a plain copy, gets it out. */
  predicate IsCheckmate(b: Board, f: Flags, p: Player)
    requires KingPresent(b, p)
  {
    IsInCheck(b, p) && !HasEscape(b, f, p)
  }

  /**
   * Square (r, c) is highlighted for the selection (sr, sc): a piece of p is
   * selected there, its move onto (r, c) is legal, and the move leaves p out
   * of check.
   */
  predicate Highlighted(b: Board, f: Flags, p: Player, sr: int, sc: int, r: int, c: int)
    requires ValidSelection(sr, sc) && InRange(r, c)
    requires sr != -1 ==> KingPresent(b, p)
  {
    sr != -1 && sc != -1 && At(b, sr, sc) != 0 && ColorOf(At(b, sr, sc)) == p &&
    IsLegalMove(b, f, sr, sc, r, c, p) && Escapes(b, f, p, sr, sc, r, c)
  }

  /** The highlight grid of updateAvailableMoves, square (r, c) at index 8 * r + c. */
  function Highlights(b: Board, f: Flags, p: Player, sr: int, sc: int): (h: seq<bool>)
    requires ValidSelection(sr, sc)
    requires sr != -1 ==> KingPresent(b, p)
    ensures |h| == 64
    ensures forall r, c | 0 <= r < 8 && 0 <= c < 8 :: h[Sq(r, c)] == Highlighted(b, f, p, sr, sc, r, c)
  {
    var h := seq(64, k requires 0 <= k < 64 => Highlighted(b, f, p, sr, sc, k / 8, k % 8));
    assert forall r, c | 0 <= r < 8 && 0 <= c < 8 :: h[Sq(r, c)] == Highlighted(b, f, p, sr, sc, r, c) by {
      forall r, c | 0 <= r < 8 && 0 <= c < 8
        ensures h[Sq(r, c)] == Highlighted(b, f, p, sr, sc, r, c)
      {
        SqCoords(r, c);
      }
    }
    h
  }

  /**
   * The grid prefix h marks, square by square in row-major order, exactly
   * the escapes of the piece selected on (sr, sc).
   */
  predicate MarksEscapes(h: seq<bool>, b: Board, f: Flags, p: Player, sr: int, sc: int)
    requires InRange(sr, sc) && KingPresent(b, p) && |h| <= 64
    decreases |h|
  {
    |h| == 0 ||
    (MarksEscapes(h[..|h| - 1], b, f, p, sr, sc) &&
     h[|h| - 1] == EscapeMove(b, f, p, sr, sc, (|h| - 1) / 8, (|h| - 1) % 8))
  }

  /** Every square of a marking prefix holds its escape. */
  lemma {:induction false} MarksEscapesAt(h: seq<bool>, b: Board, f: Flags, p: Player, sr: int, sc: int)
    requires InRange(sr, sc) && KingPresent(b, p) && |h| <= 64
    requires MarksEscapes(h, b, f, p, sr, sc)
    ensures forall k | 0 <= k < |h| :: h[k] == EscapeMove(b, f, p, sr, sc, k / 8, k % 8)
    decreases |h|
  {
    if |h| > 0 {
      MarksEscapesAt(h[..|h| - 1], b, f, p, sr, sc);
      assert forall k | 0 <= k < |h| - 1 :: h[k] == h[..|h| - 1][k];
    }
  }

  /** For a selected piece of p, a full grid marking exactly its escapes is the highlight grid. */
  lemma EscapesAreHighlights(h: seq<bool>, b: Board, f: Flags, p: Player, sr: int, sc: int)
    requires InRange(sr, sc) && KingPresent(b, p)
    requires At(b, sr, sc) != 0 && ColorOf(At(b, sr, sc)) == p
    requires |h| == 64 && MarksEscapes(h, b, f, p, sr, sc)
    ensures h == Highlights(b, f, p, sr, sc)
  {
    MarksEscapesAt(h, b, f, p, sr, sc);
    forall r, c | 0 <= r < 8 && 0 <= c < 8
      ensures h[Sq(r, c)] == Highlighted(b, f, p, sr, sc, r, c)
    {
      SqCoords(r, c);
      assert h[Sq(r, c)] == EscapeMove(b, f, p, sr, sc, r, c);
    }
    HighlightsExt(h, b, f, p, sr, sc);
  }

  /** A grid that agrees with Highlighted on every square is the highlight grid. */
  lemma HighlightsExt(h: seq<bool>, b: Board, f: Flags, p: Player, sr: int, sc: int)
    requires ValidSelection(sr, sc)
    requires sr != -1 ==> KingPresent(b, p)
    requires |h| == 64
    requires forall r, c | 0 <= r < 8 && 0 <= c < 8 :: h[Sq(r, c)] == Highlighted(b, f, p, sr, sc, r, c)
    ensures h == Highlights(b, f, p, sr, sc)
  {
    var g := Highlights(b, f, p, sr, sc);
    forall k | 0 <= k < 64
      ensures h[k] == g[k]
    {
      SqCoords(k / 8, k % 8);
      assert Sq(k / 8, k % 8) == k;
    }
  }

  /** With no selection, or a selection that is not a piece of p, nothing is highlighted. */
  lemma NoSelectionNoHighlights(b: Board, f: Flags, p: Player, sr: int, sc: int)
    requires ValidSelection(sr, sc)
    requires sr != -1 ==> KingPresent(b, p)
    requires sr == -1 || At(b, sr, sc) == 0 || ColorOf(At(b, sr, sc)) != p
    ensures Highlights(b, f, p, sr, sc) == seq(64, _ => false)
  {
    var h := Highlights(b, f, p, sr, sc);
    forall k | 0 <= k < 64
      ensures !h[k]
    {
      assert Sq(k / 8, k % 8) == k;
    }
  }

  /** A player who is not in check is not checkmated. */
  lemma CheckmateNeedsCheck(b: Board, f: Flags, p: Player)
    requires KingPresent(b, p) && !IsInCheck(b, p)
    ensures !IsCheckmate(b, f, p)
  {
  }

  /**
   * The checkmate test and the highlighter agree: p is checkmated exactly
   * when p is in check and no piece of p, when selected, gets any square
   * highlighted.
   */
  lemma CheckmateIffNothingHighlighted(b: Board, f: Flags, p: Player)
    requires KingPresent(b, p)
    ensures IsCheckmate(b, f, p) <==>
      IsInCheck(b, p) &&
      forall sr, sc, r, c | 0 <= sr < 8 && 0 <= sc < 8 && 0 <= r < 8 && 0 <= c < 8 ::
        !Highlighted(b, f, p, sr, sc, r, c)
  {
    if HasEscape(b, f, p) {
      var fr, fc :| 0 <= fr < 8 && 0 <= fc < 8 && PieceEscapes(b, f, p, fr, fc);
      var tr, tc :| 0 <= tr < 8 && 0 <= tc < 8 && EscapeMove(b, f, p, fr, fc, tr, tc);
      LegalityFacts.LegalMoveGuards(b, f, fr, fc, tr, tc, p);
      assert Highlighted(b, f, p, fr, fc, tr, tc);
    } else {
      forall sr, sc, r, c | 0 <= sr < 8 && 0 <= sc < 8 && 0 <= r < 8 && 0 <= c < 8
        ensures !Highlighted(b, f, p, sr, sc, r, c)
      {
        assert !PieceEscapes(b, f, p, sr, sc);
        assert !EscapeMove(b, f, p, sr, sc, r, c);
      }
    }
  }
}
