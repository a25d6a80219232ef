// Pattern legality of a move and the check test it is built with.
//
// The engine's legality test (isLegalMove) and its check test (isInCheck)
// call each other: castling probes whether the king would be attacked,
// and an attack is a legal move onto the king's square. An attack always
// targets an occupied square and castling always needs an empty
// destination, so the check test never reaches the castling branch. This
// module states that directly: IsInCheck is built on PieceMove, the
// legality test without castling, and LegalityFacts.LegalOntoOccupied
// proves that the full test agrees with PieceMove on every occupied target.
module Legality {
  import opened ChessPieces
  import opened ChessBoard

  function Abs(x: int): nat
  {
    if x < 0 then -x else x
  }

  function Max(a: int, b: int): int
  {
    if a < b then b else a
  }

  /** The unit step toward x: `x == 0 ? 0 : x / abs(x)`. */
  function Sign(x: int): int
  {
    if x > 0 then 1 else if x < 0 then -1 else 0
  }

  /** k steps of size s, for a unit step s. */
  function Offset(k: int, s: int): int
  {
    if s > 0 then k else if s < 0 then -k else 0
  }

  predicate UnitStep(sr: int, sc: int)
  {
    -1 <= sr <= 1 && -1 <= sc <= 1
  }

  /** The m squares that start at (r, c) and go on in steps of (sr, sc) are all empty. */
  predicate ClearFrom(b: Board, r: int, c: int, sr: int, sc: int, m: nat)
    requires UnitStep(sr, sc)
    requires m > 0 ==> InRange(r, c) && InRange(r + Offset(m - 1, sr), c + Offset(m - 1, sc))
    decreases m
  {
    m == 0 || (At(b, r, c) == 0 && ClearFrom(b, r + sr, c + sc, sr, sc, m - 1))
  }

  /** The move is along a rank, a file or a diagonal. */
  predicate OnLine(dr: int, dc: int)
  {
    dr == 0 || dc == 0 || Abs(dr) == Abs(dc)
  }

  /** The number of unit steps of a move along a line. */
  function Distance(dr: int, dc: int): nat
  {
    Max(Abs(dr), Abs(dc))
  }

  /**
   * The sliding-path loop: starting one step from the origin, every square
   * up to (not including) the destination is empty.
   */
  predicate PathClear(b: Board, fr: int, fc: int, tr: int, tc: int)
    requires InRange(fr, fc) && InRange(tr, tc) && OnLine(tr - fr, tc - fc)
  {
    var dr, dc := tr - fr, tc - fc;
    var n := Distance(dr, dc);
    n <= 1 || ClearFrom(b, fr + Sign(dr), fc + Sign(dc), Sign(dr), Sign(dc), n - 1)
  }

  /** The two checks made before the piece kind is looked at. */
  predicate Guards(b: Board, fr: int, fc: int, tr: int, tc: int, mover: int)
    requires InRange(fr, fc) && InRange(tr, tc)
  {
    var color := ColorOf(At(b, fr, fc));
    var target := At(b, tr, tc);
    // only the mover's own piece may move
    color == mover &&
    // no capture of one's own piece (this also rejects from == to)
    !(target != 0 && color == ColorOf(target))
  }

  predicate PawnPattern(b: Board, fr: int, fc: int, tr: int, tc: int)
    requires InRange(fr, fc) && InRange(tr, tc)
  {
    var color := ColorOf(At(b, fr, fc));
    var target := At(b, tr, tc);
    var dr, dc := tr - fr, tc - fc;
    if color == 1 then
      // Black advances toward row 7
      (fr == 1 && dr == 2 && dc == 0 && At(b, fr + 1, fc) == 0 && target == 0)
      || (dr == 1 && dc == 0 && target == 0)
      || (dr == 1 && Abs(dc) == 1 && target != 0 && ColorOf(target) == 0)
    else
      // White advances toward row 0
      (fr == 6 && dr == -2 && dc == 0 && At(b, fr - 1, fc) == 0 && target == 0)
      || (dr == -1 && dc == 0 && target == 0)
      || (dr == -1 && Abs(dc) == 1 && target != 0 && ColorOf(target) == 1)
  }

  /**
   * The movement rule of the piece on (fr, fc), castling excepted.
   * (For a bishop with dr == dc == 0 main.c would divide by zero; the
   * guards make that case unreachable, so its value here is immaterial.)
   */
  predicate PiecePattern(b: Board, fr: int, fc: int, tr: int, tc: int)
    requires InRange(fr, fc) && InRange(tr, tc)
  {
    var piece := KindOf(At(b, fr, fc));
    var dr, dc := tr - fr, tc - fc;
    if piece == 1 then PawnPattern(b, fr, fc, tr, tc)
    else if piece == 2 then Abs(dr) <= 1 && Abs(dc) <= 1
    else if piece == 3 then OnLine(dr, dc) && PathClear(b, fr, fc, tr, tc)
    else if piece == 4 then (dr == 0 || dc == 0) && PathClear(b, fr, fc, tr, tc)
    else if piece == 5 then Abs(dr) == Abs(dc) && PathClear(b, fr, fc, tr, tc)
    else if piece == 6 then (Abs(dr) == 2 && Abs(dc) == 1) || (Abs(dr) == 1 && Abs(dc) == 2)
    else false
  }

  /** The legality test without its castling branch: what an attack on a king is. */
  predicate PieceMove(b: Board, fr: int, fc: int, tr: int, tc: int, mover: int)
    requires InRange(fr, fc) && InRange(tr, tc)
  {
    Guards(b, fr, fc, tr, tc, mover) && PiecePattern(b, fr, fc, tr, tc)
  }

  /** The piece on (r, c) is not of colour p and, for the other player, can move onto (kr, kc). */
  predicate Attacks(b: Board, p: Player, r: int, c: int, kr: int, kc: int)
    requires InRange(r, c) && InRange(kr, kc)
  {
    ColorOf(At(b, r, c)) != p && PieceMove(b, r, c, kr, kc, 1 - p)
  }

  /**
   * isInCheck: some square holds a piece not of colour p that can move onto
   * the square where the engine believes p's king stands.
   */
  predicate IsInCheck(b: Board, p: Player)
    requires KingPresent(b, p)
  {
    var k := KingSquare(b, p);
    exists r, c | 0 <= r < 8 && 0 <= c < 8 :: Attacks(b, p, r, c, k / 8, k % 8)
  }

  /** The king of p placed on (r, c), everything else as it was. */
  function WithKingAt(b: Board, r: int, c: int, p: Player): (probe: Board)
    requires InRange(r, c)
    ensures KingPresent(probe, p)
  {
    var probe := b[Sq(r, c) := KingCode(p)];
    assert probe[Sq(r, c)] == KingCode(p);
    probe
  }

  /** p is not in check with its king placed on every listed square of row `row`, tried one at a time. */
  predicate ProbesSafe(b: Board, row: int, cols: seq<int>, p: Player)
    requires forall i | 0 <= i < |cols| :: InRange(row, cols[i])
  {
    forall i | 0 <= i < |cols| :: !IsInCheck(WithKingAt(b, row, cols[i], p), p)
  }

  /** The back rank of p, where its king starts. */
  function HomeRow(p: Player): int
  {
    if p == 0 then 7 else 0
  }

  function KingMoved(f: Flags, p: Player): bool
  {
    if p == 0 then f.whiteKingMoved else f.blackKingMoved
  }

  function KingsideRookMoved(f: Flags, p: Player): bool
  {
    if p == 0 then f.whiteKingsideRookMoved else f.blackKingsideRookMoved
  }

  function QueensideRookMoved(f: Flags, p: Player): bool
  {
    if p == 0 then f.whiteQueensideRookMoved else f.blackQueensideRookMoved
  }

  /**
   * Kingside castling for p: the flags allow it, f and g of the home row are
   * empty, and the king is safe when placed on e, f and g in turn.
   */
  predicate CanCastleKingside(b: Board, f: Flags, p: Player)
  {
    var row := HomeRow(p);
    !KingMoved(f, p) && !KingsideRookMoved(f, p) &&
    At(b, row, 5) == 0 && At(b, row, 6) == 0 &&
    ProbesSafe(b, row, [4, 5, 6], p)
  }

  /**
   * Queenside castling for p: the flags allow it, d, c and b of the home row
   * are empty, and the king is safe when placed on e, d and c in turn.
   */
  predicate CanCastleQueenside(b: Board, f: Flags, p: Player)
  {
    var row := HomeRow(p);
    !KingMoved(f, p) && !QueensideRookMoved(f, p) &&
    At(b, row, 3) == 0 && At(b, row, 2) == 0 && At(b, row, 1) == 0 &&
    ProbesSafe(b, row, [4, 3, 2], p)
  }

  /** The castling branch of the king rule, for the colour of the piece on (fr, fc). */
  predicate CastlingMove(b: Board, f: Flags, fr: int, fc: int, tr: int, tc: int)
    requires InRange(fr, fc) && InRange(tr, tc)
  {
    var color := ColorOf(At(b, fr, fc));
    var dr, dc := tr - fr, tc - fc;
    (color == 0 || color == 1) && fr == HomeRow(color) && fc == 4 && dr == 0 &&
    ((dc == 2 && CanCastleKingside(b, f, color)) || (dc == -2 && CanCastleQueenside(b, f, color)))
  }

  /**
   * isLegalMove: the piece on (fr, fc) belongs to the mover, the destination
   * does not hold one of its own pieces, and the piece's movement rule (or,
   * for a king, castling) allows the move. Whether the mover's own king is
   * left attacked is not considered.
   */
  predicate IsLegalMove(b: Board, f: Flags, fr: int, fc: int, tr: int, tc: int, mover: int)
    requires InRange(fr, fc) && InRange(tr, tc)
  {
    Guards(b, fr, fc, tr, tc, mover) &&
    (PiecePattern(b, fr, fc, tr, tc) ||
     (KindOf(At(b, fr, fc)) == 2 && CastlingMove(b, f, fr, fc, tr, tc)))
  }
}
