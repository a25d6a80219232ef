// The board model: an 8x8 grid stored row-major (square (r, c) at index
// 8 * r + c, the layout of `int board[8][8]`), the six castling flags, the
// player to move, and the initial position.
module ChessBoard {
  import opened ChessPieces

  /** 0 is White, 1 is Black. */
  type Player = p: int | 0 <= p <= 1

  type Board = b: seq<int> | |b| == 64 witness seq(64, _ => 0)

  predicate InRange(r: int, c: int)
  {
    0 <= r < 8 && 0 <= c < 8
  }

  function Sq(r: int, c: int): (k: int)
    requires InRange(r, c)
    ensures 0 <= k < 64
  {
    8 * r + c
  }

  /** Row and column are recovered from the index by `/ 8` and `% 8`. */
  lemma SqCoords(r: int, c: int)
    requires InRange(r, c)
    ensures Sq(r, c) / 8 == r && Sq(r, c) % 8 == c
  {
    assert 8 * r + c == c + 8 * r;
  }

  function At(b: Board, r: int, c: int): int
    requires InRange(r, c)
  {
    b[Sq(r, c)]
  }

  /** No square selected is (-1, -1); otherwise both coordinates are on the board. */
  predicate ValidSelection(r: int, c: int)
  {
    (r == -1 && c == -1) || InRange(r, c)
  }

  /** The six has-moved flags that gate castling. */
  datatype Flags = Flags(
    whiteKingMoved: bool, blackKingMoved: bool,
    whiteKingsideRookMoved: bool, whiteQueensideRookMoved: bool,
    blackKingsideRookMoved: bool, blackQueensideRookMoved: bool)

  const NoneMoved := Flags(false, false, false, false, false, false)

  /** Every flag set in f is still set in g: castling rights are only ever lost. */
  predicate FlagsGrow(f: Flags, g: Flags)
  {
    (f.whiteKingMoved ==> g.whiteKingMoved) && (f.blackKingMoved ==> g.blackKingMoved) &&
    (f.whiteKingsideRookMoved ==> g.whiteKingsideRookMoved) &&
    (f.whiteQueensideRookMoved ==> g.whiteQueensideRookMoved) &&
    (f.blackKingsideRookMoved ==> g.blackKingsideRookMoved) &&
    (f.blackQueensideRookMoved ==> g.blackQueensideRookMoved)
  }

  /** The code the engine searches for when it locates p's king. */
  function KingCode(p: Player): (v: int)
    ensures v == Encode(Piece(if p == 0 then White else Black, King))
  {
    if p == 1 then 12 else 2
  }

  predicate KingPresent(b: Board, p: Player)
  {
    KingCode(p) in b
  }

  /** The last index holding v, or -1: the result of a full scan that keeps overwriting its answer. */
  function LastIndex(s: seq<int>, v: int): (k: int)
    ensures -1 <= k < |s|
    ensures k >= 0 ==> s[k] == v
    ensures forall j | k < j < |s| :: s[j] != v
    decreases |s|
  {
    if |s| == 0 then -1
    else if s[|s| - 1] == v then |s| - 1
    else LastIndex(s[..|s| - 1], v)
  }

  /** Where the engine believes p's king stands: the last square in row-major order holding its code. */
  function KingSquare(b: Board, p: Player): (k: int)
    requires KingPresent(b, p)
    ensures 0 <= k < 64 && b[k] == KingCode(p)
    ensures forall j | k < j < 64 :: b[j] != KingCode(p)
  {
    LastIndex(b, KingCode(p))
  }

  /** The starting position, row 0 being Black's back rank and row 7 White's. */
  function InitialCell(r: int, c: int): int
    requires InRange(r, c)
  {
    if r == 0 then [14, 16, 15, 13, 12, 15, 16, 14][c]
    else if r == 1 then 11
    else if r == 6 then 1
    else if r == 7 then [4, 6, 5, 3, 2, 5, 6, 4][c]
    else 0
  }

  function InitialBoard(): Board
  {
    seq(64, k requires 0 <= k < 64 => InitialCell(k / 8, k % 8))
  }

  /** The back-rank order Rook, Knight, Bishop, Queen, King, Bishop, Knight, Rook. */
  function BackRank(c: int): Kind
    requires 0 <= c < 8
  {
    [Rook, Knight, Bishop, Queen, King, Bishop, Knight, Rook][c]
  }

  lemma InitialPosition(r: int, c: int)
    requires InRange(r, c)
    ensures r == 0 ==> Decode(At(InitialBoard(), r, c)) == Some(Piece(Black, BackRank(c)))
    ensures r == 1 ==> Decode(At(InitialBoard(), r, c)) == Some(Piece(Black, Pawn))
    ensures 2 <= r <= 5 ==> At(InitialBoard(), r, c) == 0
    ensures r == 6 ==> Decode(At(InitialBoard(), r, c)) == Some(Piece(White, Pawn))
    ensures r == 7 ==> Decode(At(InitialBoard(), r, c)) == Some(Piece(White, BackRank(c)))
  {
    var b := InitialBoard();
    assert Sq(r, c) == 8 * r + c;
    if r == 0 {
      assert c == 0 || c == 1 || c == 2 || c == 3 || c == 4 || c == 5 || c == 6 || c == 7;
    } else if r == 7 {
      assert c == 0 || c == 1 || c == 2 || c == 3 || c == 4 || c == 5 || c == 6 || c == 7;
    }
  }

  /** Each side has exactly one king at the start, on e1 (7, 4) and e8 (0, 4). */
  lemma InitialKings()
    ensures KingPresent(InitialBoard(), 0) && KingSquare(InitialBoard(), 0) == Sq(7, 4)
    ensures KingPresent(InitialBoard(), 1) && KingSquare(InitialBoard(), 1) == Sq(0, 4)
    ensures forall k | 0 <= k < 64 && InitialBoard()[k] == KingCode(0) :: k == Sq(7, 4)
    ensures forall k | 0 <= k < 64 && InitialBoard()[k] == KingCode(1) :: k == Sq(0, 4)
  {
    var b := InitialBoard();
    assert b[60] == 2 && b[4] == 12;
  }
}
