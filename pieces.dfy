// Square contents as the engine stores them: 0 for an empty square,
// otherwise colour * 10 + kind, with colour 0 White / 1 Black and kind
// 1 Pawn, 2 King, 3 Queen, 4 Rook, 5 Bishop, 6 Knight.
// The engine itself works on the integers (as main.c does); the tagged
// view below is the reading of a valid code, with both round trips proved.
module ChessPieces {

  datatype Option<T> = None | Some(value: T)

  datatype Color = White | Black
  datatype Kind = Pawn | King | Queen | Rook | Bishop | Knight
  datatype Piece = Piece(color: Color, kind: Kind)

  function ColorCode(c: Color): int
  {
    if c == White then 0 else 1
  }

  function KindCode(k: Kind): int
  {
    match k
    case Pawn => 1
    case King => 2
    case Queen => 3
    case Rook => 4
    case Bishop => 5
    case Knight => 6
  }

  function KindFromCode(n: int): Kind
    requires 1 <= n <= 6
  {
    if n == 1 then Pawn
    else if n == 2 then King
    else if n == 3 then Queen
    else if n == 4 then Rook
    else if n == 5 then Bishop
    else Knight
  }

  /** C's `v / 10`: integer division truncating toward zero. */
  function Div10(v: int): int
  {
    if v >= 0 then v / 10 else -((-v) / 10)
  }

  /** C's `v % 10`: the remainder takes the sign of the dividend. */
  function Rem10(v: int): int
  {
    if v >= 0 then v % 10 else -((-v) % 10)
  }

  /** The colour the engine reads from a square (`val / 10`); an empty square reads as 0, White. */
  function ColorOf(v: int): int
  {
    Div10(v)
  }

  /** The kind the engine reads from a square (`val % 10`); an empty square reads as 0, no kind. */
  function KindOf(v: int): int
  {
    Rem10(v)
  }

  function Encode(p: Piece): (v: int)
    ensures 1 <= v <= 16
    ensures ColorOf(v) == ColorCode(p.color) && KindOf(v) == KindCode(p.kind)
  {
    10 * ColorCode(p.color) + KindCode(p.kind)
  }

  function Decode(v: int): (r: Option<Piece>)
    ensures r.Some? <==> v > 0 && ColorOf(v) <= 1 && 1 <= KindOf(v) <= 6
  {
    if v <= 0 || Div10(v) > 1 || Rem10(v) < 1 || Rem10(v) > 6 then None
    else Some(Piece(if Div10(v) == 0 then White else Black, KindFromCode(Rem10(v))))
  }

  lemma DecodeEncode(p: Piece)
    ensures Decode(Encode(p)) == Some(p)
  {
  }

  lemma EncodeDecode(v: int)
    requires Decode(v).Some?
    ensures Encode(Decode(v).value) == v
  {
  }

  /** The divide/remainder reading the engine uses agrees with the decoded piece. */
  lemma DecodeAgreesWithDivRem(v: int)
    requires Decode(v).Some?
    ensures ColorOf(v) == ColorCode(Decode(v).value.color)
    ensures KindOf(v) == KindCode(Decode(v).value.kind)
  {
  }

  /** A value of kind k and colour p (p being 0 or 1) is exactly the code 10 * p + k. */
  lemma CodeFromColorAndKind(v: int, p: int, k: int)
    requires 0 <= p <= 1 && 1 <= k <= 6
    requires ColorOf(v) == p && KindOf(v) == k
    ensures v == 10 * p + k
  {
  }
}
