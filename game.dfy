// The engine's mutable state and its operations, as the program runs them:
// one board array that the legality test, the check test, the checkmate
// test and the highlighter all write to (placing a probe king or making a
// trial move) and restore, the highlight grid, the selection, the player
// to move and the six castling flags. Every method is proved against the
// specification functions of Legality, Checkmate and Turn.
module Game {
  import opened ChessPieces
  import opened ChessBoard
  import opened Legality
  import opened Checkmate
  import opened Turn
  import LegalityFacts

  /**
   * After scanning the first n squares, (kr, kc) is the last of them that
   * holds `code`, or (-1, -1) when none does.
   */
  predicate KingScan(b: Board, code: int, n: int, kr: int, kc: int)
    requires 0 <= n <= 64
  {
    if kr == -1 then (kc == -1 && forall j | 0 <= j < n :: b[j] != code)
    else (InRange(kr, kc) && Sq(kr, kc) < n && b[Sq(kr, kc)] == code &&
          forall j | Sq(kr, kc) < j < n :: b[j] != code)
  }

  class ChessGame {
    var board: array<int>
    var availableMoves: array<bool>
    var selectedRow: int
    var selectedCol: int
    var currentPlayer: Player
    var whiteKingMoved: bool
    var blackKingMoved: bool
    var whiteKingsideRookMoved: bool
    var whiteQueensideRookMoved: bool
    var blackKingsideRookMoved: bool
    var blackQueensideRookMoved: bool

    predicate Valid()
      reads this
    {
      board.Length == 64 && availableMoves.Length == 64 && ValidSelection(selectedRow, selectedCol)
    }

    function CastlingFlags(): Flags
      reads this
    {
      Flags(whiteKingMoved, blackKingMoved, whiteKingsideRookMoved, whiteQueensideRookMoved,
            blackKingsideRookMoved, blackQueensideRookMoved)
    }

    function State(): GameState
      requires Valid()
      reads this, board, availableMoves
    {
      GameState(board[..], availableMoves[..], selectedRow, selectedCol, currentPlayer, CastlingFlags())
    }

    /**
     * The sliding-path loop of the queen, rook and bishop rules: step from
     * the square after the origin toward the destination and fail on the
     * first occupied square.
     */
    method PathIsClear(fr: int, fc: int, tr: int, tc: int) returns (clear: bool)
      requires Valid() && InRange(fr, fc) && InRange(tr, tc) && OnLine(tr - fr, tc - fc)
      requires (fr, fc) != (tr, tc)
      ensures clear == PathClear(board[..], fr, fc, tr, tc)
    {
      ghost var b := board[..];
      var dr, dc := tr - fr, tc - fc;
      var stepR, stepC := Sign(dr), Sign(dc);
      LegalityFacts.WalkStart(b, fr, fc, tr, tc);
      // m: the number of steps left from (r, c) to the destination
      ghost var m: nat := Distance(dr, dc) - 1;
      var r, c := fr + stepR, fc + stepC;
      while r != tr || c != tc
        invariant LegalityFacts.Walk(b, r, c, stepR, stepC, m, tr, tc, PathClear(b, fr, fc, tr, tc))
        decreases m
      {
        if board[Sq(r, c)] != 0 {
          return false;
        }
        r, c := r + stepR, c + stepC;
        m := m - 1;
      }
      return true;
    }

    /** The king search of isInCheck: the last square in row-major order holding p's king code. */
    method FindKing(p: Player) returns (kingRow: int, kingCol: int)
      requires Valid()
      ensures kingRow == -1 <==> !KingPresent(board[..], p)
      ensures kingRow != -1 ==> InRange(kingRow, kingCol) && Sq(kingRow, kingCol) == KingSquare(board[..], p)
    {
      ghost var b := board[..];
      var code := if p == 1 then 12 else 2;
      kingRow, kingCol := -1, -1;
      var i := 0;
      while i < 8
        invariant 0 <= i <= 8
        invariant KingScan(b, code, 8 * i, kingRow, kingCol)
      {
        var j := 0;
        while j < 8
          invariant 0 <= j <= 8
          invariant KingScan(b, code, 8 * i + j, kingRow, kingCol)
        {
          if board[Sq(i, j)] == code {
            kingRow, kingCol := i, j;
          }
          j := j + 1;
        }
        i := i + 1;
      }
    }

    /**
     * isInCheck: find where p's king stands, then ask every square not of
     * colour p whether its piece can move there for the other player.
     */
    method IsInCheck(p: Player) returns (inCheck: bool)
      requires Valid() && KingPresent(board[..], p)
      modifies board
      ensures board[..] == old(board[..])
      ensures inCheck == Legality.IsInCheck(old(board[..]), p)
      decreases 1, 0
    {
      ghost var b := board[..];
      var kingRow, kingCol := FindKing(p);
      ghost var k := KingSquare(b, p);
      SqCoords(kingRow, kingCol);
      assert kingRow == k / 8 && kingCol == k % 8;
      assert At(b, kingRow, kingCol) != 0;
      var i := 0;
      while i < 8
        invariant 0 <= i <= 8 && board[..] == b
        invariant forall r, c | 0 <= r < i && 0 <= c < 8 :: !Attacks(b, p, r, c, kingRow, kingCol)
      {
        var j := 0;
        while j < 8
          invariant 0 <= j <= 8 && board[..] == b
          invariant forall r, c | 0 <= r < i && 0 <= c < 8 :: !Attacks(b, p, r, c, kingRow, kingCol)
          invariant forall c | 0 <= c < j :: !Attacks(b, p, i, c, kingRow, kingCol)
        {
          var attacks := AttackerAt(i, j, kingRow, kingCol, p);
          if attacks {
            return true;
          }
          j := j + 1;
        }
        i := i + 1;
      }
      assert !Legality.IsInCheck(b, p);
      return false;
    }

    /** One square of the isInCheck scan: is the piece on (r, c) not of colour p, and can it move onto (kr, kc) for the other player? */
    method AttackerAt(r: int, c: int, kr: int, kc: int, p: Player) returns (attacks: bool)
      requires Valid() && InRange(r, c) && InRange(kr, kc) && At(board[..], kr, kc) != 0
      modifies board
      ensures board[..] == old(board[..])
      ensures attacks == Attacks(old(board[..]), p, r, c, kr, kc)
      decreases 0, 2
    {
      ghost var b := board[..];
      var val := board[Sq(r, c)];
      var color := Div10(val);
      attacks := false;
      if color != p {
        LegalityFacts.LegalOntoOccupied(b, CastlingFlags(), r, c, kr, kc, 1 - p);
        attacks := IsLegalMove(r, c, kr, kc, 1 - p);
      }
    }

    /**
     * The castling probe loop: place p's king code on each listed square of
     * row `row` in turn, test for check, restore the square, and stop at the
     * first probe that finds a check.
     */
    method CastlingPathSafe(row: int, cols: seq<int>, p: Player) returns (safe: bool)
      requires Valid() && forall i | 0 <= i < |cols| :: InRange(row, cols[i])
      modifies board
      ensures board[..] == old(board[..])
      ensures safe == ProbesSafe(old(board[..]), row, cols, p)
      decreases 2, 0
    {
      ghost var b := board[..];
      safe := true;
      var k := 0;
      while k < |cols|
        invariant 0 <= k <= |cols| && board[..] == b && safe
        invariant forall i | 0 <= i < k :: !Legality.IsInCheck(WithKingAt(b, row, cols[i], p), p)
      {
        var sq := Sq(row, cols[k]);
        var backup := board[sq];
        board[sq] := KingCode(p);
        assert board[..] == WithKingAt(b, row, cols[k], p);
        var check := IsInCheck(p);
        if check {
          safe := false;
        }
        board[sq] := backup;
        assert board[..] == b;
        if !safe {
          break;
        }
        k := k + 1;
      }
    }

    /**
     * The castling branch of the king rule: from e1 (White) or e8 (Black),
     * two squares along the home row, with the flags, the empty squares and
     * the three probes of that side.
     */
    method TryCastling(fr: int, fc: int, tr: int, tc: int, color: int) returns (legal: bool)
      requires Valid() && InRange(fr, fc) && InRange(tr, tc)
      requires color == ColorOf(board[Sq(fr, fc)])
      modifies board
      ensures board[..] == old(board[..])
      ensures legal == CastlingMove(old(board[..]), CastlingFlags(), fr, fc, tr, tc)
      decreases if board[Sq(tr, tc)] == 0 then 3 else 0, 0
    {
      var dr, dc := tr - fr, tc - fc;
      if color == 0 && fr == 7 && fc == 4 && dr == 0 {
        if dc == 2 && !whiteKingMoved && !whiteKingsideRookMoved && board[Sq(7, 5)] == 0 && board[Sq(7, 6)] == 0 {
          var safe := CastlingPathSafe(7, [4, 5, 6], 0);
          if safe {
            return true;
          }
        }
        if dc == -2 && !whiteKingMoved && !whiteQueensideRookMoved &&
           board[Sq(7, 3)] == 0 && board[Sq(7, 2)] == 0 && board[Sq(7, 1)] == 0 {
          var safe := CastlingPathSafe(7, [4, 3, 2], 0);
          if safe {
            return true;
          }
        }
      }
      if color == 1 && fr == 0 && fc == 4 && dr == 0 {
        if dc == 2 && !blackKingMoved && !blackKingsideRookMoved && board[Sq(0, 5)] == 0 && board[Sq(0, 6)] == 0 {
          var safe := CastlingPathSafe(0, [4, 5, 6], 1);
          if safe {
            return true;
          }
        }
        if dc == -2 && !blackKingMoved && !blackQueensideRookMoved &&
           board[Sq(0, 3)] == 0 && board[Sq(0, 2)] == 0 && board[Sq(0, 1)] == 0 {
          var safe := CastlingPathSafe(0, [4, 3, 2], 1);
          if safe {
            return true;
          }
        }
      }
      return false;
    }

    /** The pawn case of isLegalMove, for a pawn of either colour on (fr, fc). */
    method PawnRule(fr: int, fc: int, tr: int, tc: int) returns (legal: bool)
      requires Valid() && InRange(fr, fc) && InRange(tr, tc)
      ensures legal == PawnPattern(board[..], fr, fc, tr, tc)
    {
      var color := Div10(board[Sq(fr, fc)]);
      var target := board[Sq(tr, tc)];
      var targetColor := Div10(target);
      var dr, dc := tr - fr, tc - fc;
      if color == 1 {
        // Black: the double step from row 1, the single step, the diagonal capture of a white piece
        legal := (fr == 1 && dr == 2 && dc == 0 && board[Sq(fr + 1, fc)] == 0 && target == 0) ||
                 (dr == 1 && dc == 0 && target == 0) ||
                 (dr == 1 && Abs(dc) == 1 && target != 0 && targetColor == 0);
      } else {
        // White: the same toward row 0, capturing a black piece
        legal := (fr == 6 && dr == -2 && dc == 0 && board[Sq(fr - 1, fc)] == 0 && target == 0) ||
                 (dr == -1 && dc == 0 && target == 0) ||
                 (dr == -1 && Abs(dc) == 1 && target != 0 && targetColor == 1);
      }
    }

    /**
     * isLegalMove: the guards, then the movement rule of the piece, with the
     * castling branch of the king rule probing the board in place.
     */
    method IsLegalMove(fr: int, fc: int, tr: int, tc: int, mover: int) returns (legal: bool)
      requires Valid() && InRange(fr, fc) && InRange(tr, tc)
      modifies board
      ensures board[..] == old(board[..])
      ensures legal == Legality.IsLegalMove(old(board[..]), CastlingFlags(), fr, fc, tr, tc, mover)
      decreases if board[Sq(tr, tc)] == 0 then 3 else 0, 1
    {
      ghost var b, f := board[..], CastlingFlags();
      var val := board[Sq(fr, fc)];
      var color, piece := Div10(val), Rem10(val);
      var target := board[Sq(tr, tc)];
      var targetColor := Div10(target);
      // only the mover's own piece may move
      if color != mover {
        return false;
      }
      // no capture of one's own piece; this also refuses the null move
      if target != 0 && color == targetColor {
        return false;
      }
      var dr, dc := tr - fr, tc - fc;
      legal := false;
      assert Guards(b, fr, fc, tr, tc, mover);
      if piece == 1 {
        legal := PawnRule(fr, fc, tr, tc);
      } else if piece == 2 {
        if Abs(dr) <= 1 && Abs(dc) <= 1 {
          legal := true;
        } else {
          legal := TryCastling(fr, fc, tr, tc, color);
          assert legal == CastlingMove(b, f, fr, fc, tr, tc);
        }
      } else if piece == 3 {
        if Abs(dr) == Abs(dc) || dr == 0 || dc == 0 {
          legal := PathIsClear(fr, fc, tr, tc);
        }
      } else if piece == 4 {
        if dr == 0 || dc == 0 {
          legal := PathIsClear(fr, fc, tr, tc);
        }
      } else if piece == 5 {
        if Abs(dr) == Abs(dc) {
          legal := PathIsClear(fr, fc, tr, tc);
        }
      } else if piece == 6 {
        legal := (Abs(dr) == 2 && Abs(dc) == 1) || (Abs(dr) == 1 && Abs(dc) == 2);
      }
      assert legal == Legality.IsLegalMove(b, f, fr, fc, tr, tc, mover);
    }

    /**
     * The trial move of isCheckmate and updateAvailableMoves: copy the piece
     * onto the destination, empty its origin, test p for check, and put both
     * squares back.
     */
    method TrialMove(fr: int, fc: int, tr: int, tc: int, p: Player) returns (stillInCheck: bool)
      requires Valid() && InRange(fr, fc) && InRange(tr, tc) && (fr, fc) != (tr, tc)
      requires KingPresent(Apply(board[..], fr, fc, tr, tc), p)
      modifies board
      ensures board[..] == old(board[..])
      ensures stillInCheck == Legality.IsInCheck(Apply(old(board[..]), fr, fc, tr, tc), p)
    {
      ghost var b := board[..];
      var backup := board[Sq(tr, tc)];
      var movedPiece := board[Sq(fr, fc)];
      board[Sq(tr, tc)] := movedPiece;
      board[Sq(fr, fc)] := 0;
      assert board[..] == Apply(b, fr, fc, tr, tc);
      stillInCheck := IsInCheck(p);
      board[Sq(fr, fc)] := movedPiece;
      board[Sq(tr, tc)] := backup;
      assert board[..] == b;
    }

    /** One destination of isCheckmate and updateAvailableMoves: is (fr, fc) -> (tr, tc) legal for p, and does the trial move leave p out of check? */
    method EscapeTo(fr: int, fc: int, tr: int, tc: int, p: Player) returns (escape: bool)
      requires Valid() && InRange(fr, fc) && InRange(tr, tc) && KingPresent(board[..], p)
      modifies board
      ensures board[..] == old(board[..])
      ensures escape == EscapeMove(old(board[..]), CastlingFlags(), p, fr, fc, tr, tc)
    {
      ghost var b, f := board[..], CastlingFlags();
      var legal := IsLegalMove(fr, fc, tr, tc, p);
      escape := false;
      if legal {
        LegalityFacts.LegalMoveGuards(b, f, fr, fc, tr, tc, p);
        KingSurvivesMove(b, f, p, fr, fc, tr, tc);
        var stillInCheck := TrialMove(fr, fc, tr, tc, p);
        escape := !stillInCheck;
      }
    }

    /** The two inner loops of isCheckmate: does some legal move of the piece on (fr, fc) get p out of check? */
    method EscapeFrom(fr: int, fc: int, p: Player) returns (escape: bool)
      requires Valid() && InRange(fr, fc) && KingPresent(board[..], p)
      modifies board
      ensures board[..] == old(board[..])
      ensures escape == PieceEscapes(old(board[..]), CastlingFlags(), p, fr, fc)
    {
      ghost var b, f := board[..], CastlingFlags();
      var toRow := 0;
      while toRow < 8
        invariant 0 <= toRow <= 8 && board[..] == b && CastlingFlags() == f
        invariant NoEscapeBefore(b, f, p, fr, fc, 8 * toRow)
      {
        var toCol := 0;
        while toCol < 8
          invariant 0 <= toCol <= 8 && board[..] == b && CastlingFlags() == f
          invariant NoEscapeBefore(b, f, p, fr, fc, 8 * toRow + toCol)
        {
          var found := EscapeTo(fr, fc, toRow, toCol, p);
          if found {
            assert PieceEscapes(b, f, p, fr, fc);
            return true;
          }
          SqCoords(toRow, toCol);
          toCol := toCol + 1;
        }
        toRow := toRow + 1;
      }
      NoEscapeAtAll(b, f, p, fr, fc);
      return false;
    }

    /**
     * isCheckmate: p is in check and no piece of p has a legal move that,
     * tried on the board and taken back, leaves p out of check.
     */
    method IsCheckmate(p: Player) returns (mate: bool)
      requires Valid() && KingPresent(board[..], p)
      modifies board
      ensures board[..] == old(board[..])
      ensures mate == Checkmate.IsCheckmate(old(board[..]), CastlingFlags(), p)
    {
      ghost var b, f := board[..], CastlingFlags();
      var inCheck := IsInCheck(p);
      if !inCheck {
        return false;
      }
      var fromRow := 0;
      while fromRow < 8
        invariant 0 <= fromRow <= 8 && board[..] == b && CastlingFlags() == f
        invariant forall r, c | 0 <= r < fromRow && 0 <= c < 8 :: !PieceEscapes(b, f, p, r, c)
      {
        var fromCol := 0;
        while fromCol < 8
          invariant 0 <= fromCol <= 8 && board[..] == b && CastlingFlags() == f
          invariant forall r, c | 0 <= r < fromRow && 0 <= c < 8 :: !PieceEscapes(b, f, p, r, c)
          invariant forall c | 0 <= c < fromCol :: !PieceEscapes(b, f, p, fromRow, c)
        {
          var val := board[Sq(fromRow, fromCol)];
          var color := Div10(val);
          // only the player's own pieces are tried
          if p == color {
            var found := EscapeFrom(fromRow, fromCol, p);
            if found {
              return false;
            }
          }
          fromCol := fromCol + 1;
        }
        fromRow := fromRow + 1;
      }
      return true;
    }

    /** The first loop of updateAvailableMoves: every square unmarked. */
    method ClearAvailableMoves()
      requires Valid()
      modifies availableMoves
      ensures availableMoves[..] == seq(64, _ => false)
    {
      var i := 0;
      while i < 8
        invariant 0 <= i <= 8
        invariant forall k | 0 <= k < 8 * i :: !availableMoves[k]
      {
        var j := 0;
        while j < 8
          invariant 0 <= j <= 8
          invariant forall k | 0 <= k < 8 * i + j :: !availableMoves[k]
        {
          availableMoves[Sq(i, j)] := false;
          j := j + 1;
        }
        i := i + 1;
      }
    }

    /** One destination of the highlighter: mark (r, c) when moving the selected piece there is an escape. */
    method MarkSquare(r: int, c: int)
      requires Valid() && InRange(selectedRow, selectedCol) && InRange(r, c)
      requires KingPresent(board[..], currentPlayer)
      modifies board, availableMoves
      ensures board[..] == old(board[..])
      ensures availableMoves[..] == old(availableMoves[..])[Sq(r, c) :=
        old(availableMoves[Sq(r, c)]) || EscapeMove(old(board[..]), CastlingFlags(), currentPlayer, selectedRow, selectedCol, r, c)]
    {
      var escape := EscapeTo(selectedRow, selectedCol, r, c, currentPlayer);
      if escape {
        // marked twice, as main.c:673 and 678 do; here both writes come after TrialMove has taken the move back
        availableMoves[Sq(r, c)] := true;
        availableMoves[Sq(r, c)] := true;
      }
    }

    /**
     * The scan of updateAvailableMoves for a selected piece of the player to
     * move: mark each destination whose move is an escape.
     */
    method MarkEscapes()
      requires Valid() && InRange(selectedRow, selectedCol) && KingPresent(board[..], currentPlayer)
      requires At(board[..], selectedRow, selectedCol) != 0
      requires ColorOf(At(board[..], selectedRow, selectedCol)) == currentPlayer
      requires availableMoves[..] == seq(64, _ => false)
      modifies board, availableMoves
      ensures board[..] == old(board[..])
      ensures availableMoves[..] == Highlights(old(board[..]), CastlingFlags(), currentPlayer, selectedRow, selectedCol)
    {
      ghost var b, f, p := board[..], CastlingFlags(), currentPlayer;
      var r := 0;
      while r < 8
        invariant 0 <= r <= 8 && board[..] == b && CastlingFlags() == f
        invariant MarksEscapes(availableMoves[..8 * r], b, f, p, selectedRow, selectedCol)
        invariant forall k | 8 * r <= k < 64 :: !availableMoves[k]
      {
        var c := 0;
        while c < 8
          invariant 0 <= c <= 8 && board[..] == b && CastlingFlags() == f
          invariant MarksEscapes(availableMoves[..8 * r + c], b, f, p, selectedRow, selectedCol)
          invariant forall k | 8 * r + c <= k < 64 :: !availableMoves[k]
        {
          ghost var before := availableMoves[..];
          MarkSquare(r, c);
          SqCoords(r, c);
          assert availableMoves[..Sq(r, c) + 1] ==
            before[..Sq(r, c)] + [EscapeMove(b, f, p, selectedRow, selectedCol, r, c)];
          c := c + 1;
        }
        r := r + 1;
      }
      assert availableMoves[..] == availableMoves[..64];
      EscapesAreHighlights(availableMoves[..], b, f, p, selectedRow, selectedCol);
    }

    /**
     * updateAvailableMoves: clear the grid, then, for a selected piece of the
     * player to move, mark every destination whose legal move, tried on the
     * board and taken back, leaves the player out of check.
     */
    method UpdateAvailableMoves()
      requires Valid() && (selectedRow != -1 ==> KingPresent(board[..], currentPlayer))
      modifies board, availableMoves
      ensures board[..] == old(board[..])
      ensures availableMoves[..] == Highlights(old(board[..]), CastlingFlags(), currentPlayer, selectedRow, selectedCol)
    {
      ghost var b, f, p := board[..], CastlingFlags(), currentPlayer;
      ClearAvailableMoves();
      if selectedRow == -1 || selectedCol == -1 {
        NoSelectionNoHighlights(b, f, p, selectedRow, selectedCol);
        return;
      }
      var val := board[Sq(selectedRow, selectedCol)];
      var color := Div10(val);
      if val == 0 || color != currentPlayer {
        NoSelectionNoHighlights(b, f, p, selectedRow, selectedCol);
        return;
      }
      MarkEscapes();
    }


    /** The first flag block after a move: a king leaving e1/e8 or a rook leaving its corner loses its castling right. */
    method MarkMovedFlags(movedPiece: int)
      modifies this`whiteKingMoved, this`blackKingMoved, this`whiteKingsideRookMoved,
        this`whiteQueensideRookMoved, this`blackKingsideRookMoved, this`blackQueensideRookMoved
      ensures CastlingFlags() == MarkMoved(old(CastlingFlags()), movedPiece, selectedRow, selectedCol)
    {
      if movedPiece == 2 && selectedRow == 7 && selectedCol == 4 {
        whiteKingMoved := true;
      }
      if movedPiece == 12 && selectedRow == 0 && selectedCol == 4 {
        blackKingMoved := true;
      }
      if movedPiece == 4 && selectedRow == 7 && selectedCol == 7 {
        whiteKingsideRookMoved := true;
      }
      if movedPiece == 4 && selectedRow == 7 && selectedCol == 0 {
        whiteQueensideRookMoved := true;
      }
      if movedPiece == 14 && selectedRow == 0 && selectedCol == 7 {
        blackKingsideRookMoved := true;
      }
      if movedPiece == 14 && selectedRow == 0 && selectedCol == 0 {
        blackQueensideRookMoved := true;
      }
    }

    /** The castling rook move: a king that went from e1/e8 to g or c brings the corner piece next to it. */
    method CastleRook(movedPiece: int, row: int, col: int)
      requires Valid()
      modifies board
      ensures board[..] == RelocateRook(old(board[..]), movedPiece, selectedRow, selectedCol, row, col)
    {
      if movedPiece == 2 && selectedRow == 7 && selectedCol == 4 && row == 7 && col == 6 {
        board[Sq(7, 5)] := board[Sq(7, 7)];
        board[Sq(7, 7)] := 0;
      }
      if movedPiece == 2 && selectedRow == 7 && selectedCol == 4 && row == 7 && col == 2 {
        board[Sq(7, 3)] := board[Sq(7, 0)];
        board[Sq(7, 0)] := 0;
      }
      if movedPiece == 12 && selectedRow == 0 && selectedCol == 4 && row == 0 && col == 6 {
        board[Sq(0, 5)] := board[Sq(0, 7)];
        board[Sq(0, 7)] := 0;
      }
      if movedPiece == 12 && selectedRow == 0 && selectedCol == 4 && row == 0 && col == 2 {
        board[Sq(0, 3)] := board[Sq(0, 0)];
        board[Sq(0, 0)] := 0;
      }
    }

    /** The second flag block, run after a king move that left the king unattacked. */
    method MarkKingMoveFlags(movedPiece: int)
      modifies this`whiteKingMoved, this`blackKingMoved, this`whiteKingsideRookMoved,
        this`whiteQueensideRookMoved, this`blackKingsideRookMoved, this`blackQueensideRookMoved
      ensures CastlingFlags() == MarkKingMove(old(CastlingFlags()), movedPiece, selectedRow, selectedCol)
    {
      if movedPiece == 2 {
        whiteKingMoved := true;
      }
      if movedPiece == 12 {
        blackKingMoved := true;
      }
      if movedPiece == 4 && selectedRow == 7 && selectedCol == 0 {
        whiteQueensideRookMoved := true;
      }
      if movedPiece == 4 && selectedRow == 7 && selectedCol == 7 {
        whiteKingsideRookMoved := true;
      }
      if movedPiece == 14 && selectedRow == 0 && selectedCol == 0 {
        blackQueensideRookMoved := true;
      }
      if movedPiece == 14 && selectedRow == 0 && selectedCol == 7 {
        blackKingsideRookMoved := true;
      }
    }

    /** Pawn promotion: a pawn on its last rank becomes a queen of its colour. */
    method PromotePawn(movedPiece: int, row: int, col: int)
      requires Valid() && InRange(row, col)
      modifies board
      ensures board[..] == Promote(old(board[..]), movedPiece, row, col)
    {
      var piece := Rem10(movedPiece);
      var color := Div10(movedPiece);
      if piece == 1 {
        if (color == 0 && row == 0) || (color == 1 && row == 7) {
          board[Sq(row, col)] := color * 10 + 3;
        }
      }
    }

    /**
     * Making a legal move: copy the piece, update the flags, relocate the rook
     * of a castling whose king is not attacked, and promote a pawn.
     */
    method PlayMove(row: int, col: int) returns (backup: int, movedPiece: int)
      requires Valid() && InRange(row, col) && InRange(selectedRow, selectedCol)
      requires (selectedRow, selectedCol) != (row, col)
      requires ColorOf(At(board[..], selectedRow, selectedCol)) == currentPlayer
      modifies board, this`whiteKingMoved, this`blackKingMoved, this`whiteKingsideRookMoved,
        this`whiteQueensideRookMoved, this`blackKingsideRookMoved, this`blackQueensideRookMoved
      ensures backup == At(old(board[..]), row, col) && movedPiece == At(old(board[..]), selectedRow, selectedCol)
      ensures board[..] == Played(old(board[..]), currentPlayer, selectedRow, selectedCol, row, col)
      ensures CastlingFlags() == PlayedFlags(old(board[..]), old(CastlingFlags()), currentPlayer, selectedRow, selectedCol, row, col)
    {
      ghost var b, f, p := board[..], CastlingFlags(), currentPlayer;
      backup := board[Sq(row, col)];
      movedPiece := board[Sq(selectedRow, selectedCol)];
      board[Sq(row, col)] := movedPiece;
      board[Sq(selectedRow, selectedCol)] := 0;
      assert board[..] == Apply(b, selectedRow, selectedCol, row, col);
      MarkMovedFlags(movedPiece);
      if Rem10(movedPiece) == 2 {
        CodeFromColorAndKind(movedPiece, p, 2);
        assert board[Sq(row, col)] == KingCode(p);
        var kingAttacked := IsInCheck(currentPlayer);
        if !kingAttacked {
          CastleRook(movedPiece, row, col);
          MarkKingMoveFlags(movedPiece);
        }
      }
      PromotePawn(movedPiece, row, col);
    }

    /**
     * The click on (row, col) while a piece is selected, up to the clearing
     * of the selection: refuse, or make the move with its flag updates,
     * rook relocation and promotion, then keep it and pass the turn, or take
     * it back when it leaves the mover in check.
     */
    method TryMove(row: int, col: int) returns (outcome: Outcome)
      requires Valid() && InRange(row, col) && InRange(selectedRow, selectedCol)
      requires KingPresent(board[..], currentPlayer)
      modifies board, this`currentPlayer, this`whiteKingMoved, this`blackKingMoved, this`whiteKingsideRookMoved,
        this`whiteQueensideRookMoved, this`blackKingsideRookMoved, this`blackQueensideRookMoved
      ensures Valid()
      ensures Step(State(), outcome) == Attempt(old(State()), row, col)
    {
      ghost var s := State();
      ghost var b, f, p := board[..], CastlingFlags(), currentPlayer;
      if selectedRow == row && selectedCol == col {
        return Deselected;
      }
      var legal := IsLegalMove(selectedRow, selectedCol, row, col, currentPlayer);
      if !legal {
        return Illegal;
      }
      LegalityFacts.LegalMoveGuards(b, f, selectedRow, selectedCol, row, col, p);
      var backup, movedPiece := PlayMove(row, col);
      PlayedKeepsKing(b, f, p, selectedRow, selectedCol, row, col);
      outcome := SettleMove(row, col, movedPiece, backup);
    }

    /**
     * The end of a move: when the mover is not in check, pass the turn and
     * test the new player for check and checkmate; otherwise put the moved
     * piece and the captured one back.
     */
    method SettleMove(row: int, col: int, movedPiece: int, backup: int) returns (outcome: Outcome)
      requires Valid() && InRange(row, col) && InRange(selectedRow, selectedCol)
      requires KingPresent(board[..], currentPlayer)
      modifies board, this`currentPlayer
      ensures Valid()
      ensures Step(State(), outcome) == Settle(old(State()), row, col, movedPiece, backup)
    {
      ghost var t := State();
      var leftInCheck := IsInCheck(currentPlayer);
      if !leftInCheck {
        currentPlayer := 1 - currentPlayer;
        var kingRow, kingCol := FindKing(currentPlayer);
        if kingRow == -1 {
          return MovedOpponentKingMissing(backup != 0);
        }
        var check := IsInCheck(currentPlayer);
        var mate := IsCheckmate(currentPlayer);
        return Moved(backup != 0, check, mate);
      }
      board[Sq(selectedRow, selectedCol)] := movedPiece;
      board[Sq(row, col)] := backup;
      return LeftInCheck;
    }

    /** The game branch of mouse: a left click on the board square (row, col). */
    method Click(row: int, col: int) returns (outcome: Outcome)
      requires Valid() && KingPresent(board[..], currentPlayer)
      modifies this, board, availableMoves
      ensures Valid() && board == old(board) && availableMoves == old(availableMoves)
      ensures Step(State(), outcome) == Turn.Click(old(State()), row, col)
    {
      if !(0 <= row < 8 && 0 <= col < 8) {
        return OffBoard;
      }
      if selectedRow == -1 {
        var val := board[Sq(row, col)];
        var color := Div10(val);
        // only the player's own piece can be selected
        if val != 0 && currentPlayer == color {
          selectedRow, selectedCol := row, col;
          UpdateAvailableMoves();
          return Selected;
        }
        return Ignored;
      }
      outcome := TryMove(row, col);
      selectedRow, selectedCol := -1, -1;
      UpdateAvailableMoves();
    }

    /** boardInitializer: copy the starting position into the board. */
    method BoardInitializer()
      requires Valid()
      modifies board
      ensures board[..] == InitialBoard()
    {
      var i := 0;
      while i < 8
        invariant 0 <= i <= 8
        invariant forall k | 0 <= k < 8 * i :: board[k] == InitialBoard()[k]
      {
        var j := 0;
        while j < 8
          invariant 0 <= j <= 8
          invariant forall k | 0 <= k < 8 * i + j :: board[k] == InitialBoard()[k]
        {
          board[Sq(i, j)] := InitialCell(i, j);
          j := j + 1;
        }
        i := i + 1;
      }
    }

    /**
     * The program's start: the zero-initialised globals, the board set up
     * by boardInitializer, and the player chosen as starter to move.
     */
    constructor (starter: Player)
      ensures Valid() && State() == NewGame(starter)
    {
      board := new int[64];
      availableMoves := new bool[64](_ => false);
      selectedRow, selectedCol := -1, -1;
      currentPlayer := starter;
      whiteKingMoved, blackKingMoved := false, false;
      whiteKingsideRookMoved, whiteQueensideRookMoved := false, false;
      blackKingsideRookMoved, blackQueensideRookMoved := false, false;
      new;
      BoardInitializer();
    }
  }
}
