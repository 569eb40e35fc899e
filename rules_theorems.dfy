/**
 * The promises of the generators as getValidMoves makes them, with the real safety filter,
 * and the three rules of chess/rules/Rules.java stated against independent definitions.
 */
module RulesTheorems {
  import opened Pieces
  import opened Boards
  import opened Rules
  import opened RulesFacts
  import opened CastlingFacts

  /**
   * getValidMoves with nextMove: no move lands on a piece of the mover's colour, and none
   * leaves the mover's king in danger once played by movePiece on a clone of the board.
   */
  lemma ValidMovesSafe(b: Cells, p: Piece)
    ensures forall m :: m in ValidMoves(b, p, true) ==>
              && !HoldsColor(b, m.x, m.y, p.color)
              && !KingInDanger(MovePiece(CloneBoard(b), p.x, p.y, m.x, m.y), p.color)
  {
    var ok := MoveFilter(b, p.x, p.y, p.color, true);
    match p.kind
    case NoKind =>
    case Pawn => PawnMovesOffer(b, p, ok);
    case Knight => KnightMovesExact(b, p, ok);
    case Bishop => BishopMovesOffer(b, p.x, p.y, p.color, ok);
    case Rook => RookMovesOffer(b, p.x, p.y, p.color, ok);
    case Queen => QueenMovesOffer(b, p, ok);
    case King => KingMovesOffer(b, p, ok, KingInDanger(b, p.color));
  }

  /** The filter of a move asked for without nextMove. */
  const AnySquare: Filter := (x: int, y: int) => true

  lemma UnfilteredAcceptsAll(b: Cells, x: int, y: int, c: Color)
    ensures AcceptsAll(MoveFilter(b, x, y, c, false))
  {
  }

  predicate StraightSlide(b: Cells, x: int, y: int, c: Color, m: Pos)
  {
    Slides(b, x, y, c, -1, 0, m) || Slides(b, x, y, c, 1, 0, m) || Slides(b, x, y, c, 0, -1, m) || Slides(b, x, y, c, 0, 1, m)
  }

  predicate DiagonalSlide(b: Cells, x: int, y: int, c: Color, m: Pos)
  {
    Slides(b, x, y, c, 1, 1, m) || Slides(b, x, y, c, -1, 1, m) || Slides(b, x, y, c, -1, -1, m) || Slides(b, x, y, c, 1, -1, m)
  }

  /**
   * Where a piece reaches when nobody asks about its own king: the geometry of each kind,
   * stated without the generators. This is what kingInDanger looks at.
   */
  predicate Reaches(b: Cells, p: Piece, m: Pos)
  {
    match p.kind
    case NoKind => false
    case Pawn => PawnStep(b, p, m, AnySquare) || PawnDoubleStep(b, p, m, AnySquare) || PawnCapture(b, p, m, AnySquare)
    case Knight => KnightJump(Pos(p.x, p.y), m) && InsideBoard(m.x, m.y) && !HoldsColor(b, m.x, m.y, p.color)
    case Bishop => DiagonalSlide(b, p.x, p.y, p.color, m)
    case Rook => StraightSlide(b, p.x, p.y, p.color, m)
    case Queen => StraightSlide(b, p.x, p.y, p.color, m) || DiagonalSlide(b, p.x, p.y, p.color, m)
    case King =>
      || (Neighbour(Pos(p.x, p.y), m) && InsideBoard(m.x, m.y) && !HoldsColor(b, m.x, m.y, p.color))
      || (!p.moved && CastlesFrom(b, p, 0, AnySquare, m))
  }

  /** Castling asked for without nextMove does not depend on which accepting filter is passed. */
  lemma CastlesFromUnfiltered(b: Cells, king: Piece, ok: Filter, m: Pos)
    requires AcceptsAll(ok)
    ensures CastlesFrom(b, king, 0, ok, m) <==> CastlesFrom(b, king, 0, AnySquare, m)
  {
    if CastlesFrom(b, king, 0, ok, m) {
      var j :| 0 <= j < 64 && RookOfKing(b, king, j) && CastlingOffer(b, king, b[j].value, ok, m);
      assert CastlingOffer(b, king, b[j].value, AnySquare, m);
    }
    if CastlesFrom(b, king, 0, AnySquare, m) {
      var j :| 0 <= j < 64 && RookOfKing(b, king, j) && CastlingOffer(b, king, b[j].value, AnySquare, m);
      assert CastlingOffer(b, king, b[j].value, ok, m);
    }
  }

  /**
   * Without nextMove each board brings its own filter, and both accept every square, so
   * freeWayCastling and castlingMove depend only on the two squares next to the king toward
   * the rook: a piece anywhere else neither blocks nor allows castling.
   */
  lemma UnfilteredFreeWayFrame(b1: Cells, b2: Cells, king: Piece, rook: Piece)
    requires var j := CastlingSide(king, rook);
             && GetPiece(b1, king.x + j, king.y) == GetPiece(b2, king.x + j, king.y)
             && GetPiece(b1, king.x + 2 * j, king.y) == GetPiece(b2, king.x + 2 * j, king.y)
    ensures var ok1, ok2 := MoveFilter(b1, king.x, king.y, king.color, false), MoveFilter(b2, king.x, king.y, king.color, false);
            && FreeWayCastling(b1, king, rook, ok1) == FreeWayCastling(b2, king, rook, ok2)
            && CastlingMove(b1, king, rook, ok1) == CastlingMove(b2, king, rook, ok2)
  {
  }

  /** getValidMoves without nextMove offers exactly the squares the piece reaches. */
  lemma UnfilteredMovesReach(b: Cells, p: Piece)
    ensures forall m :: m in ValidMoves(b, p, false) <==> Reaches(b, p, m)
  {
    var ok := MoveFilter(b, p.x, p.y, p.color, false);
    UnfilteredAcceptsAll(b, p.x, p.y, p.color);
    match p.kind
    case NoKind =>
    case Pawn => PawnMovesExact(b, p, ok);
    case Knight => KnightMovesExact(b, p, ok);
    case Bishop => BishopMovesUnfiltered(b, p.x, p.y, p.color, ok);
    case Rook => RookMovesUnfiltered(b, p.x, p.y, p.color, ok);
    case Queen =>
      QueenMovesOffer(b, p, ok);
      RookMovesUnfiltered(b, p.x, p.y, p.color, ok);
      BishopMovesUnfiltered(b, p.x, p.y, p.color, ok);
    case King =>
      KingMovesExact(b, p, ok, false);
      forall m {
        CastlesFromUnfiltered(b, p, ok, m);
      }
  }

  // ---------------------------------------------------------------------------------------
  // kingInDanger
  // ---------------------------------------------------------------------------------------

  /** Cell j holds a piece of the other colour whose unfiltered moves include the target. */
  predicate Attacker(b: Cells, c: Color, j: int, target: Pos)
    requires 0 <= j < 64
  {
    b[j].Some? && b[j].value.color != c && Reaches(b, b[j].value, target)
  }

  /** Some cell k .. 63 holds an attacker of the target. */
  predicate AttackedFrom(b: Cells, c: Color, target: Pos, k: nat)
  {
    exists j :: k <= j < 64 && Attacker(b, c, j, target)
  }

  /** One cell of the scan of kingInDanger. */
  lemma AttackScanStep(b: Cells, c: Color, target: Pos, k: nat)
    requires k < 64
    ensures AttackScan(b, c, target, k) <==> Attacker(b, c, k, target) || AttackScan(b, c, target, k + 1)
  {
    if b[k].Some? {
      UnfilteredMovesReach(b, b[k].value);
    }
  }

  lemma AttackedFromStep(b: Cells, c: Color, target: Pos, k: nat)
    requires k < 64
    ensures AttackedFrom(b, c, target, k) <==> Attacker(b, c, k, target) || AttackedFrom(b, c, target, k + 1)
  {
    if AttackedFrom(b, c, target, k) && !Attacker(b, c, k, target) {
      var j :| k <= j < 64 && Attacker(b, c, j, target);
      assert k + 1 <= j;
    }
  }

  /** The scan of kingInDanger from cell k on finds an attacker on the cells k .. 63. */
  lemma {:induction false} AttackScanExact(b: Cells, c: Color, target: Pos, k: nat)
    requires k <= 64
    ensures AttackScan(b, c, target, k) <==> AttackedFrom(b, c, target, k)
    decreases 64 - k
  {
    if k < 64 {
      AttackScanExact(b, c, target, k + 1);
      AttackScanStep(b, c, target, k);
      AttackedFromStep(b, c, target, k);
    }
  }

  /**
   * kingInDanger: the king found by getKing stands on a square some piece of the other colour
   * reaches; with no king found, never.
   */
  lemma KingInDangerExact(b: Cells, c: Color)
    ensures KingInDanger(b, c) <==>
              GetKing(b, c).Some? && AttackedFrom(b, c, Pos(GetKing(b, c).value.x, GetKing(b, c).value.y), 0)
  {
    if GetKing(b, c).Some? {
      AttackScanExact(b, c, Pos(GetKing(b, c).value.x, GetKing(b, c).value.y), 0);
    }
  }

  // ---------------------------------------------------------------------------------------
  // trappedKing
  // ---------------------------------------------------------------------------------------

  /** Cell j holds a piece of colour c with at least one filtered move. */
  predicate CanMove(b: Cells, c: Color, j: int)
    requires 0 <= j < 64
  {
    b[j].Some? && b[j].value.color == c && |ValidMoves(b, b[j].value, true)| > 0
  }

  /** No piece of colour c on the cells k .. 63 has a filtered move. */
  predicate NoneCanMove(b: Cells, c: Color, k: nat)
  {
    forall j :: k <= j < 64 ==> !CanMove(b, c, j)
  }

  lemma TrappedScanStep(b: Cells, c: Color, k: nat)
    requires k < 64
    ensures TrappedScan(b, c, k) <==> !CanMove(b, c, k) && TrappedScan(b, c, k + 1)
    ensures NoneCanMove(b, c, k) <==> !CanMove(b, c, k) && NoneCanMove(b, c, k + 1)
  {
  }

  lemma {:induction false} TrappedScanExact(b: Cells, c: Color, k: nat)
    requires k <= 64
    ensures TrappedScan(b, c, k) <==> NoneCanMove(b, c, k)
    decreases 64 - k
  {
    if k < 64 {
      TrappedScanExact(b, c, k + 1);
      TrappedScanStep(b, c, k);
    }
  }

  /**
   * trappedKing: no piece of the colour has a filtered move (true as well for a colour with
   * no pieces at all). Whether the king is in danger tells mate from stalemate.
   */
  lemma TrappedKingExact(b: Cells, c: Color)
    ensures TrappedKing(b, c) <==> NoneCanMove(b, c, 0)
  {
    TrappedScanExact(b, c, 0);
  }

  // ---------------------------------------------------------------------------------------
  // coronation
  // ---------------------------------------------------------------------------------------

  lemma {:induction false} CoronationScanExact(b: Cells, k: nat)
    requires k <= 64
    ensures CoronationScan(b, k).None? <==> forall j :: k <= j < 64 ==> !OnPromotionRank(b[j])
    ensures CoronationScan(b, k).Some? ==>
              exists j :: k <= j < 64 && b[j] == CoronationScan(b, k) && OnPromotionRank(b[j])
                          && forall i :: k <= i < j ==> !OnPromotionRank(b[i])
    decreases 64 - k
  {
    if k < 64 && !OnPromotionRank(b[k]) {
      CoronationScanExact(b, k + 1);
      if CoronationScan(b, k + 1).Some? {
        var j :| k + 1 <= j < 64 && b[j] == CoronationScan(b, k + 1) && OnPromotionRank(b[j])
                 && forall i :: k + 1 <= i < j ==> !OnPromotionRank(b[i]);
        assert forall i :: k <= i < j ==> !OnPromotionRank(b[i]);
      }
    }
  }

  /**
   * coronation: the first pawn, of either colour, in the row-major scan that stands on rank 0
   * or rank 7; nothing when there is none.
   */
  lemma CoronationExact(b: Cells)
    ensures Coronation(b).None? <==> forall j :: 0 <= j < 64 ==> !OnPromotionRank(b[j])
    ensures Coronation(b).Some? ==>
              && Coronation(b).value.kind == Pawn
              && (Coronation(b).value.y == 0 || Coronation(b).value.y == 7)
              && exists j :: 0 <= j < 64 && b[j] == Coronation(b) && forall i :: 0 <= i < j ==> !OnPromotionRank(b[i])
  {
    CoronationScanExact(b, 0);
  }
}
