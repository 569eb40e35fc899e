/**
 * King.getValidMoves beyond the eight steps: what castlingMove and freeWayCastling offer,
 * and how the rook scan assembles them.
 */
module CastlingFacts {
  import opened Pieces
  import opened Boards
  import opened Rules
  import opened RulesFacts
  import opened BoardFacts

  /** Cell j holds a rook of the king's colour: what the rook scan of getValidMoves looks for. */
  predicate RookOfKing(b: Cells, king: Piece, j: int)
    requires 0 <= j < 64
  {
    b[j].Some? && b[j].value.kind == Rook && b[j].value.color == king.color
  }

  /**
   * The two squares from the king toward side j (-1 or +1) are empty and accepted by the
   * filter; nothing else between king and rook is looked at.
   */
  predicate SideFree(b: Cells, king: Piece, j: int, ok: Filter)
  {
    && GetPiece(b, king.x + j, king.y).None? && ok(king.x + j, king.y)
    && GetPiece(b, king.x + 2 * j, king.y).None? && ok(king.x + 2 * j, king.y)
  }

  /** The castling toward the rook: an unmoved rook and a free way, landing two squares along the rank. */
  predicate CastlingOffer(b: Cells, king: Piece, rook: Piece, ok: Filter, m: Pos)
  {
    var j := CastlingSide(king, rook);
    !HasBeenMoved(rook) && SideFree(b, king, j, ok) && m == Pos(king.x + 2 * j, king.y)
  }

  /** Some rook of the king's colour on the cells k .. 63 offers castling to m. */
  predicate CastlesFrom(b: Cells, king: Piece, k: nat, ok: Filter, m: Pos)
  {
    exists j :: k <= j < 64 && RookOfKing(b, king, j) && CastlingOffer(b, king, b[j].value, ok, m)
  }

  /**
   * For one and the same filter, the occupancy test of freeWayCastling looks at the two
   * squares next to the king toward the rook and at nothing else: two boards that agree on
   * those squares get the same answer. The safety filter is a parameter here; the one the
   * king uses plays the move on a clone of the whole board, so it reads every square.
   */
  lemma FreeWayFrame(b1: Cells, b2: Cells, king: Piece, rook: Piece, ok: Filter)
    requires var j := CastlingSide(king, rook);
             && GetPiece(b1, king.x + j, king.y) == GetPiece(b2, king.x + j, king.y)
             && GetPiece(b1, king.x + 2 * j, king.y) == GetPiece(b2, king.x + 2 * j, king.y)
    ensures FreeWayCastling(b1, king, rook, ok) == FreeWayCastling(b2, king, rook, ok)
  {
  }

  /**
   * So, for one and the same filter, a piece anywhere but on those two squares, for instance
   * between them and the rook on the queen's side, neither blocks nor allows castling. A
   * piece that shields or exposes one of those squares changes the safety filter of the new
   * board, which this lemma keeps fixed.
   */
  lemma FreeWayIgnoresOtherSquares(b: Cells, king: Piece, rook: Piece, ok: Filter, p: Piece)
    requires var j := CastlingSide(king, rook);
             (p.x, p.y) != (king.x + j, king.y) && (p.x, p.y) != (king.x + 2 * j, king.y)
    ensures FreeWayCastling(AddPiece(b, p), king, rook, ok) == FreeWayCastling(b, king, rook, ok)
    ensures CastlingMove(AddPiece(b, p), king, rook, ok) == CastlingMove(b, king, rook, ok)
  {
    var j := CastlingSide(king, rook);
    GetAfterAdd(b, p, king.x + j, king.y);
    GetAfterAdd(b, p, king.x + 2 * j, king.y);
    FreeWayFrame(AddPiece(b, p), b, king, rook, ok);
  }

  /** castlingMove offers at most one square: the castling toward the rook, when it is allowed. */
  lemma CastlingMoveExact(b: Cells, king: Piece, rook: Piece, ok: Filter)
    ensures forall m :: m in CastlingMove(b, king, rook, ok) <==> CastlingOffer(b, king, rook, ok, m)
    ensures |CastlingMove(b, king, rook, ok)| <= 1
  {
  }

  /** One cell of the rook scan. */
  lemma CastlingScanStep(b: Cells, king: Piece, k: nat, ok: Filter)
    requires k < 64
    ensures RookOfKing(b, king, k) ==>
              CastlingScan(b, king, k, ok) == CastlingMove(b, king, b[k].value, ok) + CastlingScan(b, king, k + 1, ok)
    ensures !RookOfKing(b, king, k) ==> CastlingScan(b, king, k, ok) == CastlingScan(b, king, k + 1, ok)
  {
  }

  /** The scan from cell k on offers exactly the castlings of the king's rooks on cells k .. 63. */
  lemma {:induction false} CastlingScanMembers(b: Cells, king: Piece, k: nat, ok: Filter)
    requires k <= 64
    ensures forall m :: m in CastlingScan(b, king, k, ok) <==> CastlesFrom(b, king, k, ok, m)
    decreases 64 - k
  {
    if k < 64 {
      CastlingScanMembers(b, king, k + 1, ok);
      CastlingScanStep(b, king, k, ok);
      if RookOfKing(b, king, k) {
        CastlingMoveExact(b, king, b[k].value, ok);
      }
      forall m | CastlesFrom(b, king, k, ok, m) && !(RookOfKing(b, king, k) && CastlingOffer(b, king, b[k].value, ok, m))
        ensures CastlesFrom(b, king, k + 1, ok, m)
      {
        var j :| k <= j < 64 && RookOfKing(b, king, j) && CastlingOffer(b, king, b[j].value, ok, m);
        assert j != k;
      }
    }
  }

  /** A castling lands two squares from the king along its rank, over two free, accepted squares. */
  lemma CastlesFromShape(b: Cells, king: Piece, ok: Filter, m: Pos)
    requires CastlesFrom(b, king, 0, ok, m)
    ensures m.y == king.y
    ensures (m.x == king.x - 2 && SideFree(b, king, -1, ok)) || (m.x == king.x + 2 && SideFree(b, king, 1, ok))
    ensures GetPiece(b, m.x, m.y).None? && ok(m.x, m.y)
  {
  }

  /**
   * King.getValidMoves: the steps of traditionalMove, then, for a king whose own moved flag is
   * clear and that is not in danger, the castlings of its rooks.
   */
  lemma KingMovesExact(b: Cells, king: Piece, ok: Filter, inDanger: bool)
    ensures forall m :: m in KingMoves(b, king, ok, inDanger) <==>
              || (Neighbour(Pos(king.x, king.y), m) && Offerable(b, king.color, m, ok))
              || (!king.moved && !inDanger && CastlesFrom(b, king, 0, ok, m))
  {
    KingStepsExact(b, king, ok);
    CastlingScanMembers(b, king, 0, ok);
  }

  /** Every king move is accepted by the filter and lands on no piece of the king's colour. */
  lemma KingMovesOffer(b: Cells, king: Piece, ok: Filter, inDanger: bool)
    ensures forall m :: m in KingMoves(b, king, ok, inDanger) ==>
              ok(m.x, m.y) && !HoldsColor(b, m.x, m.y, king.color)
  {
    KingMovesExact(b, king, ok, inDanger);
    forall m | m in KingMoves(b, king, ok, inDanger) && !Neighbour(Pos(king.x, king.y), m)
      ensures ok(m.x, m.y) && !HoldsColor(b, m.x, m.y, king.color)
    {
      CastlesFromShape(b, king, ok, m);
    }
  }
}
