/**
 * What chess/board/Board.java promises about its operations, proved about the board values
 * of module Boards: the accessors touch one cell, getKing finds the first king, cloneBoard
 * copies every cell, and movePiece either refuses the request or empties the source square,
 * puts the piece on the target square and applies exactly the side effects of its kind.
 */
module BoardFacts {
  import opened Pieces
  import opened Boards

  // ---------------------------------------------------------------------------------------
  // Accessors
  // ---------------------------------------------------------------------------------------

  /** getPiece after addPiece reads the piece back, and no other square changes. */
  lemma GetAfterAdd(b: Cells, p: Piece, x: int, y: int)
    ensures GetPiece(AddPiece(b, p), p.x, p.y) == Some(p)
    ensures (x, y) != (p.x, p.y) ==> GetPiece(AddPiece(b, p), x, y) == GetPiece(b, x, y)
  {
    if InsideBoard(x, y) && (x, y) != (p.x, p.y) {
      assert Idx(x, y) != Idx(p.x, p.y);
    }
  }

  /** getPiece after removePiece finds nothing on the piece's square, and no other square changes. */
  lemma GetAfterRemove(b: Cells, p: Piece, x: int, y: int)
    ensures GetPiece(RemovePiece(b, p), p.x, p.y) == None
    ensures (x, y) != (p.x, p.y) ==> GetPiece(RemovePiece(b, p), x, y) == GetPiece(b, x, y)
  {
    if InsideBoard(x, y) && (x, y) != (p.x, p.y) {
      assert Idx(x, y) != Idx(p.x, p.y);
    }
  }

  /** Adding a well-formed piece and removing any piece keep the board consistent. */
  lemma AddRemoveKeepConsistent(b: Cells, p: Piece)
    requires Consistent(b)
    ensures Consistent(RemovePiece(b, p))
    ensures WellFormed(p) ==> Consistent(AddPiece(b, p))
  {
  }

  /** getKing: the first king of the colour in the row-major scan, else the content of (7, 7). */
  lemma GetKingFirst(b: Cells, c: Color)
    ensures NoKingIn(b, c, 0, 64) ==> GetKing(b, c) == b[63]
    ensures forall j :: 0 <= j < 64 && IsKingOf(b[j], c) && NoKingIn(b, c, 0, j) ==> GetKing(b, c) == b[j]
  {
    KingScanFinds(b, c, 0);
  }

  /** So getKing answers a king of the colour exactly when the board holds one, or (7, 7) does. */
  lemma GetKingIsKing(b: Cells, c: Color)
    ensures IsKingOf(GetKing(b, c), c) <==> (exists j :: 0 <= j < 64 && IsKingOf(b[j], c))
  {
    KingScanFinds(b, c, 0);
    if exists j :: 0 <= j < 64 && IsKingOf(b[j], c) {
      var j := FirstKing(b, c, 0);
      assert IsKingOf(b[j], c);
    }
  }

  /** The first cell from k on that holds a king of colour c. */
  ghost function FirstKing(b: Cells, c: Color, k: nat): (j: nat)
    requires k <= 64
    requires exists i :: k <= i < 64 && IsKingOf(b[i], c)
    ensures k <= j < 64 && IsKingOf(b[j], c) && NoKingIn(b, c, k, j)
    decreases 64 - k
  {
    if IsKingOf(b[k], c) then k else FirstKing(b, c, k + 1)
  }

  // ---------------------------------------------------------------------------------------
  // cloneBoard
  // ---------------------------------------------------------------------------------------

  /**
   * cloneBoard keeps every piece, its square, colour and flags, and resets only the pawns'
   * ply counters; cloning a clone changes nothing more.
   */
  lemma CloneBoardContents(b: Cells)
    requires WellFormedBoard(b)
    ensures forall k :: 0 <= k < 64 ==> CloneBoard(b)[k].Some? == b[k].Some?
    ensures forall k :: 0 <= k < 64 && b[k].Some? ==>
              CloneBoard(b)[k] == Some(b[k].value.(movesSinceDB := 0))
    ensures Consistent(b) ==> Consistent(CloneBoard(b))
    ensures CloneBoard(CloneBoard(b)) == CloneBoard(b)
  {
    forall k | 0 <= k < 64 && b[k].Some?
      ensures CloneBoard(b)[k] == Some(b[k].value.(movesSinceDB := 0))
    {
      CloneOfWellFormed(b[k].value);
    }
    var c := CloneBoard(b);
    forall k | 0 <= k < 64
      ensures CloneBoard(c)[k] == c[k]
    {
      if c[k].Some? {
        CloneOfWellFormed(c[k].value);
      }
    }
  }

  /** A board whose pawns all count zero plies is its own clone, and only then. */
  lemma CloneBoardIdentity(b: Cells)
    requires WellFormedBoard(b)
    ensures CloneBoard(b) == b <==> forall k :: 0 <= k < 64 && b[k].Some? ==> b[k].value.movesSinceDB == 0
  {
    CloneBoardContents(b);
    if CloneBoard(b) == b {
      forall k | 0 <= k < 64 && b[k].Some?
        ensures b[k].value.movesSinceDB == 0
      {
        assert CloneBoard(b)[k] == b[k];
      }
    }
  }

  // ---------------------------------------------------------------------------------------
  // movePiece
  // ---------------------------------------------------------------------------------------

  /** The board right after lines 106-119 of movePiece: relocated, counters swept. */
  function Swept(b: Cells, oldX: Coord, oldY: Coord, newX: Coord, newY: Coord): Cells
    requires GetPiece(b, oldX, oldY).Some?
  {
    SweepPawns(Relocate(b, GetPiece(b, oldX, oldY).value, newX, newY))
  }

  /** A well-placed piece read from a square has that square as its coordinates. */
  lemma PieceOnItsSquare(b: Cells, x: Coord, y: Coord)
    requires WellPlaced(b) && b[Idx(x, y)].Some?
    ensures b[Idx(x, y)].value.x == x && b[Idx(x, y)].value.y == y
  {
  }

  lemma SweptCells(b: Cells, oldX: Coord, oldY: Coord, newX: Coord, newY: Coord)
    requires WellPlaced(b) && GetPiece(b, oldX, oldY).Some? && (oldX, oldY) != (newX, newY)
    ensures var p := b[Idx(oldX, oldY)].value;
            Swept(b, oldX, oldY, newX, newY)[Idx(newX, newY)]
            == SweepCell(Some(p.(x := newX, y := newY)))
    ensures Swept(b, oldX, oldY, newX, newY)[Idx(oldX, oldY)] == None
    ensures forall k :: 0 <= k < 64 && k != Idx(oldX, oldY) && k != Idx(newX, newY) ==>
              Swept(b, oldX, oldY, newX, newY)[k] == SweepCell(b[k])
    ensures WellPlaced(Swept(b, oldX, oldY, newX, newY))
    ensures WellFormedBoard(b) ==> WellFormedBoard(Swept(b, oldX, oldY, newX, newY))
  {
    PieceOnItsSquare(b, oldX, oldY);
    assert Idx(oldX, oldY) != Idx(newX, newY);
  }

  /** checkCastling: the king is marked moved and, after a jump, the edge piece of the old rank moves next to it. */
  lemma CastlingEffect(b: Cells, oldX: Coord, oldY: Coord, newX: Coord, newY: Coord)
    requires WellPlaced(b)
    ensures var m := MarkMoved(b, newX, newY);
            var rc := Idx(CastlingRookX(newX), oldY);
            var r := CheckCastling(b, oldX, oldY, newX, newY);
            && InsideBoard(newX + CastlingRookStep(newX), newY)
            && (!IsCastlingJump(oldX, oldY, newX, newY) || m[rc].None? ==> r == m)
            && (IsCastlingJump(oldX, oldY, newX, newY) && m[rc].Some? ==>
                  var rt := Idx(newX + CastlingRookStep(newX), newY);
                  && rt != rc
                  && r[rc] == None
                  && r[rt] == Some(m[rc].value.(x := newX + CastlingRookStep(newX), y := newY))
                  && forall k :: 0 <= k < 64 && k != rc && k != rt ==> r[k] == m[k])
  {
    var m := MarkMoved(b, newX, newY);
    var rc := Idx(CastlingRookX(newX), oldY);
    if IsCastlingJump(oldX, oldY, newX, newY) && m[rc].Some? {
      PieceOnItsSquare(m, CastlingRookX(newX), oldY);
    }
  }

  /**
   * checkEatenByPass: the pawn is marked moved; a two-rank step sets its doubleBox; a
   * diagonal step removes the piece beside it exactly when that is a pawn that double-stepped
   * one ply ago.
   */
  lemma EnPassantEffect(b: Cells, oldX: Coord, oldY: Coord, newX: Coord, newY: Coord)
    requires WellPlaced(b)
    ensures var m := MarkMoved(b, newX, newY);
            var r := CheckEatenByPass(b, oldX, oldY, newX, newY);
            var nc := Idx(newX, oldY);
            && (Abs(oldY - newY) == 2 ==> r == MarkDoubleStep(m, newX, newY))
            && (Abs(oldY - newY) != 2 && newX == oldX ==> r == m)
            && (Abs(oldY - newY) != 2 && newX != oldX ==>
                  && r[nc] == (if CapturableByPass(m[nc]) then None else m[nc])
                  && forall k :: 0 <= k < 64 && k != nc ==> r[k] == m[k])
  {
    var m := MarkMoved(b, newX, newY);
    var nc := Idx(newX, oldY);
    if Abs(oldY - newY) != 2 && newX != oldX && CapturableByPass(m[nc]) {
      PieceOnItsSquare(m, newX, oldY);
    }
  }

  /** A request movePiece refuses leaves the board as it was. */
  lemma IgnoredMoveIsNoOp(b: Cells, oldX: int, oldY: int, newX: int, newY: int)
    requires Ignored(b, oldX, oldY, newX, newY)
    ensures MovePiece(b, oldX, oldY, newX, newY) == b
  {
  }

  /** Any other request empties the source square, so movePiece changes the board exactly when it accepts. */
  lemma MoveEmptiesSource(b: Cells, oldX: int, oldY: int, newX: int, newY: int)
    requires WellPlaced(b)
    ensures !Ignored(b, oldX, oldY, newX, newY) ==> MovePiece(b, oldX, oldY, newX, newY)[Idx(oldX, oldY)] == None
    ensures MovePiece(b, oldX, oldY, newX, newY) == b <==> Ignored(b, oldX, oldY, newX, newY)
  {
    if !Ignored(b, oldX, oldY, newX, newY) {
      var src := Idx(oldX, oldY);
      SweptCells(b, oldX, oldY, newX, newY);
      var b1 := Swept(b, oldX, oldY, newX, newY);
      var p := b[src].value;
      var r := MovePiece(b, oldX, oldY, newX, newY);
      assert MarkMoved(b1, newX, newY)[src] == None;
      if p.kind == King {
        CastlingEffect(b1, oldX, oldY, newX, newY);
        if IsCastlingJump(oldX, oldY, newX, newY) {
          // the rook lands next to the king's target, never on the square the king left
          assert Idx(newX + CastlingRookStep(newX), newY) != src;
        }
      } else if p.kind == Pawn {
        EnPassantEffect(b1, oldX, oldY, newX, newY);
      }
      assert r[src] != b[src];
    }
  }

  /**
   * The piece on the target square after an accepted move: the mover, on its new square,
   * its own counter swept, moved if it keeps the flag, and double-stepped after a two-rank
   * pawn move. Two requests the generators never make are excepted: a king that jumps
   * along its rank onto column 0 or 7, whom checkCastling then takes for the rook, and a
   * sideways pawn move by a pawn that double-stepped on the last ply, which
   * checkEatenByPass takes for the pawn captured in passing.
   */
  lemma MoveTarget(b: Cells, oldX: int, oldY: int, newX: int, newY: int)
    requires WellPlaced(b)
    requires !Ignored(b, oldX, oldY, newX, newY)
    requires var p := GetPiece(b, oldX, oldY).value;
             !(p.kind == King && IsCastlingJump(oldX, oldY, newX, newY)
               && newY == oldY && CastlingRookX(newX) == newX)
    requires var p := GetPiece(b, oldX, oldY).value;
             !(p.kind == Pawn && newY == oldY && p.doubleBox && p.movesSinceDB == 0)
    ensures var p := GetPiece(b, oldX, oldY).value;
            var q := MovePiece(b, oldX, oldY, newX, newY)[Idx(newX, newY)];
            && q.Some?
            && q.value.kind == p.kind && q.value.color == p.color
            && q.value.x == newX && q.value.y == newY
            && q.value.moved == (p.moved || KeepsMovedFlag(p.kind))
            && q.value.doubleBox == (p.doubleBox || (p.kind == Pawn && Abs(oldY - newY) == 2))
            && q.value.movesSinceDB == (if DoubleBox(p) then p.movesSinceDB + 1 else p.movesSinceDB)
  {
    var dst := Idx(newX, newY);
    SweptCells(b, oldX, oldY, newX, newY);
    var b1 := Swept(b, oldX, oldY, newX, newY);
    var p := b[Idx(oldX, oldY)].value;
    if p.kind == King {
      CastlingEffect(b1, oldX, oldY, newX, newY);
      assert Idx(newX + CastlingRookStep(newX), newY) != dst;
    } else if p.kind == Pawn {
      EnPassantEffect(b1, oldX, oldY, newX, newY);
    }
  }

  /**
   * The first request MoveTarget excepts: a king that jumps along its rank onto column 0 or 7
   * stands where checkCastling looks for the rook, so it is itself moved next to that square,
   * marked moved, and the target square is left empty.
   */
  lemma KingJumpOntoEdge(b: Cells, oldX: int, oldY: int, newX: int, newY: int)
    requires WellPlaced(b)
    requires !Ignored(b, oldX, oldY, newX, newY)
    requires var p := GetPiece(b, oldX, oldY).value;
             p.kind == King && IsCastlingJump(oldX, oldY, newX, newY) && newY == oldY && CastlingRookX(newX) == newX
    ensures var p := GetPiece(b, oldX, oldY).value;
            var r := MovePiece(b, oldX, oldY, newX, newY);
            var s := newX + CastlingRookStep(newX);
            && InsideBoard(s, newY)
            && r[Idx(newX, newY)] == None
            && r[Idx(s, newY)].Some?
            && r[Idx(s, newY)].value.kind == King && r[Idx(s, newY)].value.color == p.color
            && r[Idx(s, newY)].value.x == s && r[Idx(s, newY)].value.y == newY
            && r[Idx(s, newY)].value.moved
  {
    SweptCells(b, oldX, oldY, newX, newY);
    var b1 := Swept(b, oldX, oldY, newX, newY);
    CastlingEffect(b1, oldX, oldY, newX, newY);
  }

  /**
   * The second request MoveTarget excepts: a pawn that double-stepped on the last ply and
   * moves sideways along its rank lands where checkEatenByPass looks for the pawn captured in
   * passing, so it removes itself and both squares end empty.
   */
  lemma PawnSidestepRemovesItself(b: Cells, oldX: int, oldY: int, newX: int, newY: int)
    requires WellPlaced(b)
    requires !Ignored(b, oldX, oldY, newX, newY)
    requires var p := GetPiece(b, oldX, oldY).value;
             p.kind == Pawn && newY == oldY && p.doubleBox && p.movesSinceDB == 0
    ensures var r := MovePiece(b, oldX, oldY, newX, newY);
            r[Idx(newX, newY)] == None && r[Idx(oldX, oldY)] == None
  {
    SweptCells(b, oldX, oldY, newX, newY);
    var b1 := Swept(b, oldX, oldY, newX, newY);
    EnPassantEffect(b1, oldX, oldY, newX, newY);
    MoveEmptiesSource(b, oldX, oldY, newX, newY);
  }

  /** The square checkCastling takes the rook from, and the one it puts it on. */
  function RookFrom(oldY: Coord, newX: Coord): nat
  {
    Idx(CastlingRookX(newX), oldY)
  }

  function RookTo(newX: Coord, newY: Coord): nat
    requires InsideBoard(newX + CastlingRookStep(newX), newY)
  {
    Idx(newX + CastlingRookStep(newX), newY)
  }

  /** Whether movePiece may change cell k as a side effect of the mover's kind. */
  predicate SideEffectCell(p: Piece, oldX: Coord, oldY: Coord, newX: Coord, newY: Coord, k: nat)
  {
    || (p.kind == King && IsCastlingJump(oldX, oldY, newX, newY)
        && (k == RookFrom(oldY, newX) || k == Idx(newX + CastlingRookStep(newX), newY)))
    || (p.kind == Pawn && Abs(oldY - newY) != 2 && newX != oldX && k == Idx(newX, oldY))
  }

  /**
   * Every other square keeps its piece, which only the sweep touches: a pawn that has
   * double-stepped counts one more ply.
   */
  lemma MoveOtherCells(b: Cells, oldX: int, oldY: int, newX: int, newY: int)
    requires WellPlaced(b)
    requires !Ignored(b, oldX, oldY, newX, newY)
    ensures var p := GetPiece(b, oldX, oldY).value;
            forall k :: 0 <= k < 64 && k != Idx(oldX, oldY) && k != Idx(newX, newY)
                        && !SideEffectCell(p, oldX, oldY, newX, newY, k) ==>
              MovePiece(b, oldX, oldY, newX, newY)[k] == SweepCell(b[k])
  {
    SweptCells(b, oldX, oldY, newX, newY);
    var b1 := Swept(b, oldX, oldY, newX, newY);
    var p := b[Idx(oldX, oldY)].value;
    if p.kind == King {
      CastlingEffect(b1, oldX, oldY, newX, newY);
    } else if p.kind == Pawn {
      EnPassantEffect(b1, oldX, oldY, newX, newY);
    }
  }

  /**
   * A king's jump moves whatever stands on the edge of its old rank, on the side of the jump,
   * next to the king's target square: no check that it is an unmoved rook of the king's
   * colour, and its moved flag is not set.
   */
  lemma MoveCastlesRook(b: Cells, oldX: int, oldY: int, newX: int, newY: int)
    requires WellPlaced(b)
    requires !Ignored(b, oldX, oldY, newX, newY)
    requires GetPiece(b, oldX, oldY).value.kind == King && IsCastlingJump(oldX, oldY, newX, newY)
    requires RookFrom(oldY, newX) != Idx(oldX, oldY) && RookFrom(oldY, newX) != Idx(newX, newY)
    ensures InsideBoard(newX + CastlingRookStep(newX), newY)
    ensures var r := MovePiece(b, oldX, oldY, newX, newY);
            var rook := SweepCell(b[RookFrom(oldY, newX)]);
            && (rook.Some? ==>
                  && r[RookFrom(oldY, newX)] == None
                  && r[RookTo(newX, newY)] == Some(rook.value.(x := newX + CastlingRookStep(newX), y := newY)))
  {
    SweptCells(b, oldX, oldY, newX, newY);
    var b1 := Swept(b, oldX, oldY, newX, newY);
    CastlingEffect(b1, oldX, oldY, newX, newY);
    assert RookTo(newX, newY) != Idx(oldX, oldY);
  }

  /**
   * A pawn's diagonal step removes the piece beside its target exactly when that is a pawn,
   * of either colour, that double-stepped on the ply before.
   */
  lemma MoveCapturesInPassing(b: Cells, oldX: int, oldY: int, newX: int, newY: int)
    requires WellPlaced(b)
    requires !Ignored(b, oldX, oldY, newX, newY)
    requires GetPiece(b, oldX, oldY).value.kind == Pawn
    requires newX != oldX && newY != oldY && Abs(oldY - newY) != 2
    ensures var next := b[Idx(newX, oldY)];
            MovePiece(b, oldX, oldY, newX, newY)[Idx(newX, oldY)]
            == if next.Some? && next.value.kind == Pawn && next.value.doubleBox && next.value.movesSinceDB == 0
               then None else SweepCell(next)
  {
    SweptCells(b, oldX, oldY, newX, newY);
    var b1 := Swept(b, oldX, oldY, newX, newY);
    EnPassantEffect(b1, oldX, oldY, newX, newY);
  }

  /** movePiece keeps every piece well formed and on the square its coordinates name. */
  lemma MoveKeepsConsistent(b: Cells, oldX: int, oldY: int, newX: int, newY: int)
    requires Consistent(b)
    ensures Consistent(MovePiece(b, oldX, oldY, newX, newY))
  {
    if !Ignored(b, oldX, oldY, newX, newY) {
      SweptCells(b, oldX, oldY, newX, newY);
      var b1 := Swept(b, oldX, oldY, newX, newY);
      var p := b[Idx(oldX, oldY)].value;
      var m := MarkMoved(b1, newX, newY);
      assert Consistent(m);
      if p.kind == King {
        CastlingEffect(b1, oldX, oldY, newX, newY);
      } else if p.kind == Pawn {
        EnPassantEffect(b1, oldX, oldY, newX, newY);
        assert Consistent(MarkDoubleStep(m, newX, newY));
      }
    }
  }

  // ---------------------------------------------------------------------------------------
  // setDefaultBoard
  // ---------------------------------------------------------------------------------------

  /** One square of the starting position. */
  lemma HomePieceFacts(x: Coord, y: Coord)
    ensures HomePiece(x, y).Some? <==> y <= 1 || 6 <= y
    ensures HomePiece(x, y).Some? ==>
              var p := HomePiece(x, y).value;
              && p.x == x && p.y == y && WellFormed(p)
              && p.color == (if y <= 1 then White else Black)
              && !p.moved && !p.doubleBox
    ensures forall c :: IsKingOf(HomePiece(x, y), c) <==> x == 4 && y == (if c == White then 0 else 7)
  {
  }

  /** The starting piece of a filled square is what the source's constructor call builds for it. */
  lemma HomeIsInitial(x: Coord, y: Coord)
    requires y <= 1 || 6 <= y
    ensures HomePiece(x, y) == Some(Initial(HomeKind(x, y), x, if y <= 1 then White else Black))
  {
    InitialValue(HomeKind(x, y), x, if y <= 1 then White else Black);
  }

  /** The per-square facts of the starting position, for every cell. */
  lemma DefaultCells()
    ensures forall k :: 0 <= k < 64 ==>
              && DefaultBoard()[k] == HomePiece(XOf(k), YOf(k))
              && (DefaultBoard()[k].Some? <==> YOf(k) <= 1 || 6 <= YOf(k))
              && (IsKingOf(DefaultBoard()[k], White) <==> k == 4)
              && (IsKingOf(DefaultBoard()[k], Black) <==> k == 60)
    ensures forall k :: 0 <= k < 64 && DefaultBoard()[k].Some? ==>
              && Idx(DefaultBoard()[k].value.x, DefaultBoard()[k].value.y) == k
              && WellFormed(DefaultBoard()[k].value)
              && DefaultBoard()[k].value.color == (if YOf(k) <= 1 then White else Black)
              && !DefaultBoard()[k].value.moved && !DefaultBoard()[k].value.doubleBox
  {
    forall k | 0 <= k < 64 {
      HomePieceFacts(XOf(k), YOf(k));
    }
  }

  lemma GetKingAt(b: Cells, c: Color, j: nat)
    requires j < 64 && IsKingOf(b[j], c) && NoKingIn(b, c, 0, j)
    ensures GetKing(b, c) == b[j]
  {
    GetKingFirst(b, c);
  }

  /**
   * The starting position is consistent: white on ranks 0 and 1, black on ranks 6 and 7,
   * nothing in between, no piece moved.
   */
  lemma DefaultBoardFacts()
    ensures Consistent(DefaultBoard())
    ensures forall k :: 0 <= k < 64 ==> (DefaultBoard()[k].Some? <==> YOf(k) <= 1 || 6 <= YOf(k))
    ensures forall k :: 0 <= k < 64 && DefaultBoard()[k].Some? ==>
              && DefaultBoard()[k].value.color == (if YOf(k) <= 1 then White else Black)
              && !DefaultBoard()[k].value.moved && !DefaultBoard()[k].value.doubleBox
  {
    DefaultCells();
  }

  /** getKing finds each king of the starting position on column 4 of its home rank. */
  lemma DefaultKings(d: Cells)
    requires forall k :: 0 <= k < 64 ==> d[k] == HomePiece(XOf(k), YOf(k))
    ensures GetKing(d, White) == Some(Initial(King, 4, White))
    ensures GetKing(d, Black) == Some(Initial(King, 4, Black))
    ensures Initial(King, 4, White).y == 0 && Initial(King, 4, Black).y == 7
  {
    forall k | 0 <= k < 64
      ensures IsKingOf(d[k], White) <==> k == 4
      ensures IsKingOf(d[k], Black) <==> k == 60
    {
      HomePieceFacts(XOf(k), YOf(k));
    }
    GetKingAt(d, White, 4);
    GetKingAt(d, Black, 60);
    assert d[4] == HomePiece(4, 0);
    assert d[60] == HomePiece(4, 7);
  }
}
