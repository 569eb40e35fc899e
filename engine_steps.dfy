/**
 * What one iteration of each loop of module Engine adds to the result. Every loop there
 * keeps `done + rest == whole`, where `rest` is the part of the Rules function still to be
 * walked; each lemma below says what `rest` becomes after one iteration.
 */
module EngineSteps {
  import opened Pieces
  import opened Boards
  import opened Rules
  import opened RulesFacts
  import opened CastlingFacts

  /** One offset of the loop of Knight.getValidMoves. */
  lemma KnightNext(b: Cells, p: Piece, i: nat, ok: Filter, done: seq<Pos>, whole: seq<Pos>)
    requires i < 8 && done + KnightScan(b, p, i, ok) == whole
    ensures (done + KnightOffer(b, p, i, ok)) + KnightScan(b, p, i + 1, ok) == whole
  {
    var offer, rest := KnightOffer(b, p, i, ok), KnightScan(b, p, i + 1, ok);
    assert done + (offer + rest) == (done + offer) + rest;
  }

  /** An accepted square on the board, not held by an own piece, is offered at step j. */
  function RayOffer(b: Cells, x: Coord, y: Coord, c: Color, dx: int, dy: int, j: int, ok: Filter): seq<Pos>
  {
    var q := RaySquare(x, y, dx, dy, j);
    if InsideBoard(q.x, q.y) && !HoldsColor(b, q.x, q.y, c) && ok(q.x, q.y) then [q] else []
  }

  /** pieceEaten once step j is looked at. */
  predicate RayEaten(b: Cells, x: Coord, y: Coord, dx: int, dy: int, j: int, eaten: bool)
  {
    eaten || RayCell(b, x, y, dx, dy, j).Some?
  }

  /** The walk breaks at step j: off the board, on an own piece, or after an accepted capture. */
  predicate RayStops(b: Cells, x: Coord, y: Coord, c: Color, dx: int, dy: int, j: int, eaten: bool, ok: Filter)
  {
    var q := RaySquare(x, y, dx, dy, j);
    || !InsideBoard(q.x, q.y) || HoldsColor(b, q.x, q.y, c)
    || (ok(q.x, q.y) && RayEaten(b, x, y, dx, dy, j, eaten))
  }

  /** Ray at step j in the terms of RayOffer, RayStops and RayEaten. */
  lemma RayUnfold(b: Cells, x: Coord, y: Coord, c: Color, dx: int, dy: int, j: nat, eaten: bool, ok: Filter)
    requires 1 <= j <= 7 && UnitStep(dx) && UnitStep(dy)
    ensures Ray(b, x, y, c, dx, dy, j, eaten, ok) ==
              if RayStops(b, x, y, c, dx, dy, j, eaten, ok) then RayOffer(b, x, y, c, dx, dy, j, ok)
              else RayOffer(b, x, y, c, dx, dy, j, ok) + Ray(b, x, y, c, dx, dy, j + 1, RayEaten(b, x, y, dx, dy, j, eaten), ok)
  {
    var q := RaySquare(x, y, dx, dy, j);
    var rest := Ray(b, x, y, c, dx, dy, j + 1, RayEaten(b, x, y, dx, dy, j, eaten), ok);
    if InsideBoard(q.x, q.y) && !HoldsColor(b, q.x, q.y, c) && !ok(q.x, q.y) {
      assert RayOffer(b, x, y, c, dx, dy, j, ok) + rest == [] + rest;
    }
  }

  /** Step j of a ray walk: what it offers, and whether the walk goes on. */
  lemma RayNext(b: Cells, x: Coord, y: Coord, c: Color, dx: int, dy: int, j: nat, eaten: bool, ok: Filter,
                done: seq<Pos>, whole: seq<Pos>)
    requires 1 <= j <= 7 && UnitStep(dx) && UnitStep(dy)
    requires done + Ray(b, x, y, c, dx, dy, j, eaten, ok) == whole
    ensures RayStops(b, x, y, c, dx, dy, j, eaten, ok) ==> done + RayOffer(b, x, y, c, dx, dy, j, ok) == whole
    ensures !RayStops(b, x, y, c, dx, dy, j, eaten, ok) ==>
              (done + RayOffer(b, x, y, c, dx, dy, j, ok)) + Ray(b, x, y, c, dx, dy, j + 1, RayEaten(b, x, y, dx, dy, j, eaten), ok) == whole
  {
    RayUnfold(b, x, y, c, dx, dy, j, eaten, ok);
    if !RayStops(b, x, y, c, dx, dy, j, eaten, ok) {
      var offer, rest := RayOffer(b, x, y, c, dx, dy, j, ok), Ray(b, x, y, c, dx, dy, j + 1, RayEaten(b, x, y, dx, dy, j, eaten), ok);
      assert done + (offer + rest) == (done + offer) + rest;
    }
  }

  /** The walk that reached step 8 has nothing left to add. */
  lemma RayEnd(b: Cells, x: Coord, y: Coord, c: Color, dx: int, dy: int, eaten: bool, ok: Filter,
               done: seq<Pos>, whole: seq<Pos>)
    requires UnitStep(dx) && UnitStep(dy)
    requires done + Ray(b, x, y, c, dx, dy, 8, eaten, ok) == whole
    ensures done == whole
  {
    assert done + [] == done;
  }

  /** One column dx of traditionalMove: the squares of that column, then the columns after it. */
  lemma KingColumnEnter(b: Cells, king: Piece, dx: int, ok: Filter, done: seq<Pos>, whole: seq<Pos>)
    requires -1 <= dx <= 1 && done + KingSteps(b, king, dx, ok) == whole
    ensures (done + KingColumn(b, king, dx, -1, ok)) + KingSteps(b, king, dx + 1, ok) == whole
  {
    var column, rest := KingColumn(b, king, dx, -1, ok), KingSteps(b, king, dx + 1, ok);
    assert done + (column + rest) == (done + column) + rest;
  }

  /** One offset dy of the column dx of traditionalMove. */
  lemma KingColumnNext(b: Cells, king: Piece, dx: int, dy: int, ok: Filter, done: seq<Pos>, whole: seq<Pos>)
    requires -1 <= dy <= 1 && done + KingColumn(b, king, dx, dy, ok) == whole
    ensures (done + if StepAccepted(b, king, dx, dy, ok) then [Pos(king.x + dx, king.y + dy)] else [])
            + KingColumn(b, king, dx, dy + 1, ok) == whole
  {
    KingColumnStep(b, king, dx, dy, ok);
    var rest := KingColumn(b, king, dx, dy + 1, ok);
    if StepAccepted(b, king, dx, dy, ok) {
      var q := Pos(king.x + dx, king.y + dy);
      assert done + ([q] + rest) == (done + [q]) + rest;
    } else {
      assert done + [] == done;
    }
  }

  /** Leaving the column dx of traditionalMove. */
  lemma KingColumnLeave(b: Cells, king: Piece, dx: int, ok: Filter, done: seq<Pos>, whole: seq<Pos>)
    requires done + KingColumn(b, king, dx, 2, ok) == whole
    ensures done == whole
  {
    assert done + [] == done;
  }

  /** After the column dx = 1 of traditionalMove nothing is left. */
  lemma KingStepsEnd(b: Cells, king: Piece, ok: Filter, done: seq<Pos>, whole: seq<Pos>)
    requires done + KingSteps(b, king, 2, ok) == whole
    ensures done == whole
  {
    assert done + [] == done;
  }

  /** One cell of the rook scan of King.getValidMoves. */
  lemma CastlingNext(b: Cells, king: Piece, k: nat, ok: Filter, done: seq<Pos>, whole: seq<Pos>)
    requires k < 64 && done + CastlingScan(b, king, k, ok) == whole
    ensures (done + if RookOfKing(b, king, k) then CastlingMove(b, king, b[k].value, ok) else [])
            + CastlingScan(b, king, k + 1, ok) == whole
  {
    CastlingScanStep(b, king, k, ok);
    var move := if RookOfKing(b, king, k) then CastlingMove(b, king, b[k].value, ok) else [];
    var rest := CastlingScan(b, king, k + 1, ok);
    assert CastlingScan(b, king, k, ok) == move + rest;
    assert done + (move + rest) == (done + move) + rest;
  }

  /** One cell of the scan of kingInDanger. */
  lemma AttackNext(b: Cells, c: Color, target: Pos, k: nat)
    requires k < 64
    ensures AttackScan(b, c, target, k) ==
              ((b[k].Some? && b[k].value.color != c && target in ValidMoves(b, b[k].value, false))
               || AttackScan(b, c, target, k + 1))
  {
  }

  /** One cell of the scan of trappedKing. */
  lemma TrappedNext(b: Cells, c: Color, k: nat)
    requires k < 64
    ensures TrappedScan(b, c, k) ==
              (!(b[k].Some? && b[k].value.color == c && |ValidMoves(b, b[k].value, true)| > 0)
               && TrappedScan(b, c, k + 1))
  {
  }
}
