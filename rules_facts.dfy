/**
 * What the move generators and the rules of chess/rules/Rules.java promise, proved about the
 * functions of module Rules: where each kind may go, in which order the moves come, that a
 * filtered move never leaves the mover's king in danger, and what the three scans of the
 * rules answer.
 */
module RulesFacts {
  import opened Pieces
  import opened Boards
  import opened Rules

  /** No square is listed twice. */
  predicate Distinct(s: seq<Pos>)
  {
    forall i, j :: 0 <= i < j < |s| ==> s[i] != s[j]
  }

  lemma DistinctPrepend(q: Pos, s: seq<Pos>)
    requires Distinct(s) && q !in s
    ensures Distinct([q] + s)
  {
    var t := [q] + s;
    forall i, j | 0 <= i < j < |t|
      ensures t[i] != t[j]
    {
      if i == 0 {
        assert t[j] == s[j - 1];
      } else {
        assert t[i] == s[i - 1] && t[j] == s[j - 1];
      }
    }
  }

  /**
   * What every generator demands of a destination: on the board, not held by a piece of the
   * mover's colour, and accepted by the safety filter.
   */
  predicate Offerable(b: Cells, c: Color, m: Pos, ok: Filter)
  {
    InsideBoard(m.x, m.y) && !HoldsColor(b, m.x, m.y, c) && ok(m.x, m.y)
  }

  // ---------------------------------------------------------------------------------------
  // Knight
  // ---------------------------------------------------------------------------------------

  /** The L-shaped jump: one square along one axis and two along the other. */
  predicate KnightJump(from: Pos, m: Pos)
  {
    || (Abs(m.x - from.x) == 1 && Abs(m.y - from.y) == 2)
    || (Abs(m.x - from.x) == 2 && Abs(m.y - from.y) == 1)
  }

  function KnightTarget(p: Piece, t: nat): Pos
    requires t < 8
  {
    Pos(p.x + ColumnMoves[t], p.y + RowMoves[t])
  }

  /** The eight offset pairs are exactly the eight L-shaped jumps, each once. */
  lemma KnightOffsets(p: Piece, m: Pos)
    ensures KnightJump(Pos(p.x, p.y), m) <==> exists t :: 0 <= t < 8 && m == KnightTarget(p, t)
    ensures forall s, t :: 0 <= s < t < 8 ==> KnightTarget(p, s) != KnightTarget(p, t)
  {
    if KnightJump(Pos(p.x, p.y), m) {
      var dx, dy := m.x - p.x, m.y - p.y;
      var t := if dy == -2 then (if dx == -1 then 0 else 1)
               else if dy == -1 then (if dx == -2 then 2 else 3)
               else if dy == 1 then (if dx == -2 then 4 else 5)
               else (if dx == -1 then 6 else 7);
      assert m == KnightTarget(p, t);
    }
  }

  /** m is the target of one of the offsets i .. 7. */
  predicate KnightTargetFrom(p: Piece, i: nat, m: Pos)
  {
    exists t :: i <= t < 8 && m == KnightTarget(p, t)
  }

  /** What offset i offers: its target, exactly when that is acceptable. */
  lemma KnightOfferExact(b: Cells, p: Piece, i: nat, ok: Filter)
    requires i < 8
    ensures var q := KnightTarget(p, i);
            KnightOffer(b, p, i, ok) == if Offerable(b, p.color, q, ok) then [q] else []
  {
  }

  /** One offset of the scan: its target, if acceptable, before the rest. */
  lemma KnightScanStep(b: Cells, p: Piece, i: nat, ok: Filter)
    requires i < 8
    ensures var q := KnightTarget(p, i);
            Offerable(b, p.color, q, ok) ==> KnightScan(b, p, i, ok) == [q] + KnightScan(b, p, i + 1, ok)
    ensures var q := KnightTarget(p, i);
            !Offerable(b, p.color, q, ok) ==> KnightScan(b, p, i, ok) == KnightScan(b, p, i + 1, ok)
  {
    KnightOfferExact(b, p, i, ok);
    var rest := KnightScan(b, p, i + 1, ok);
    if !Offerable(b, p.color, KnightTarget(p, i), ok) {
      assert [] + rest == rest;
    }
  }

  /** The scan from offset i on offers exactly the acceptable targets of offsets i .. 7. */
  lemma {:induction false} KnightScanMembers(b: Cells, p: Piece, i: nat, ok: Filter)
    requires i <= 8
    ensures forall m :: m in KnightScan(b, p, i, ok) <==>
              KnightTargetFrom(p, i, m) && Offerable(b, p.color, m, ok)
    decreases 8 - i
  {
    if i < 8 {
      KnightScanMembers(b, p, i + 1, ok);
      KnightScanStep(b, p, i, ok);
      var q := KnightTarget(p, i);
      forall m | m != q && KnightTargetFrom(p, i, m)
        ensures KnightTargetFrom(p, i + 1, m)
      {
        var t :| i <= t < 8 && m == KnightTarget(p, t);
        assert t != i;
      }
    }
  }

  /** The scan from offset i on lists no square twice, and at most 8 - i of them. */
  lemma {:induction false} KnightScanDistinct(b: Cells, p: Piece, i: nat, ok: Filter)
    requires i <= 8
    ensures Distinct(KnightScan(b, p, i, ok))
    ensures |KnightScan(b, p, i, ok)| <= 8 - i
    decreases 8 - i
  {
    if i < 8 {
      KnightScanDistinct(b, p, i + 1, ok);
      KnightScanMembers(b, p, i + 1, ok);
      KnightScanStep(b, p, i, ok);
      var q := KnightTarget(p, i);
      var rest := KnightScan(b, p, i + 1, ok);
      KnightOffsets(p, q);
      assert !KnightTargetFrom(p, i + 1, q);
      if Offerable(b, p.color, q, ok) {
        DistinctPrepend(q, rest);
      }
    }
  }

  /**
   * Knight.getValidMoves: exactly the L-shaped jumps that land on the board, off the mover's
   * own pieces and, with ok, away from danger; at most eight, none twice.
   */
  lemma KnightMovesExact(b: Cells, p: Piece, ok: Filter)
    ensures forall m :: m in KnightMoves(b, p, ok) <==>
              KnightJump(Pos(p.x, p.y), m) && Offerable(b, p.color, m, ok)
    ensures Distinct(KnightMoves(b, p, ok)) && |KnightMoves(b, p, ok)| <= 8
  {
    KnightScanMembers(b, p, 0, ok);
    KnightScanDistinct(b, p, 0, ok);
    forall m {
      KnightOffsets(p, m);
    }
  }

  // ---------------------------------------------------------------------------------------
  // King steps
  // ---------------------------------------------------------------------------------------

  /** One of the eight squares around the king. */
  predicate Neighbour(from: Pos, m: Pos)
  {
    Abs(m.x - from.x) <= 1 && Abs(m.y - from.y) <= 1 && m != from
  }

  /** The test traditionalMove applies to the offset (dx, dy). */
  predicate StepAccepted(b: Cells, king: Piece, dx: int, dy: int, ok: Filter)
  {
    && InsideBoard(king.x + dx, king.y + dy) && !(dx == 0 && dy == 0)
    && !HoldsColor(b, king.x + dx, king.y + dy, king.color) && ok(king.x + dx, king.y + dy)
  }

  /** m is offered when the inner loop of traditionalMove walks the column dx from dy on. */
  predicate InColumnFrom(b: Cells, king: Piece, m: Pos, dx: int, dy: int, ok: Filter)
  {
    && m.x == king.x + dx && dy <= m.y - king.y <= 1
    && Neighbour(Pos(king.x, king.y), m) && Offerable(b, king.color, m, ok)
  }

  /** How many squares the column dx can still offer from dy on. */
  function ColumnLeft(dx: int, dy: int): int
  {
    (2 - dy) - (if dx == 0 && dy <= 0 then 1 else 0)
  }

  /** One iteration of the inner loop of traditionalMove. */
  lemma KingColumnStep(b: Cells, king: Piece, dx: int, dy: int, ok: Filter)
    requires -1 <= dy <= 1
    ensures StepAccepted(b, king, dx, dy, ok) ==>
              KingColumn(b, king, dx, dy, ok) == [Pos(king.x + dx, king.y + dy)] + KingColumn(b, king, dx, dy + 1, ok)
    ensures !StepAccepted(b, king, dx, dy, ok) ==> KingColumn(b, king, dx, dy, ok) == KingColumn(b, king, dx, dy + 1, ok)
  {
  }

  /**
   * Past the offset (dx, dy): its square is offered exactly when the test accepts it, and it
   * drops out of what the column still offers.
   */
  lemma InColumnShift(b: Cells, king: Piece, dx: int, dy: int, ok: Filter)
    requires -1 <= dx <= 1 && -1 <= dy <= 1
    ensures var q := Pos(king.x + dx, king.y + dy);
            && (InColumnFrom(b, king, q, dx, dy, ok) <==> StepAccepted(b, king, dx, dy, ok))
            && !InColumnFrom(b, king, q, dx, dy + 1, ok)
            && forall m :: m != q ==> (InColumnFrom(b, king, m, dx, dy, ok) <==> InColumnFrom(b, king, m, dx, dy + 1, ok))
  {
  }

  /** The column dx from dy on offers exactly the accepted squares of its remaining offsets, each once. */
  lemma {:induction false} KingColumnMembers(b: Cells, king: Piece, dx: int, dy: int, ok: Filter)
    requires -1 <= dx <= 1 && -1 <= dy <= 2
    ensures forall m :: m in KingColumn(b, king, dx, dy, ok) <==> InColumnFrom(b, king, m, dx, dy, ok)
    decreases 2 - dy
  {
    if dy < 2 {
      KingColumnMembers(b, king, dx, dy + 1, ok);
      KingColumnStep(b, king, dx, dy, ok);
      InColumnShift(b, king, dx, dy, ok);
    }
  }

  lemma {:induction false} KingColumnDistinct(b: Cells, king: Piece, dx: int, dy: int, ok: Filter)
    requires -1 <= dx <= 1 && -1 <= dy <= 2
    ensures Distinct(KingColumn(b, king, dx, dy, ok))
    ensures |KingColumn(b, king, dx, dy, ok)| <= ColumnLeft(dx, dy)
    decreases 2 - dy
  {
    if dy < 2 {
      KingColumnDistinct(b, king, dx, dy + 1, ok);
      KingColumnMembers(b, king, dx, dy + 1, ok);
      KingColumnStep(b, king, dx, dy, ok);
      InColumnShift(b, king, dx, dy, ok);
      if StepAccepted(b, king, dx, dy, ok) {
        DistinctPrepend(Pos(king.x + dx, king.y + dy), KingColumn(b, king, dx, dy + 1, ok));
      }
    }
  }

  /** The columns dx .. 1 offer exactly the accepted neighbours in those columns. */
  lemma {:induction false} KingStepsMembers(b: Cells, king: Piece, dx: int, ok: Filter)
    requires -1 <= dx <= 2
    ensures forall m :: m in KingSteps(b, king, dx, ok) <==>
              dx <= m.x - king.x && Neighbour(Pos(king.x, king.y), m) && Offerable(b, king.color, m, ok)
    decreases 2 - dx
  {
    if dx < 2 {
      KingStepsMembers(b, king, dx + 1, ok);
      KingColumnMembers(b, king, dx, -1, ok);
    }
  }

  /** The columns dx .. 1 list no square twice: 3 squares for a side column, 2 for the king's own. */
  lemma {:induction false} KingStepsDistinct(b: Cells, king: Piece, dx: int, ok: Filter)
    requires -1 <= dx <= 2
    ensures Distinct(KingSteps(b, king, dx, ok))
    ensures |KingSteps(b, king, dx, ok)| <= (if dx == -1 then 8 else if dx == 0 then 5 else if dx == 1 then 3 else 0)
    decreases 2 - dx
  {
    if dx < 2 {
      var col, rest := KingColumn(b, king, dx, -1, ok), KingSteps(b, king, dx + 1, ok);
      KingStepsDistinct(b, king, dx + 1, ok);
      ColumnsApart(b, king, dx, ok);
      KingColumnDistinct(b, king, dx, -1, ok);
      DistinctConcat(col, rest);
    }
  }

  /** The column dx and the columns after it have no square in common. */
  lemma ColumnsApart(b: Cells, king: Piece, dx: int, ok: Filter)
    requires -1 <= dx <= 1
    ensures forall m :: m in KingColumn(b, king, dx, -1, ok) ==> m !in KingSteps(b, king, dx + 1, ok)
  {
    KingStepsMembers(b, king, dx + 1, ok);
    KingColumnMembers(b, king, dx, -1, ok);
  }

  /**
   * King.traditionalMove: exactly the neighbouring squares on the board, off the king's own
   * pieces and accepted by the filter; at most eight, none twice.
   */
  lemma KingStepsExact(b: Cells, king: Piece, ok: Filter)
    ensures forall m :: m in KingSteps(b, king, -1, ok) <==>
              Neighbour(Pos(king.x, king.y), m) && Offerable(b, king.color, m, ok)
    ensures Distinct(KingSteps(b, king, -1, ok))
    ensures |KingSteps(b, king, -1, ok)| <= 8
  {
    KingStepsMembers(b, king, -1, ok);
    KingStepsDistinct(b, king, -1, ok);
  }

  // ---------------------------------------------------------------------------------------
  // Rays of the rook, the bishop and the queen
  // ---------------------------------------------------------------------------------------

  lemma AlongIsProduct(z: int, d: int, i: int)
    requires UnitStep(d)
    ensures Along(z, d, i) == z + i * d
  {
  }

  /** The square i steps from (x, y) in direction (dx, dy). */
  function RaySquare(x: int, y: int, dx: int, dy: int, i: int): Pos
  {
    Pos(Along(x, dx, i), Along(y, dy, i))
  }

  function RayCell(b: Cells, x: int, y: int, dx: int, dy: int, i: int): Option<Piece>
  {
    GetPiece(b, Along(x, dx, i), Along(y, dy, i))
  }

  /** m is one of the squares j .. 7 of the ray. */
  predicate OnRayFrom(x: int, y: int, dx: int, dy: int, j: int, m: Pos)
  {
    exists i :: j <= i <= 7 && m == RaySquare(x, y, dx, dy, i)
  }

  /** Distinct steps of a ray that moves are distinct squares. */
  lemma RaySquaresDiffer(x: int, y: int, dx: int, dy: int, i: int, t: int)
    requires UnitStep(dx) && UnitStep(dy) && (dx, dy) != (0, 0) && i != t
    ensures RaySquare(x, y, dx, dy, i) != RaySquare(x, y, dx, dy, t)
  {
  }

  /**
   * Step t of a ray begun at step j does not end it: its square is on the board and free of
   * the mover's pieces, and if the filter accepts it, no piece has been met up to it (a
   * square the filter refuses is skipped, even when it holds a piece).
   */
  predicate Passes(b: Cells, x: int, y: int, c: Color, dx: int, dy: int, j: int, eaten: bool, ok: Filter, t: int)
  {
    && InsideBoard(Along(x, dx, t), Along(y, dy, t)) && !HoldsColor(b, Along(x, dx, t), Along(y, dy, t), c)
    && (ok(Along(x, dx, t), Along(y, dy, t)) ==> !eaten && forall s :: j <= s <= t ==> RayCell(b, x, y, dx, dy, s).None?)
  }

  /** Step i is offered: its square is a legal landing the filter accepts, and every step before it passes. */
  predicate OfferedAt(b: Cells, x: int, y: int, c: Color, dx: int, dy: int, j: int, eaten: bool, ok: Filter, i: int)
    requires j <= i
  {
    && InsideBoard(Along(x, dx, i), Along(y, dy, i)) && !HoldsColor(b, Along(x, dx, i), Along(y, dy, i), c) && ok(Along(x, dx, i), Along(y, dy, i))
    && forall t :: j <= t < i ==> Passes(b, x, y, c, dx, dy, j, eaten, ok, t)
  }

  /** One step of the ray adds at most its own square. */
  lemma RayGrow(b: Cells, x: Coord, y: Coord, c: Color, dx: int, dy: int, j: nat, eaten: bool, ok: Filter)
    requires 1 <= j <= 7 && UnitStep(dx) && UnitStep(dy)
    ensures var sq := RaySquare(x, y, dx, dy, j);
            var rest := Ray(b, x, y, c, dx, dy, j + 1, eaten || RayCell(b, x, y, dx, dy, j).Some?, ok);
            Ray(b, x, y, c, dx, dy, j, eaten, ok) in {[], [sq], rest, [sq] + rest}
  {
  }

  /** Every square a ray offers lies on the ray from step j on. */
  lemma {:induction false} RayShapeFrom(b: Cells, x: Coord, y: Coord, c: Color, dx: int, dy: int, j: nat,
                                     eaten: bool, ok: Filter)
    requires 1 <= j <= 8 && UnitStep(dx) && UnitStep(dy)
    ensures forall m :: m in Ray(b, x, y, c, dx, dy, j, eaten, ok) ==> OnRayFrom(x, y, dx, dy, j, m)
    decreases 8 - j
  {
    if j <= 7 {
      var eaten' := eaten || RayCell(b, x, y, dx, dy, j).Some?;
      RayShapeFrom(b, x, y, c, dx, dy, j + 1, eaten', ok);
      RayGrow(b, x, y, c, dx, dy, j, eaten, ok);
      forall m | OnRayFrom(x, y, dx, dy, j + 1, m)
        ensures OnRayFrom(x, y, dx, dy, j, m)
      {
        var i :| j + 1 <= i <= 7 && m == RaySquare(x, y, dx, dy, i);
      }
      assert OnRayFrom(x, y, dx, dy, j, RaySquare(x, y, dx, dy, j));
    }
  }

  /** The square of step j is not among those the walk offers from step j + 1 on. */
  lemma RayAhead(b: Cells, x: Coord, y: Coord, c: Color, dx: int, dy: int, j: nat, eaten: bool, ok: Filter)
    requires 1 <= j <= 7 && UnitStep(dx) && UnitStep(dy) && (dx, dy) != (0, 0)
    ensures RaySquare(x, y, dx, dy, j) !in Ray(b, x, y, c, dx, dy, j + 1, eaten, ok)
  {
    RayShapeFrom(b, x, y, c, dx, dy, j + 1, eaten, ok);
    forall i | j + 1 <= i <= 7
      ensures RaySquare(x, y, dx, dy, i) != RaySquare(x, y, dx, dy, j)
    {
      RaySquaresDiffer(x, y, dx, dy, i, j);
    }
  }

  /** A walk offers each square at most once, and at most 8 - j of them. */
  lemma {:induction false} RayDistinctFrom(b: Cells, x: Coord, y: Coord, c: Color, dx: int, dy: int, j: nat,
                                        eaten: bool, ok: Filter)
    requires 1 <= j <= 8 && UnitStep(dx) && UnitStep(dy) && (dx, dy) != (0, 0)
    ensures Distinct(Ray(b, x, y, c, dx, dy, j, eaten, ok))
    ensures |Ray(b, x, y, c, dx, dy, j, eaten, ok)| <= 8 - j
    decreases 8 - j
  {
    if j <= 7 {
      var eaten' := eaten || RayCell(b, x, y, dx, dy, j).Some?;
      RayDistinctFrom(b, x, y, c, dx, dy, j + 1, eaten', ok);
      RayAhead(b, x, y, c, dx, dy, j, eaten', ok);
      RayGrow(b, x, y, c, dx, dy, j, eaten, ok);
      var sq := RaySquare(x, y, dx, dy, j);
      var rest := Ray(b, x, y, c, dx, dy, j + 1, eaten', ok);
      if Ray(b, x, y, c, dx, dy, j, eaten, ok) == [sq] + rest {
        DistinctPrepend(sq, rest);
      }
    }
  }

  /** The first step of a ray is offered exactly when it is a legal landing the filter accepts. */
  lemma RayOffersFirst(b: Cells, x: Coord, y: Coord, c: Color, dx: int, dy: int, j: nat, eaten: bool, ok: Filter)
    requires 1 <= j <= 7 && UnitStep(dx) && UnitStep(dy) && (dx, dy) != (0, 0)
    ensures RaySquare(x, y, dx, dy, j) in Ray(b, x, y, c, dx, dy, j, eaten, ok) <==> OfferedAt(b, x, y, c, dx, dy, j, eaten, ok, j)
  {
    var sq := RaySquare(x, y, dx, dy, j);
    var rest := Ray(b, x, y, c, dx, dy, j + 1, eaten || RayCell(b, x, y, dx, dy, j).Some?, ok);
    RayAhead(b, x, y, c, dx, dy, j, eaten || RayCell(b, x, y, dx, dy, j).Some?, ok);
  }

  /** A later step is offered from j exactly when step j passes and it is offered from j + 1. */
  lemma RayOffersLater(b: Cells, x: Coord, y: Coord, c: Color, dx: int, dy: int, j: nat, eaten: bool,
                        ok: Filter, i: int)
    requires 1 <= j < i <= 7 && UnitStep(dx) && UnitStep(dy) && (dx, dy) != (0, 0)
    ensures var eaten' := eaten || RayCell(b, x, y, dx, dy, j).Some?;
            RaySquare(x, y, dx, dy, i) in Ray(b, x, y, c, dx, dy, j, eaten, ok)
            <==> Passes(b, x, y, c, dx, dy, j, eaten, ok, j) && RaySquare(x, y, dx, dy, i) in Ray(b, x, y, c, dx, dy, j + 1, eaten', ok)
  {
    RaySquaresDiffer(x, y, dx, dy, i, j);
  }

  /** Offered from j, for a later step: step j passes and the step is offered from j + 1. */
  lemma OfferedShift(b: Cells, x: Coord, y: Coord, c: Color, dx: int, dy: int, j: nat, eaten: bool,
                     ok: Filter, i: int)
    requires 1 <= j < i <= 7
    ensures var eaten' := eaten || RayCell(b, x, y, dx, dy, j).Some?;
            OfferedAt(b, x, y, c, dx, dy, j, eaten, ok, i)
            <==> Passes(b, x, y, c, dx, dy, j, eaten, ok, j) && OfferedAt(b, x, y, c, dx, dy, j + 1, eaten', ok, i)
  {
    var eaten' := eaten || RayCell(b, x, y, dx, dy, j).Some?;
    var j1 := j + 1;
    if OfferedAt(b, x, y, c, dx, dy, j, eaten, ok, i) {
      assert Passes(b, x, y, c, dx, dy, j, eaten, ok, j);
      forall t | j1 <= t < i
        ensures Passes(b, x, y, c, dx, dy, j1, eaten', ok, t)
      {
        assert Passes(b, x, y, c, dx, dy, j, eaten, ok, t);
      }
    }
    if Passes(b, x, y, c, dx, dy, j, eaten, ok, j) && OfferedAt(b, x, y, c, dx, dy, j1, eaten', ok, i) {
      forall t | j <= t < i
        ensures Passes(b, x, y, c, dx, dy, j, eaten, ok, t)
      {
        if t > j {
          assert Passes(b, x, y, c, dx, dy, j1, eaten', ok, t);
        }
      }
    }
  }

  /** Square i of the ray is offered by the ray from step j exactly when OfferedAt says so. */
  lemma {:induction false} RayOffersAt(b: Cells, x: Coord, y: Coord, c: Color, dx: int, dy: int, j: nat,
                                        eaten: bool, ok: Filter, i: int)
    requires 1 <= j <= i <= 7 && UnitStep(dx) && UnitStep(dy) && (dx, dy) != (0, 0)
    ensures RaySquare(x, y, dx, dy, i) in Ray(b, x, y, c, dx, dy, j, eaten, ok) <==> OfferedAt(b, x, y, c, dx, dy, j, eaten, ok, i)
    decreases i - j
  {
    if i == j {
      RayOffersFirst(b, x, y, c, dx, dy, j, eaten, ok);
    } else {
      var eaten' := eaten || RayCell(b, x, y, dx, dy, j).Some?;
      RayOffersAt(b, x, y, c, dx, dy, j + 1, eaten', ok, i);
      RayOffersLater(b, x, y, c, dx, dy, j, eaten, ok, i);
      OfferedShift(b, x, y, c, dx, dy, j, eaten, ok, i);
    }
  }

  /** Every step before i is empty: the way to square i is clear. */
  predicate ClearPath(b: Cells, x: int, y: int, dx: int, dy: int, i: int)
  {
    forall t :: 1 <= t < i ==> RayCell(b, x, y, dx, dy, t).None?
  }

  /** m is reached by sliding from (x, y) in direction (dx, dy) over empty squares onto no piece of colour c. */
  predicate Slides(b: Cells, x: int, y: int, c: Color, dx: int, dy: int, m: Pos)
  {
    exists i :: 1 <= i <= 7 && m == RaySquare(x, y, dx, dy, i)
      && InsideBoard(m.x, m.y) && !HoldsColor(b, m.x, m.y, c) && ClearPath(b, x, y, dx, dy, i)
  }

  /**
   * The ray of straightMoves and diagonalMoves: square i is offered exactly when it is a legal
   * landing the filter accepts and every step before it passes, that is, is on the board,
   * free of the mover's pieces and, if the filter accepts it, empty.
   */
  lemma RayOffersExactly(b: Cells, x: Coord, y: Coord, c: Color, dx: int, dy: int, ok: Filter, i: int)
    requires UnitStep(dx) && UnitStep(dy) && (dx, dy) != (0, 0) && 1 <= i <= 7
    ensures RaySquare(x, y, dx, dy, i) in Ray(b, x, y, c, dx, dy, 1, false, ok)
            <==> OfferedAt(b, x, y, c, dx, dy, 1, false, ok, i)
  {
    RayOffersAt(b, x, y, c, dx, dy, 1, false, ok, i);
  }

  /** A ray offers squares of its own line only, each once, at most seven. */
  lemma RayShape(b: Cells, x: Coord, y: Coord, c: Color, dx: int, dy: int, ok: Filter)
    requires UnitStep(dx) && UnitStep(dy) && (dx, dy) != (0, 0)
    ensures forall m :: m in Ray(b, x, y, c, dx, dy, 1, false, ok) ==> OnRayFrom(x, y, dx, dy, 1, m)
    ensures Distinct(Ray(b, x, y, c, dx, dy, 1, false, ok))
    ensures |Ray(b, x, y, c, dx, dy, 1, false, ok)| <= 7
  {
    RayShapeFrom(b, x, y, c, dx, dy, 1, false, ok);
    RayDistinctFrom(b, x, y, c, dx, dy, 1, false, ok);
  }

  /** Every square a ray offers is on the board, free of the mover's pieces and accepted by the filter. */
  lemma RayOffers(b: Cells, x: Coord, y: Coord, c: Color, dx: int, dy: int, ok: Filter)
    requires UnitStep(dx) && UnitStep(dy) && (dx, dy) != (0, 0)
    ensures forall m :: m in Ray(b, x, y, c, dx, dy, 1, false, ok) ==> Offerable(b, c, m, ok)
  {
    RayShape(b, x, y, c, dx, dy, ok);
    forall m | m in Ray(b, x, y, c, dx, dy, 1, false, ok)
      ensures Offerable(b, c, m, ok)
    {
      var i :| 1 <= i <= 7 && m == RaySquare(x, y, dx, dy, i);
      RayOffersExactly(b, x, y, c, dx, dy, ok, i);
    }
  }

  /** The filter of a generator asked without nextMove: every square is accepted. */
  ghost predicate AcceptsAll(ok: Filter)
  {
    forall tx: int, ty: int :: ok(tx, ty)
  }

  /**
   * Without the filter (the moves kingInDanger asks for), a ray offers exactly the squares
   * reached by sliding over empty squares onto an empty square or an opposing piece.
   */
  lemma RayUnfilteredAt(b: Cells, x: Coord, y: Coord, c: Color, dx: int, dy: int, ok: Filter, i: int)
    requires UnitStep(dx) && UnitStep(dy) && (dx, dy) != (0, 0) && 1 <= i <= 7 && AcceptsAll(ok)
    ensures var m := RaySquare(x, y, dx, dy, i);
            m in Ray(b, x, y, c, dx, dy, 1, false, ok)
            <==> InsideBoard(m.x, m.y) && !HoldsColor(b, m.x, m.y, c) && ClearPath(b, x, y, dx, dy, i)
  {
    RayOffersExactly(b, x, y, c, dx, dy, ok, i);
    var m := RaySquare(x, y, dx, dy, i);
    if OfferedAt(b, x, y, c, dx, dy, 1, false, ok, i) && i > 1 {
      assert Passes(b, x, y, c, dx, dy, 1, false, ok, i - 1);
    }
    if InsideBoard(m.x, m.y) && !HoldsColor(b, m.x, m.y, c) && ClearPath(b, x, y, dx, dy, i) {
      forall t | 1 <= t < i
        ensures Passes(b, x, y, c, dx, dy, 1, false, ok, t)
      {
        assert RayCell(b, x, y, dx, dy, t).None?;
      }
    }
  }

  lemma RayUnfiltered(b: Cells, x: Coord, y: Coord, c: Color, dx: int, dy: int, ok: Filter)
    requires UnitStep(dx) && UnitStep(dy) && (dx, dy) != (0, 0) && AcceptsAll(ok)
    ensures forall m :: m in Ray(b, x, y, c, dx, dy, 1, false, ok) <==> Slides(b, x, y, c, dx, dy, m)
  {
    RayShape(b, x, y, c, dx, dy, ok);
    forall m
      ensures m in Ray(b, x, y, c, dx, dy, 1, false, ok) <==> Slides(b, x, y, c, dx, dy, m)
    {
      if m in Ray(b, x, y, c, dx, dy, 1, false, ok) {
        var i :| 1 <= i <= 7 && m == RaySquare(x, y, dx, dy, i);
        RayUnfilteredAt(b, x, y, c, dx, dy, ok, i);
      }
      if Slides(b, x, y, c, dx, dy, m) {
        var i :| 1 <= i <= 7 && m == RaySquare(x, y, dx, dy, i)
          && InsideBoard(m.x, m.y) && !HoldsColor(b, m.x, m.y, c) && ClearPath(b, x, y, dx, dy, i);
        RayUnfilteredAt(b, x, y, c, dx, dy, ok, i);
      }
    }
  }

  // ---------------------------------------------------------------------------------------
  // Rook, bishop and queen
  // ---------------------------------------------------------------------------------------

  lemma DistinctConcat(s: seq<Pos>, t: seq<Pos>)
    requires Distinct(s) && Distinct(t)
    requires forall m :: m in s ==> m !in t
    ensures Distinct(s + t)
  {
    var u := s + t;
    forall i, j | 0 <= i < j < |u|
      ensures u[i] != u[j]
    {
      if j < |s| {
        assert u[i] == s[i] && u[j] == s[j];
      } else if i >= |s| {
        assert u[i] == t[i - |s|] && u[j] == t[j - |s|];
      } else {
        assert u[i] == s[i] && u[j] == t[j - |s|];
        assert u[i] in s && u[j] in t;
      }
    }
  }

  /** The rank and file of (x, y), without the square itself. */
  predicate Straight(x: int, y: int, m: Pos)
  {
    (m.x == x) != (m.y == y)
  }

  /** The two diagonals through (x, y), without the square itself. */
  predicate Diagonal(x: int, y: int, m: Pos)
  {
    Abs(m.x - x) == Abs(m.y - y) != 0
  }

  lemma RookMovesAreRays(b: Cells, x: Coord, y: Coord, c: Color, ok: Filter)
    ensures RookMoves(b, x, y, c, ok)
            == Ray(b, x, y, c, -1, 0, 1, false, ok) + Ray(b, x, y, c, 1, 0, 1, false, ok)
               + (Ray(b, x, y, c, 0, -1, 1, false, ok) + Ray(b, x, y, c, 0, 1, 1, false, ok))
  {
  }

  /**
   * Each ray of the rook stays on its rank or file and offers only squares on the board, free of
   * the mover's pieces and accepted by the filter.
   */
  lemma StraightRayOffers(b: Cells, x: Coord, y: Coord, c: Color, dx: int, dy: int, ok: Filter)
    requires (dx, dy) in {(-1, 0), (1, 0), (0, -1), (0, 1)}
    ensures forall m :: m in Ray(b, x, y, c, dx, dy, 1, false, ok) ==> Straight(x, y, m) && Offerable(b, c, m, ok)
  {
    RayShape(b, x, y, c, dx, dy, ok);
    RayOffers(b, x, y, c, dx, dy, ok);
  }

  /**
   * getRookMoves offers squares of the rook's rank and file only; every one of them is on
   * the board, free of the mover's pieces and accepted by the filter.
   */
  lemma RookMovesOffer(b: Cells, x: Coord, y: Coord, c: Color, ok: Filter)
    ensures forall m :: m in RookMoves(b, x, y, c, ok) ==> Straight(x, y, m) && Offerable(b, c, m, ok)
  {
    RookMovesAreRays(b, x, y, c, ok);
    StraightRayOffers(b, x, y, c, -1, 0, ok);
    StraightRayOffers(b, x, y, c, 1, 0, ok);
    StraightRayOffers(b, x, y, c, 0, -1, ok);
    StraightRayOffers(b, x, y, c, 0, 1, ok);
  }

  /** getRookMoves lists no square twice. */
  lemma RookMovesDistinct(b: Cells, x: Coord, y: Coord, c: Color, ok: Filter)
    ensures Distinct(RookMoves(b, x, y, c, ok))
  {
    RookMovesAreRays(b, x, y, c, ok);
    var r1, r2 := Ray(b, x, y, c, -1, 0, 1, false, ok), Ray(b, x, y, c, 1, 0, 1, false, ok);
    var r3, r4 := Ray(b, x, y, c, 0, -1, 1, false, ok), Ray(b, x, y, c, 0, 1, 1, false, ok);
    RayShape(b, x, y, c, -1, 0, ok);
    RayShape(b, x, y, c, 1, 0, ok);
    RayShape(b, x, y, c, 0, -1, ok);
    RayShape(b, x, y, c, 0, 1, ok);
    DistinctConcat(r1, r2);
    DistinctConcat(r3, r4);
    DistinctConcat(r1 + r2, r3 + r4);
  }

  /** Without the filter the rook reaches exactly what slides along its rank or file. */
  lemma RookMovesUnfiltered(b: Cells, x: Coord, y: Coord, c: Color, ok: Filter)
    requires AcceptsAll(ok)
    ensures forall m :: m in RookMoves(b, x, y, c, ok) <==>
              || Slides(b, x, y, c, -1, 0, m) || Slides(b, x, y, c, 1, 0, m)
              || Slides(b, x, y, c, 0, -1, m) || Slides(b, x, y, c, 0, 1, m)
  {
    RookMovesAreRays(b, x, y, c, ok);
    RayUnfiltered(b, x, y, c, -1, 0, ok);
    RayUnfiltered(b, x, y, c, 1, 0, ok);
    RayUnfiltered(b, x, y, c, 0, -1, ok);
    RayUnfiltered(b, x, y, c, 0, 1, ok);
  }

  /**
   * Each ray of the bishop stays on its diagonal and offers only squares on the board, free of
   * the mover's pieces and accepted by the filter.
   */
  lemma DiagonalRayOffers(b: Cells, x: Coord, y: Coord, c: Color, dx: int, dy: int, ok: Filter)
    requires (dx, dy) in {(1, 1), (-1, 1), (-1, -1), (1, -1)}
    ensures forall m :: m in Ray(b, x, y, c, dx, dy, 1, false, ok) ==> Diagonal(x, y, m) && Offerable(b, c, m, ok)
  {
    RayShape(b, x, y, c, dx, dy, ok);
    RayOffers(b, x, y, c, dx, dy, ok);
  }

  /**
   * getBishopMoves offers squares of the bishop's diagonals only; every one of them is on
   * the board, free of the mover's pieces and accepted by the filter.
   */
  lemma BishopMovesOffer(b: Cells, x: Coord, y: Coord, c: Color, ok: Filter)
    ensures forall m :: m in BishopMoves(b, x, y, c, ok) ==> Diagonal(x, y, m) && Offerable(b, c, m, ok)
  {
    DiagonalRayOffers(b, x, y, c, 1, 1, ok);
    DiagonalRayOffers(b, x, y, c, -1, 1, ok);
    DiagonalRayOffers(b, x, y, c, -1, -1, ok);
    DiagonalRayOffers(b, x, y, c, 1, -1, ok);
  }

  /** getBishopMoves lists no square twice. */
  lemma BishopMovesDistinct(b: Cells, x: Coord, y: Coord, c: Color, ok: Filter)
    ensures Distinct(BishopMoves(b, x, y, c, ok))
  {
    var r1, r2 := Ray(b, x, y, c, 1, 1, 1, false, ok), Ray(b, x, y, c, -1, 1, 1, false, ok);
    var r3, r4 := Ray(b, x, y, c, -1, -1, 1, false, ok), Ray(b, x, y, c, 1, -1, 1, false, ok);
    RayShape(b, x, y, c, 1, 1, ok);
    RayShape(b, x, y, c, -1, 1, ok);
    RayShape(b, x, y, c, -1, -1, ok);
    RayShape(b, x, y, c, 1, -1, ok);
    DistinctConcat(r1, r2);
    DistinctConcat(r1 + r2, r3);
    DistinctConcat(r1 + r2 + r3, r4);
  }

  /** Without the filter the bishop reaches exactly what slides along its diagonals. */
  lemma BishopMovesUnfiltered(b: Cells, x: Coord, y: Coord, c: Color, ok: Filter)
    requires AcceptsAll(ok)
    ensures forall m :: m in BishopMoves(b, x, y, c, ok) <==>
              || Slides(b, x, y, c, 1, 1, m) || Slides(b, x, y, c, -1, 1, m)
              || Slides(b, x, y, c, -1, -1, m) || Slides(b, x, y, c, 1, -1, m)
  {
    RayUnfiltered(b, x, y, c, 1, 1, ok);
    RayUnfiltered(b, x, y, c, -1, 1, ok);
    RayUnfiltered(b, x, y, c, -1, -1, ok);
    RayUnfiltered(b, x, y, c, 1, -1, ok);
  }

  /**
   * The queen offers exactly what a rook or a bishop on its square offers: squares on its
   * rank, file and diagonals that are legal landings accepted by the filter.
   */
  lemma QueenMovesOffer(b: Cells, q: Piece, ok: Filter)
    ensures forall m :: m in QueenMoves(b, q, ok) ==>
              (Straight(q.x, q.y, m) || Diagonal(q.x, q.y, m)) && Offerable(b, q.color, m, ok)
    ensures forall m :: m in QueenMoves(b, q, ok) <==>
              m in RookMoves(b, q.x, q.y, q.color, ok) || m in BishopMoves(b, q.x, q.y, q.color, ok)
  {
    RookMovesOffer(b, q.x, q.y, q.color, ok);
    BishopMovesOffer(b, q.x, q.y, q.color, ok);
  }

  lemma QueenMovesDistinct(b: Cells, q: Piece, ok: Filter)
    ensures Distinct(QueenMoves(b, q, ok))
  {
    RookMovesOffer(b, q.x, q.y, q.color, ok);
    BishopMovesOffer(b, q.x, q.y, q.color, ok);
    RookMovesDistinct(b, q.x, q.y, q.color, ok);
    BishopMovesDistinct(b, q.x, q.y, q.color, ok);
    DistinctConcat(RookMoves(b, q.x, q.y, q.color, ok), BishopMoves(b, q.x, q.y, q.color, ok));
  }

  // ---------------------------------------------------------------------------------------
  // Pawn
  // ---------------------------------------------------------------------------------------

  /** One square forward onto an empty square. */
  predicate PawnStep(b: Cells, p: Piece, m: Pos, ok: Filter)
  {
    && m == Pos(p.x, p.y + Forward(p.color)) && InsideBoard(m.x, m.y) && GetPiece(b, m.x, m.y).None?
    && ok(m.x, m.y)
  }

  /** Two squares forward for a pawn whose moved flag is clear, over and onto empty squares. */
  predicate PawnDoubleStep(b: Cells, p: Piece, m: Pos, ok: Filter)
  {
    && m == Pos(p.x, p.y + 2 * Forward(p.color)) && InsideBoard(m.x, m.y) && !HasBeenMoved(p)
    && GetPiece(b, p.x, p.y + Forward(p.color)).None? && GetPiece(b, m.x, m.y).None?
    && ok(m.x, m.y)
  }

  /**
   * One square diagonally forward, onto an opposing piece, or onto an empty square beside
   * which stands an opposing pawn that has just double-stepped (en passant).
   */
  predicate PawnCapture(b: Cells, p: Piece, m: Pos, ok: Filter)
  {
    && Abs(m.x - p.x) == 1 && m.y == p.y + Forward(p.color) && InsideBoard(m.x, m.y)
    && (|| (GetPiece(b, m.x, m.y).Some? && GetPiece(b, m.x, m.y).value.color != p.color)
        || (GetPiece(b, m.x, m.y).None? && ByPassTarget(GetPiece(b, m.x, p.y), p.color)))
    && ok(m.x, m.y)
  }

  lemma FrontMoveOne(b: Cells, p: Piece, ok: Filter)
    ensures var m := Pos(p.x, p.y + Forward(p.color));
            FrontMove(b, p, 1, ok) == if PawnStep(b, p, m, ok) then [m] else []
  {
  }

  lemma FrontMoveTwo(b: Cells, p: Piece, ok: Filter)
    ensures var m := Pos(p.x, p.y + 2 * Forward(p.color));
            FrontMove(b, p, 2, ok) == if PawnDoubleStep(b, p, m, ok) then [m] else []
  {
    var dy := if p.color == White then 2 else -2;
    assert dy / 2 == Forward(p.color);
  }

  lemma DiagonalMoveExact(b: Cells, p: Piece, dx: int, ok: Filter)
    requires dx == -1 || dx == 1
    ensures var m := Pos(p.x + dx, p.y + Forward(p.color));
            DiagonalMove(b, p, dx, ok) == if PawnCapture(b, p, m, ok) then [m] else []
  {
  }

  /** A list holding at most the one square m. */
  predicate AtMost(s: seq<Pos>, m: Pos)
  {
    s == [] || s == [m]
  }

  /** Four lists of at most one square each, the four squares different: nothing twice. */
  lemma FourAtMost(s1: seq<Pos>, s2: seq<Pos>, s3: seq<Pos>, s4: seq<Pos>, m1: Pos, m2: Pos, m3: Pos, m4: Pos)
    requires AtMost(s1, m1) && AtMost(s2, m2) && AtMost(s3, m3) && AtMost(s4, m4)
    requires m1 != m2 && m1 != m3 && m1 != m4 && m2 != m3 && m2 != m4 && m3 != m4
    ensures Distinct(s1 + s2 + s3 + s4) && |s1 + s2 + s3 + s4| <= 4
  {
    DistinctConcat(s1, s2);
    DistinctConcat(s1 + s2, s3);
    DistinctConcat(s1 + s2 + s3, s4);
  }

  /** A capture lands on one of the two squares diagonally forward. */
  lemma CaptureSquares(b: Cells, p: Piece, m: Pos, ok: Filter)
    ensures var f := Forward(p.color);
            var m3, m4 := Pos(p.x - 1, p.y + f), Pos(p.x + 1, p.y + f);
            PawnCapture(b, p, m, ok) <==> (m == m3 && PawnCapture(b, p, m3, ok)) || (m == m4 && PawnCapture(b, p, m4, ok))
  {
  }

  /** The members of a list holding q when c, and nothing otherwise. */
  lemma SingleMember(s: seq<Pos>, q: Pos, c: bool, m: Pos)
    requires s == if c then [q] else []
    ensures m in s <==> c && m == q
  {
  }

  /** Pawn.getValidMoves: the step, the double step and the two captures. */
  lemma PawnMovesExact(b: Cells, p: Piece, ok: Filter)
    ensures forall m :: m in PawnMoves(b, p, ok) <==>
              PawnStep(b, p, m, ok) || PawnDoubleStep(b, p, m, ok) || PawnCapture(b, p, m, ok)
  {
    forall m
      ensures m in PawnMoves(b, p, ok) <==> PawnStep(b, p, m, ok) || PawnDoubleStep(b, p, m, ok) || PawnCapture(b, p, m, ok)
    {
      PawnMember(b, p, ok, m);
    }
  }

  /** The two forward moves as a condition on the square m. */
  lemma FrontMember(b: Cells, p: Piece, ok: Filter, m: Pos)
    ensures m in FrontMove(b, p, 1, ok) + FrontMove(b, p, 2, ok) <==> PawnStep(b, p, m, ok) || PawnDoubleStep(b, p, m, ok)
  {
    var f := Forward(p.color);
    FrontMoveOne(b, p, ok);
    FrontMoveTwo(b, p, ok);
    SingleMember(FrontMove(b, p, 1, ok), Pos(p.x, p.y + f), PawnStep(b, p, Pos(p.x, p.y + f), ok), m);
    SingleMember(FrontMove(b, p, 2, ok), Pos(p.x, p.y + 2 * f), PawnDoubleStep(b, p, Pos(p.x, p.y + 2 * f), ok), m);
  }

  /** The two diagonal moves as a condition on the square m. */
  lemma DiagonalMember(b: Cells, p: Piece, ok: Filter, m: Pos)
    ensures m in DiagonalMove(b, p, -1, ok) + DiagonalMove(b, p, 1, ok) <==> PawnCapture(b, p, m, ok)
  {
    var f := Forward(p.color);
    var m3, m4 := Pos(p.x - 1, p.y + f), Pos(p.x + 1, p.y + f);
    DiagonalMoveExact(b, p, -1, ok);
    DiagonalMoveExact(b, p, 1, ok);
    SingleMember(DiagonalMove(b, p, -1, ok), m3, PawnCapture(b, p, m3, ok), m);
    SingleMember(DiagonalMove(b, p, 1, ok), m4, PawnCapture(b, p, m4, ok), m);
    CaptureSquares(b, p, m, ok);
  }

  /** PawnMovesExact for one square m. */
  lemma PawnMember(b: Cells, p: Piece, ok: Filter, m: Pos)
    ensures m in PawnMoves(b, p, ok) <==> PawnStep(b, p, m, ok) || PawnDoubleStep(b, p, m, ok) || PawnCapture(b, p, m, ok)
  {
    var front, diagonal := FrontMove(b, p, 1, ok) + FrontMove(b, p, 2, ok), DiagonalMove(b, p, -1, ok) + DiagonalMove(b, p, 1, ok);
    FrontMember(b, p, ok, m);
    DiagonalMember(b, p, ok, m);
    assert PawnMoves(b, p, ok) == front + diagonal;
  }

  /** Each of the four candidates at most once. */
  lemma PawnMovesDistinct(b: Cells, p: Piece, ok: Filter)
    ensures Distinct(PawnMoves(b, p, ok)) && |PawnMoves(b, p, ok)| <= 4
  {
    var f := Forward(p.color);
    FrontMoveOne(b, p, ok);
    FrontMoveTwo(b, p, ok);
    DiagonalMoveExact(b, p, -1, ok);
    DiagonalMoveExact(b, p, 1, ok);
    FourAtMost(FrontMove(b, p, 1, ok), FrontMove(b, p, 2, ok), DiagonalMove(b, p, -1, ok), DiagonalMove(b, p, 1, ok),
               Pos(p.x, p.y + f), Pos(p.x, p.y + 2 * f), Pos(p.x - 1, p.y + f), Pos(p.x + 1, p.y + f));
  }

  /** Every square a pawn is offered is on the board, free of the mover's pieces and accepted by the filter. */
  lemma PawnMovesOffer(b: Cells, p: Piece, ok: Filter)
    ensures forall m :: m in PawnMoves(b, p, ok) ==> Offerable(b, p.color, m, ok)
  {
    PawnMovesExact(b, p, ok);
  }
}
