/**
 * The move generators of the files under chess/pieces and the three rules of
 * chess/rules/Rules.java, as functions over board values.
 *
 * Every generator of the source asks, for each candidate square, the same question when
 * nextMove is set: does the mover's king stay out of danger once the move is played on a
 * clone of the board? Here a generator receives the answer to that question as a parameter
 * `ok`, a predicate on the destination square, and is otherwise a pure walk of the board.
 * ValidMoves passes the filter built from Safe; without nextMove that filter accepts
 * everything.
 *
 * Safe, MoveFilter, ValidMoves, AttackScan and KingInDanger are mutually recursive exactly
 * as in the source: the filter asks KingInDanger, which asks every opposing piece for its
 * unfiltered moves (nextMove == false), which never ask KingInDanger again. Every decreases
 * clause of that group therefore starts with Rank(nextMove).
 */
module Rules {
  import opened Pieces
  import opened Boards

  /** The answer of the safety filter for a destination square. */
  type Filter = (int, int) -> bool

  function Rank(nextMove: bool): nat
  {
    if nextMove then 1 else 0
  }

  /**
   * The safety test shared by all generators: with nextMove, the move from (fromX, fromY)
   * to (toX, toY) is kept only if the mover's king is not in danger once the move is played
   * by movePiece on a clone of the board.
   */
  predicate Safe(b: Cells, fromX: int, fromY: int, toX: int, toY: int, c: Color, nextMove: bool)
    decreases Rank(nextMove), 0, 0
  {
    !nextMove || !KingInDangerAfter(b, fromX, fromY, toX, toY, c)
  }

  /** kingInDanger asked on a clone of the board after movePiece from (fromX, fromY) to (toX, toY). */
  predicate KingInDangerAfter(b: Cells, fromX: int, fromY: int, toX: int, toY: int, c: Color)
    decreases 0, 5, 0
  {
    KingInDanger(MovePiece(CloneBoard(b), fromX, fromY, toX, toY), c)
  }

  /** The filter of the piece of colour c on (x, y). */
  function MoveFilter(b: Cells, x: int, y: int, c: Color, nextMove: bool): Filter
    decreases Rank(nextMove), 1, 0
  {
    (toX: int, toY: int) => Safe(b, x, y, toX, toY, c, nextMove)
  }

  predicate HoldsColor(b: Cells, x: int, y: int, c: Color)
  {
    GetPiece(b, x, y).Some? && GetPiece(b, x, y).value.color == c
  }

  /**
   * getValidMoves, dispatched on the kind; the base class offers nothing. The king asks
   * kingInDanger on the board itself before it looks at castling, and only with nextMove.
   */
  function ValidMoves(b: Cells, p: Piece, nextMove: bool): seq<Pos>
    decreases Rank(nextMove), 2, 0
  {
    var ok := MoveFilter(b, p.x, p.y, p.color, nextMove);
    match p.kind
    case NoKind => []
    case Pawn => PawnMoves(b, p, ok)
    case Knight => KnightMoves(b, p, ok)
    case Bishop => BishopMoves(b, p.x, p.y, p.color, ok)
    case Rook => RookMoves(b, p.x, p.y, p.color, ok)
    case Queen => QueenMoves(b, p, ok)
    case King => KingMoves(b, p, ok, nextMove && KingInDanger(b, p.color))
  }

  // ---------------------------------------------------------------------------------------
  // Pawn
  // ---------------------------------------------------------------------------------------

  /** Pawn.frontMove for i = 1 (one step) or i = 2 (the initial double step). */
  function FrontMove(b: Cells, p: Piece, i: int, ok: Filter): seq<Pos>
  {
    var dy := if p.color == White then i else -i;
    if !InsideBoard(p.x, p.y + dy) then []
    else if Abs(dy) == 2 && HasBeenMoved(p) then []
    else if GetPiece(b, p.x, p.y + dy).Some? then []
    // the source reads (x, y + dy/2) in all cases but looks at it only when |dy| == 2,
    // where the truncating and the Euclidean quotient agree
    else if Abs(dy) == 2 && GetPiece(b, p.x, p.y + dy / 2).Some? then []
    else if !ok(p.x, p.y + dy) then []
    else [Pos(p.x, p.y + dy)]
  }

  /** The en-passant target of Pawn.diagonalMove: an opposing pawn that has just double-stepped. */
  predicate ByPassTarget(o: Option<Piece>, c: Color)
  {
    o.Some? && o.value.kind == Pawn && o.value.color != c
    && MovesSinceDB(o.value) == 0 && DoubleBox(o.value)
  }

  /** Pawn.diagonalMove for dx = -1 or dx = 1. */
  function DiagonalMove(b: Cells, p: Piece, dx: int, ok: Filter): seq<Pos>
  {
    var dy := Forward(p.color);
    var inDiagonal := GetPiece(b, p.x + dx, p.y + dy);
    var nextTo := GetPiece(b, p.x + dx, p.y);
    if !InsideBoard(p.x + dx, p.y + dy) then []
    else if inDiagonal.None? && nextTo.None? then []
    else if inDiagonal.Some? && inDiagonal.value.color == p.color then []
    else if inDiagonal.None? && !ByPassTarget(nextTo, p.color) then []
    else if !ok(p.x + dx, p.y + dy) then []
    else [Pos(p.x + dx, p.y + dy)]
  }

  /** Pawn.getValidMoves: one step, two steps, then the diagonals dx = -1 and dx = +1. */
  function PawnMoves(b: Cells, p: Piece, ok: Filter): seq<Pos>
  {
    FrontMove(b, p, 1, ok) + FrontMove(b, p, 2, ok) + DiagonalMove(b, p, -1, ok) + DiagonalMove(b, p, 1, ok)
  }

  // ---------------------------------------------------------------------------------------
  // Knight
  // ---------------------------------------------------------------------------------------

  const RowMoves: seq<int> := [-2, -2, -1, -1, 1, 1, 2, 2]
  const ColumnMoves: seq<int> := [-1, 1, -2, 2, -2, 2, -1, 1]

  /**
   * One pass of the loop of Knight.getValidMoves: the target of offset i, when it is on the
   * board, holds no own piece and is accepted by the filter.
   */
  function KnightOffer(b: Cells, p: Piece, i: nat, ok: Filter): seq<Pos>
    requires i < 8
  {
    var newX, newY := p.x + ColumnMoves[i], p.y + RowMoves[i];
    if !InsideBoard(newX, newY) then []
    else if HoldsColor(b, newX, newY, p.color) then []
    else if !ok(newX, newY) then []
    else [Pos(newX, newY)]
  }

  /** The loop of Knight.getValidMoves from offset i on. */
  function KnightScan(b: Cells, p: Piece, i: nat, ok: Filter): seq<Pos>
    requires i <= 8
    decreases 8 - i
  {
    if i == 8 then [] else KnightOffer(b, p, i, ok) + KnightScan(b, p, i + 1, ok)
  }

  function KnightMoves(b: Cells, p: Piece, ok: Filter): seq<Pos>
  {
    KnightScan(b, p, 0, ok)
  }

  // ---------------------------------------------------------------------------------------
  // Rays: Rook.straightMoves and Bishop.diagonalMoves walk them the same way
  // ---------------------------------------------------------------------------------------

  predicate UnitStep(d: int)
  {
    d == -1 || d == 0 || d == 1
  }

  /** The coordinate z + i * d for a unit step d, written without a product. */
  function Along(z: int, d: int, i: int): int
  {
    if d == 1 then z + i else if d == -1 then z - i else z
  }

  /**
   * The ray from (x, y) in direction (dx, dy) from step j on; `eaten` is the loop's
   * pieceEaten flag. An own piece ends the ray. A square that fails the safety filter is
   * skipped by `continue`, which also skips the `break` after a capture.
   */
  function Ray(b: Cells, x: Coord, y: Coord, c: Color, dx: int, dy: int, j: nat, eaten: bool,
               ok: Filter): seq<Pos>
    requires 1 <= j <= 8 && UnitStep(dx) && UnitStep(dy)
    decreases 8 - j
  {
    if j > HighLimit then []
    else
      var newX, newY := Along(x, dx, j), Along(y, dy, j);
      if !InsideBoard(newX, newY) then []
      else if HoldsColor(b, newX, newY, c) then []
      else
        var eaten' := eaten || GetPiece(b, newX, newY).Some?;
        if !ok(newX, newY) then Ray(b, x, y, c, dx, dy, j + 1, eaten', ok)
        else if eaten' then [Pos(newX, newY)]
        else [Pos(newX, newY)] + Ray(b, x, y, c, dx, dy, j + 1, eaten', ok)
  }

  /** Rook.straightMoves: the negative then the positive direction of one axis. */
  function StraightMoves(b: Cells, x: Coord, y: Coord, c: Color, xAxis: bool, ok: Filter): seq<Pos>
  {
    var ax, ay := if xAxis then 1 else 0, if xAxis then 0 else 1;
    Ray(b, x, y, c, -ax, -ay, 1, false, ok) + Ray(b, x, y, c, ax, ay, 1, false, ok)
  }

  /** Rook.getRookMoves: the x-axis moves, then the y-axis moves. */
  function RookMoves(b: Cells, x: Coord, y: Coord, c: Color, ok: Filter): seq<Pos>
  {
    StraightMoves(b, x, y, c, true, ok) + StraightMoves(b, x, y, c, false, ok)
  }

  /** Bishop.getBishopMoves: the rays (1,1), (-1,1), (-1,-1), (1,-1) in that order. */
  function BishopMoves(b: Cells, x: Coord, y: Coord, c: Color, ok: Filter): seq<Pos>
  {
    Ray(b, x, y, c, 1, 1, 1, false, ok) + Ray(b, x, y, c, -1, 1, 1, false, ok)
    + Ray(b, x, y, c, -1, -1, 1, false, ok) + Ray(b, x, y, c, 1, -1, 1, false, ok)
  }

  /** Queen.getValidMoves: the rook moves followed by the bishop moves from the queen's square. */
  function QueenMoves(b: Cells, p: Piece, ok: Filter): seq<Pos>
  {
    RookMoves(b, p.x, p.y, p.color, ok) + BishopMoves(b, p.x, p.y, p.color, ok)
  }

  // ---------------------------------------------------------------------------------------
  // King
  // ---------------------------------------------------------------------------------------

  /** The inner loop of King.traditionalMove for the column dx, from the offset dy on. */
  function KingColumn(b: Cells, king: Piece, dx: int, dy: int, ok: Filter): seq<Pos>
    requires -1 <= dy <= 2
    decreases 2 - dy
  {
    if dy == 2 then []
    else
      var newX, newY := king.x + dx, king.y + dy;
      var rest := KingColumn(b, king, dx, dy + 1, ok);
      if !InsideBoard(newX, newY) then rest
      else if dx == 0 && dy == 0 then rest
      else if HoldsColor(b, newX, newY, king.color) then rest
      else if !ok(newX, newY) then rest
      else [Pos(newX, newY)] + rest
  }

  /** The outer loop of King.traditionalMove from the column dx on; dx and dy run from -1 to 1. */
  function KingSteps(b: Cells, king: Piece, dx: int, ok: Filter): seq<Pos>
    requires -1 <= dx <= 2
    decreases 2 - dx
  {
    if dx == 2 then [] else KingColumn(b, king, dx, -1, ok) + KingSteps(b, king, dx + 1, ok)
  }

  /** The side of the king the rook is on: -1 toward x = 0, +1 otherwise. */
  function CastlingSide(king: Piece, rook: Piece): int
  {
    if king.x > rook.x then -1 else 1
  }

  /**
   * King.freeWayCastling: only the two squares next to the king toward the rook must be
   * empty and accepted by the filter for the king to step onto.
   */
  predicate FreeWayCastling(b: Cells, king: Piece, rook: Piece, ok: Filter)
  {
    var j := CastlingSide(king, rook);
    && GetPiece(b, king.x + j, king.y).None? && ok(king.x + j, king.y)
    && GetPiece(b, king.x + 2 * j, king.y).None? && ok(king.x + 2 * j, king.y)
  }

  /** King.castlingMove: two squares toward an unmoved rook when the way is free. */
  function CastlingMove(b: Cells, king: Piece, rook: Piece, ok: Filter): seq<Pos>
  {
    if HasBeenMoved(rook) then []
    else if !FreeWayCastling(b, king, rook, ok) then []
    else [Pos(king.x + 2 * CastlingSide(king, rook), king.y)]
  }

  /** The rook scan of King.getValidMoves from cell k on: every rook of the king's colour. */
  function CastlingScan(b: Cells, king: Piece, k: nat, ok: Filter): seq<Pos>
    requires k <= 64
    decreases 64 - k
  {
    if k == 64 then []
    else
      var rest := CastlingScan(b, king, k + 1, ok);
      if b[k].Some? && b[k].value.kind == Rook && b[k].value.color == king.color
      then CastlingMove(b, king, b[k].value, ok) + rest
      else rest
  }

  /**
   * King.getValidMoves: the ordinary steps, then castling, which needs the king's own
   * hasBeenMoved field false and the king not in danger now (`inDanger`, asked only with
   * nextMove).
   */
  function KingMoves(b: Cells, king: Piece, ok: Filter, inDanger: bool): seq<Pos>
  {
    var steps := KingSteps(b, king, -1, ok);
    if king.moved then steps
    else if inDanger then steps
    else steps + CastlingScan(b, king, 0, ok)
  }

  // ---------------------------------------------------------------------------------------
  // Rules.java
  // ---------------------------------------------------------------------------------------

  /** The scan of kingInDanger from cell k on: does some opposing piece reach the target? */
  predicate AttackScan(b: Cells, c: Color, target: Pos, k: nat)
    requires k <= 64
    decreases 0, 3, 64 - k
  {
    if k == 64 then false
    else
      (b[k].Some? && b[k].value.color != c && target in ValidMoves(b, b[k].value, false))
      || AttackScan(b, c, target, k + 1)
  }

  /**
   * kingInDanger: the square of getKing(c) is among the unfiltered moves of some piece of
   * the other colour. When getKing finds nothing at all the source dereferences null; the
   * model answers false there.
   */
  predicate KingInDanger(b: Cells, c: Color)
    decreases 0, 4, 0
  {
    match GetKing(b, c)
    case None => false
    case Some(king) => AttackScan(b, c, Pos(king.x, king.y), 0)
  }

  /** The scan of trappedKing from cell k on. */
  predicate TrappedScan(b: Cells, c: Color, k: nat)
    requires k <= 64
    decreases 64 - k
  {
    if k == 64 then true
    else if b[k].Some? && b[k].value.color == c && |ValidMoves(b, b[k].value, true)| > 0 then false
    else TrappedScan(b, c, k + 1)
  }

  /** trappedKing: no piece of the colour has a filtered move. */
  predicate TrappedKing(b: Cells, c: Color)
  {
    TrappedScan(b, c, 0)
  }

  predicate OnPromotionRank(o: Option<Piece>)
  {
    o.Some? && (o.value.y == LowLimit || o.value.y == HighLimit) && o.value.kind == Pawn
  }

  /** The scan of coronation from cell k on. */
  function CoronationScan(b: Cells, k: nat): Option<Piece>
    requires k <= 64
    decreases 64 - k
  {
    if k == 64 then None
    else if OnPromotionRank(b[k]) then b[k]
    else CoronationScan(b, k + 1)
  }

  /** coronation: the first pawn, of either colour, standing on rank 0 or rank 7. */
  function Coronation(b: Cells): Option<Piece>
  {
    CoronationScan(b, 0)
  }
}
