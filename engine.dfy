/**
 * The move generators of chess/pieces and the scans of chess/rules/Rules.java as the
 * loops they are, run on the in-place board of module BoardState.
 *
 * Every method here leaves the board it is given untouched (none has a modifies clause):
 * the safety filter plays a candidate on a fresh clone, never on the board itself. Each
 * method is proved to compute exactly the function of module Rules that describes it, so
 * everything proved about those functions holds for these loops.
 *
 * The members are mutually recursive as in the source, through IsSafe and KingInDanger.
 * Every decreases clause starts with Rank(nextMove): kingInDanger asks for unfiltered
 * moves only, and those never simulate.
 */
module Engine {
  import opened Pieces
  import opened Boards
  import opened BoardState
  import Rules
  import RulesFacts
  import CastlingFacts
  import EngineSteps

  /**
   * The block that every generator repeats: with nextMove, clone the board, play the move
   * on the clone with movePiece and ask kingInDanger there.
   */
  method IsSafe(board: Board, fromX: int, fromY: int, toX: int, toY: int, c: Color, nextMove: bool)
    returns (safe: bool)
    requires board.Valid()
    ensures safe == Rules.MoveFilter(board.cells, fromX, fromY, c, nextMove)(toX, toY)
    decreases Rules.Rank(nextMove), 0
  {
    if !nextMove {
      return true;
    }
    var boardCopy := board.CloneBoard();
    boardCopy.MovePiece(fromX, fromY, toX, toY);
    var danger := KingInDanger(boardCopy, c);
    assert danger == Rules.KingInDangerAfter(board.cells, fromX, fromY, toX, toY, c);
    safe := !danger;
  }

  // ---------------------------------------------------------------------------------------
  // Pawn
  // ---------------------------------------------------------------------------------------

  /** Pawn.frontMove: one square ahead for i = 1, two for i = 2. */
  method FrontMove(board: Board, p: Piece, i: int, nextMove: bool) returns (validMove: seq<Pos>)
    requires board.Valid()
    ensures validMove == Rules.FrontMove(board.cells, p, i, Rules.MoveFilter(board.cells, p.x, p.y, p.color, nextMove))
    decreases Rules.Rank(nextMove), 1
  {
    var dy := if p.color == White then i else -i;
    validMove := [];
    if !InsideBoard(p.x, p.y + dy) {
      return;
    }
    if Abs(dy) == 2 && HasBeenMoved(p) {
      return;
    }
    var inFront := board.GetPiece(p.x, p.y + dy);
    if inFront.Some? {
      return;
    }
    // dy / 2 of the source truncates toward zero
    var half := if dy < 0 then -((-dy) / 2) else dy / 2;
    inFront := board.GetPiece(p.x, p.y + half);
    if Abs(dy) == 2 && inFront.Some? {
      return;
    }
    var safe := IsSafe(board, p.x, p.y, p.x, p.y + dy, p.color, nextMove);
    if !safe {
      return;
    }
    validMove := [Pos(p.x, p.y + dy)];
  }

  /** Pawn.diagonalMove toward dx: an ordinary capture or an en-passant capture. */
  method DiagonalMove(board: Board, p: Piece, dx: int, nextMove: bool) returns (validMove: seq<Pos>)
    requires board.Valid()
    ensures validMove == Rules.DiagonalMove(board.cells, p, dx, Rules.MoveFilter(board.cells, p.x, p.y, p.color, nextMove))
    decreases Rules.Rank(nextMove), 1
  {
    var dy := if p.color == White then 1 else -1;
    validMove := [];
    if !InsideBoard(p.x + dx, p.y + dy) {
      return;
    }
    var inDiagonal := board.GetPiece(p.x + dx, p.y + dy);
    var nextTo := board.GetPiece(p.x + dx, p.y);
    if inDiagonal.None? && nextTo.None? {
      return;
    }
    if inDiagonal.Some? {
      if inDiagonal.value.color == p.color {
        return;
      }
    } else {
      var target := nextTo.value;
      if target.kind != Pawn || target.color == p.color || !(MovesSinceDB(target) == 0 && DoubleBox(target)) {
        return;
      }
    }
    var safe := IsSafe(board, p.x, p.y, p.x + dx, p.y + dy, p.color, nextMove);
    if !safe {
      return;
    }
    validMove := [Pos(p.x + dx, p.y + dy)];
  }

  /** Pawn.getValidMoves: the front moves for i = 1, 2, then the diagonals for i = -1, +1. */
  method PawnMoves(board: Board, p: Piece, nextMove: bool) returns (validMoves: seq<Pos>)
    requires board.Valid()
    ensures validMoves == Rules.PawnMoves(board.cells, p, Rules.MoveFilter(board.cells, p.x, p.y, p.color, nextMove))
    decreases Rules.Rank(nextMove), 2
  {
    validMoves := [];
    for i := 1 to 3
      invariant i == 2 ==> validMoves == Rules.FrontMove(board.cells, p, 1, Rules.MoveFilter(board.cells, p.x, p.y, p.color, nextMove))
      invariant i == 3 ==> validMoves == Rules.FrontMove(board.cells, p, 1, Rules.MoveFilter(board.cells, p.x, p.y, p.color, nextMove)) + Rules.FrontMove(board.cells, p, 2, Rules.MoveFilter(board.cells, p.x, p.y, p.color, nextMove))
      invariant i == 1 ==> validMoves == []
    {
      var move := FrontMove(board, p, i, nextMove);
      validMoves := validMoves + move;
    }
    ghost var front := validMoves;
    var i := -1;
    while i < 2
      invariant i == -1 || i == 1 || i == 3
      invariant i == -1 ==> validMoves == front
      invariant i == 1 ==> validMoves == front + Rules.DiagonalMove(board.cells, p, -1, Rules.MoveFilter(board.cells, p.x, p.y, p.color, nextMove))
      invariant i == 3 ==> validMoves == front + Rules.DiagonalMove(board.cells, p, -1, Rules.MoveFilter(board.cells, p.x, p.y, p.color, nextMove)) + Rules.DiagonalMove(board.cells, p, 1, Rules.MoveFilter(board.cells, p.x, p.y, p.color, nextMove))
    {
      var move := DiagonalMove(board, p, i, nextMove);
      validMoves := validMoves + move;
      i := i + 2;
    }
  }

  // ---------------------------------------------------------------------------------------
  // Knight
  // ---------------------------------------------------------------------------------------

  /**
   * One pass of the loop of Knight.getValidMoves: the target of offset i, if it is on the
   * board, not held by an own piece and, with nextMove, safe for the king.
   */
  method KnightOffset(board: Board, p: Piece, i: nat, nextMove: bool) returns (move: seq<Pos>)
    requires board.Valid() && i < 8
    ensures move == Rules.KnightOffer(board.cells, p, i, Rules.MoveFilter(board.cells, p.x, p.y, p.color, nextMove))
    decreases Rules.Rank(nextMove), 1
  {
    move := [];
    var newX, newY := p.x + Rules.ColumnMoves[i], p.y + Rules.RowMoves[i];
    if !InsideBoard(newX, newY) {
      return;
    }
    var piece := board.GetPiece(newX, newY);
    if piece.Some? && piece.value.color == p.color {
      return;
    }
    var safe := IsSafe(board, p.x, p.y, newX, newY, p.color, nextMove);
    if !safe {
      return;
    }
    move := [Pos(newX, newY)];
  }

  /** Knight.getValidMoves: the eight offsets in the order of rowMoves and columnMoves. */
  method KnightMoves(board: Board, p: Piece, nextMove: bool) returns (validMoves: seq<Pos>)
    requires board.Valid()
    ensures validMoves == Rules.KnightMoves(board.cells, p, Rules.MoveFilter(board.cells, p.x, p.y, p.color, nextMove))
    decreases Rules.Rank(nextMove), 2
  {
    ghost var whole := Rules.KnightScan(board.cells, p, 0, Rules.MoveFilter(board.cells, p.x, p.y, p.color, nextMove));
    validMoves := [];
    for i := 0 to 8
      invariant validMoves + Rules.KnightScan(board.cells, p, i, Rules.MoveFilter(board.cells, p.x, p.y, p.color, nextMove)) == whole
    {
      EngineSteps.KnightNext(board.cells, p, i, Rules.MoveFilter(board.cells, p.x, p.y, p.color, nextMove), validMoves, whole);
      var move := KnightOffset(board, p, i, nextMove);
      validMoves := validMoves + move;
    }
  }

  // ---------------------------------------------------------------------------------------
  // Rook, Bishop and Queen
  // ---------------------------------------------------------------------------------------

  /** The coordinate z + i * d of the square i steps along a ray. */
  method Project(z: int, d: int, i: int) returns (r: int)
    requires Rules.UnitStep(d)
    ensures r == Rules.Along(z, d, i)
  {
    RulesFacts.AlongIsProduct(z, d, i);
    r := z + i * d;
  }

  /**
   * One pass of the ray loop at step i: the square (x + i * dx, y + i * dy) breaks the walk
   * when it is off the board or holds an own piece; otherwise an opposing piece sets
   * pieceEaten, a square rejected by the safety filter is skipped by continue, and an
   * accepted one is added, after which a capture breaks the walk.
   */
  method RayStep(x: Coord, y: Coord, c: Color, board: Board, dx: int, dy: int, i: nat, pieceEaten: bool,
                 nextMove: bool)
    returns (move: seq<Pos>, stop: bool, eaten: bool)
    requires board.Valid() && Rules.UnitStep(dx) && Rules.UnitStep(dy) && 1 <= i <= 7
    ensures var ok := Rules.MoveFilter(board.cells, x, y, c, nextMove);
            && move == EngineSteps.RayOffer(board.cells, x, y, c, dx, dy, i, ok)
            && stop == EngineSteps.RayStops(board.cells, x, y, c, dx, dy, i, pieceEaten, ok)
            && (!stop ==> eaten == EngineSteps.RayEaten(board.cells, x, y, dx, dy, i, pieceEaten))
    decreases Rules.Rank(nextMove), 1
  {
    var newX := Project(x, dx, i);
    var newY := Project(y, dy, i);
    move, stop, eaten := [], true, pieceEaten;
    if InsideBoard(newX, newY) {
      var piece := board.GetPiece(newX, newY);
      if piece.None? || piece.value.color != c {
        eaten := pieceEaten || piece.Some?;
        var safe := IsSafe(board, x, y, newX, newY, c, nextMove);
        if safe {
          move := [Pos(newX, newY)];
          stop := eaten;
        } else {
          stop := false;
        }
      }
    }
  }

  /** One pass of the ray loop, added to the squares done so far, in terms of what is left to walk. */
  method RayWalk(x: Coord, y: Coord, c: Color, board: Board, dx: int, dy: int, i: nat, pieceEaten: bool,
                 nextMove: bool, done: seq<Pos>, ghost whole: seq<Pos>)
    returns (validMoves: seq<Pos>, stop: bool, eaten: bool)
    requires board.Valid() && Rules.UnitStep(dx) && Rules.UnitStep(dy) && 1 <= i <= 7
    requires done + Rules.Ray(board.cells, x, y, c, dx, dy, i, pieceEaten, Rules.MoveFilter(board.cells, x, y, c, nextMove)) == whole
    ensures stop ==> validMoves == whole
    ensures !stop ==> validMoves + Rules.Ray(board.cells, x, y, c, dx, dy, i + 1, eaten, Rules.MoveFilter(board.cells, x, y, c, nextMove)) == whole
    decreases Rules.Rank(nextMove), 2
  {
    EngineSteps.RayNext(board.cells, x, y, c, dx, dy, i, pieceEaten, Rules.MoveFilter(board.cells, x, y, c, nextMove), done, whole);
    var move;
    move, stop, eaten := RayStep(x, y, c, board, dx, dy, i, pieceEaten, nextMove);
    validMoves := done + move;
  }

  /**
   * The walk of one ray from (x, y) in direction (dx, dy), i = 1 .. 7 steps out: the whole of
   * Bishop.diagonalMoves, and the inner loop of Rook.straightMoves, whose offset
   * i * j * (xAxis ? 1 : 0) is j * dx for dx = i * (xAxis ? 1 : 0).
   */
  method DiagonalMoves(x: Coord, y: Coord, c: Color, board: Board, dx: int, dy: int, nextMove: bool)
    returns (validMoves: seq<Pos>)
    requires board.Valid() && Rules.UnitStep(dx) && Rules.UnitStep(dy)
    ensures validMoves == Rules.Ray(board.cells, x, y, c, dx, dy, 1, false, Rules.MoveFilter(board.cells, x, y, c, nextMove))
    decreases Rules.Rank(nextMove), 3
  {
    ghost var whole := Rules.Ray(board.cells, x, y, c, dx, dy, 1, false, Rules.MoveFilter(board.cells, x, y, c, nextMove));
    validMoves := [];
    var pieceEaten, stop := false, false;
    var i := 1;
    while i <= HighLimit && !stop
      invariant 1 <= i <= 8
      invariant stop ==> validMoves == whole
      invariant !stop ==> validMoves + Rules.Ray(board.cells, x, y, c, dx, dy, i, pieceEaten, Rules.MoveFilter(board.cells, x, y, c, nextMove)) == whole
    {
      validMoves, stop, pieceEaten := RayWalk(x, y, c, board, dx, dy, i, pieceEaten, nextMove, validMoves, whole);
      i := i + 1;
    }
    if !stop {
      EngineSteps.RayEnd(board.cells, x, y, c, dx, dy, pieceEaten, Rules.MoveFilter(board.cells, x, y, c, nextMove), validMoves, whole);
    }
  }

  /** Rook.straightMoves: the ray toward i = -1, then toward i = 1, along one axis. */
  method StraightMoves(x: Coord, y: Coord, c: Color, board: Board, xAxis: bool, nextMove: bool)
    returns (validMoves: seq<Pos>)
    requires board.Valid()
    ensures validMoves == Rules.StraightMoves(board.cells, x, y, c, xAxis, Rules.MoveFilter(board.cells, x, y, c, nextMove))
    decreases Rules.Rank(nextMove), 4
  {
    var ax, ay := if xAxis then 1 else 0, if xAxis then 0 else 1;
    var negative := DiagonalMoves(x, y, c, board, -ax, -ay, nextMove);
    var positive := DiagonalMoves(x, y, c, board, ax, ay, nextMove);
    validMoves := negative + positive;
  }

  /** Rook.getRookMoves: the x-axis moves, then the y-axis moves. */
  method RookMoves(x: Coord, y: Coord, c: Color, board: Board, nextMove: bool) returns (validMoves: seq<Pos>)
    requires board.Valid()
    ensures validMoves == Rules.RookMoves(board.cells, x, y, c, Rules.MoveFilter(board.cells, x, y, c, nextMove))
    decreases Rules.Rank(nextMove), 5
  {
    var alongX := StraightMoves(x, y, c, board, true, nextMove);
    var alongY := StraightMoves(x, y, c, board, false, nextMove);
    validMoves := alongX + alongY;
  }

  /** Bishop.getBishopMoves: the rays (1,1), (-1,1), (-1,-1), (1,-1) in that order. */
  method BishopMoves(x: Coord, y: Coord, c: Color, board: Board, nextMove: bool) returns (validMoves: seq<Pos>)
    requires board.Valid()
    ensures validMoves == Rules.BishopMoves(board.cells, x, y, c, Rules.MoveFilter(board.cells, x, y, c, nextMove))
    decreases Rules.Rank(nextMove), 4
  {
    var ray1 := DiagonalMoves(x, y, c, board, 1, 1, nextMove);
    var ray2 := DiagonalMoves(x, y, c, board, -1, 1, nextMove);
    var ray3 := DiagonalMoves(x, y, c, board, -1, -1, nextMove);
    var ray4 := DiagonalMoves(x, y, c, board, 1, -1, nextMove);
    validMoves := ray1 + ray2 + ray3 + ray4;
  }

  /** Queen.getValidMoves: the rook moves, then the bishop moves, from the queen's square. */
  method QueenMoves(board: Board, q: Piece, nextMove: bool) returns (validMoves: seq<Pos>)
    requires board.Valid()
    ensures validMoves == Rules.QueenMoves(board.cells, q, Rules.MoveFilter(board.cells, q.x, q.y, q.color, nextMove))
    decreases Rules.Rank(nextMove), 6
  {
    var straight := RookMoves(q.x, q.y, q.color, board, nextMove);
    var diagonal := BishopMoves(q.x, q.y, q.color, board, nextMove);
    validMoves := straight + diagonal;
  }

  // ---------------------------------------------------------------------------------------
  // King
  // ---------------------------------------------------------------------------------------

  /**
   * One pass of the inner loop of King.traditionalMove: the square (x + dx, y + dy) if it is
   * on the board, is not the king's own, holds no own piece and, with nextMove, is safe.
   */
  method KingStep(board: Board, king: Piece, dx: int, dy: int, nextMove: bool) returns (move: seq<Pos>)
    requires board.Valid()
    ensures move == if RulesFacts.StepAccepted(board.cells, king, dx, dy, Rules.MoveFilter(board.cells, king.x, king.y, king.color, nextMove))
                    then [Pos(king.x + dx, king.y + dy)] else []
    decreases Rules.Rank(nextMove), 1
  {
    move := [];
    if !InsideBoard(king.x + dx, king.y + dy) {
      return;
    }
    if dx == 0 && dy == 0 {
      return;
    }
    var nextTo := board.GetPiece(king.x + dx, king.y + dy);
    if nextTo.Some? && nextTo.value.color == king.color {
      return;
    }
    var safe := IsSafe(board, king.x, king.y, king.x + dx, king.y + dy, king.color, nextMove);
    if !safe {
      return;
    }
    move := [Pos(king.x + dx, king.y + dy)];
  }

  /** The square (dx, dy) of traditionalMove appended to the squares done before it. */
  method KingWalk(board: Board, king: Piece, dx: int, dy: int, nextMove: bool, done: seq<Pos>, ghost whole: seq<Pos>)
    returns (column: seq<Pos>)
    requires board.Valid() && -1 <= dy <= 1
    requires done + Rules.KingColumn(board.cells, king, dx, dy, Rules.MoveFilter(board.cells, king.x, king.y, king.color, nextMove)) == whole
    ensures column + Rules.KingColumn(board.cells, king, dx, dy + 1, Rules.MoveFilter(board.cells, king.x, king.y, king.color, nextMove)) == whole
    decreases Rules.Rank(nextMove), 2
  {
    EngineSteps.KingColumnNext(board.cells, king, dx, dy, Rules.MoveFilter(board.cells, king.x, king.y, king.color, nextMove), done, whole);
    var move := KingStep(board, king, dx, dy, nextMove);
    column := done + move;
  }

  /** One pass of the outer loop of King.traditionalMove: the offsets dy = -1 .. 1 of the column dx. */
  method KingColumnMoves(board: Board, king: Piece, dx: int, nextMove: bool) returns (column: seq<Pos>)
    requires board.Valid()
    ensures column == Rules.KingColumn(board.cells, king, dx, -1, Rules.MoveFilter(board.cells, king.x, king.y, king.color, nextMove))
    decreases Rules.Rank(nextMove), 3
  {
    ghost var whole := Rules.KingColumn(board.cells, king, dx, -1, Rules.MoveFilter(board.cells, king.x, king.y, king.color, nextMove));
    column := [];
    for dy := -1 to 2
      invariant column + Rules.KingColumn(board.cells, king, dx, dy, Rules.MoveFilter(board.cells, king.x, king.y, king.color, nextMove)) == whole
    {
      column := KingWalk(board, king, dx, dy, nextMove, column, whole);
    }
    EngineSteps.KingColumnLeave(board.cells, king, dx, Rules.MoveFilter(board.cells, king.x, king.y, king.color, nextMove), column, whole);
  }

  /** King.traditionalMove: the offsets dx, dy = -1 .. 1, the king's own square excluded. */
  method TraditionalMove(board: Board, king: Piece, nextMove: bool) returns (validMoves: seq<Pos>)
    requires board.Valid()
    ensures validMoves == Rules.KingSteps(board.cells, king, -1, Rules.MoveFilter(board.cells, king.x, king.y, king.color, nextMove))
    decreases Rules.Rank(nextMove), 4
  {
    ghost var whole := Rules.KingSteps(board.cells, king, -1, Rules.MoveFilter(board.cells, king.x, king.y, king.color, nextMove));
    validMoves := [];
    for dx := -1 to 2
      invariant validMoves + Rules.KingSteps(board.cells, king, dx, Rules.MoveFilter(board.cells, king.x, king.y, king.color, nextMove)) == whole
    {
      EngineSteps.KingColumnEnter(board.cells, king, dx, Rules.MoveFilter(board.cells, king.x, king.y, king.color, nextMove), validMoves, whole);
      var column := KingColumnMoves(board, king, dx, nextMove);
      validMoves := validMoves + column;
    }
    EngineSteps.KingStepsEnd(board.cells, king, Rules.MoveFilter(board.cells, king.x, king.y, king.color, nextMove), validMoves, whole);
  }

  /** One pass of the loop of King.freeWayCastling: the square (x, king.y) is empty and safe. */
  method WayFree(board: Board, king: Piece, x: int, nextMove: bool) returns (free: bool)
    requires board.Valid()
    ensures free == (GetPiece(board.cells, x, king.y).None?
                     && Rules.MoveFilter(board.cells, king.x, king.y, king.color, nextMove)(x, king.y))
    decreases Rules.Rank(nextMove), 1
  {
    var piece := board.GetPiece(x, king.y);
    if piece.Some? {
      return false;
    }
    free := IsSafe(board, king.x, king.y, x, king.y, king.color, nextMove);
  }

  /** King.freeWayCastling: the squares one and two steps toward the rook. */
  method FreeWayCastling(board: Board, king: Piece, rook: Piece, nextMove: bool) returns (free: bool)
    requires board.Valid()
    ensures free == Rules.FreeWayCastling(board.cells, king, rook, Rules.MoveFilter(board.cells, king.x, king.y, king.color, nextMove))
    decreases Rules.Rank(nextMove), 2
  {
    var j := if king.x > rook.x then -1 else 1;
    for i := 1 to 3
      invariant i >= 2 ==> GetPiece(board.cells, king.x + j, king.y).None? && Rules.MoveFilter(board.cells, king.x, king.y, king.color, nextMove)(king.x + j, king.y)
      invariant i >= 3 ==> GetPiece(board.cells, king.x + 2 * j, king.y).None? && Rules.MoveFilter(board.cells, king.x, king.y, king.color, nextMove)(king.x + 2 * j, king.y)
    {
      var way := WayFree(board, king, king.x + i * j, nextMove);
      if !way {
        return false;
      }
    }
    return true;
  }

  /** King.castlingMove: two squares toward an unmoved rook when the way is free. */
  method CastlingMove(board: Board, king: Piece, rook: Piece, nextMove: bool) returns (validMove: seq<Pos>)
    requires board.Valid()
    ensures validMove == Rules.CastlingMove(board.cells, king, rook, Rules.MoveFilter(board.cells, king.x, king.y, king.color, nextMove))
    decreases Rules.Rank(nextMove), 3
  {
    validMove := [];
    if HasBeenMoved(rook) {
      return;
    }
    var free := FreeWayCastling(board, king, rook, nextMove);
    if !free {
      return;
    }
    var i := if king.x > rook.x then -1 else 1;
    validMove := [Pos(king.x + 2 * i, king.y)];
  }

  /** One pass of the rook scan of King.getValidMoves: the castling toward a rook of the king's colour on (x, y). */
  method CastlingCell(board: Board, king: Piece, x: Coord, y: Coord, nextMove: bool) returns (move: seq<Pos>)
    requires board.Valid()
    ensures move == if CastlingFacts.RookOfKing(board.cells, king, Idx(x, y))
                    then Rules.CastlingMove(board.cells, king, board.cells[Idx(x, y)].value,
                                            Rules.MoveFilter(board.cells, king.x, king.y, king.color, nextMove))
                    else []
    decreases Rules.Rank(nextMove), 4
  {
    move := [];
    var piece := board.GetPiece(x, y);
    if piece.None? {
      return;
    }
    if piece.value.kind != Rook || piece.value.color != king.color {
      return;
    }
    move := CastlingMove(board, king, piece.value, nextMove);
  }

  /** The inner loop of the rook scan of King.getValidMoves over the row y. */
  method CastlingRow(board: Board, king: Piece, y: Coord, nextMove: bool) returns (validMoves: seq<Pos>)
    requires board.Valid()
    ensures var ok := Rules.MoveFilter(board.cells, king.x, king.y, king.color, nextMove);
            validMoves + Rules.CastlingScan(board.cells, king, 8 * y + 8, ok) == Rules.CastlingScan(board.cells, king, 8 * y, ok)
    decreases Rules.Rank(nextMove), 5
  {
    ghost var whole := Rules.CastlingScan(board.cells, king, 8 * y, Rules.MoveFilter(board.cells, king.x, king.y, king.color, nextMove));
    validMoves := [];
    for x := 0 to 8
      invariant validMoves + Rules.CastlingScan(board.cells, king, 8 * y + x, Rules.MoveFilter(board.cells, king.x, king.y, king.color, nextMove)) == whole
    {
      EngineSteps.CastlingNext(board.cells, king, 8 * y + x, Rules.MoveFilter(board.cells, king.x, king.y, king.color, nextMove), validMoves, whole);
      var move := CastlingCell(board, king, x, y, nextMove);
      validMoves := validMoves + move;
    }
  }

  /** The rook scan of King.getValidMoves: a castling toward every rook of the king's colour, row by row. */
  method CastlingScan(board: Board, king: Piece, nextMove: bool) returns (validMoves: seq<Pos>)
    requires board.Valid()
    ensures validMoves == Rules.CastlingScan(board.cells, king, 0, Rules.MoveFilter(board.cells, king.x, king.y, king.color, nextMove))
    decreases Rules.Rank(nextMove), 6
  {
    validMoves := [];
    for y := 0 to 8
      invariant validMoves + Rules.CastlingScan(board.cells, king, 8 * y, Rules.MoveFilter(board.cells, king.x, king.y, king.color, nextMove)) == Rules.CastlingScan(board.cells, king, 0, Rules.MoveFilter(board.cells, king.x, king.y, king.color, nextMove))
    {
      var row := CastlingRow(board, king, y, nextMove);
      assert validMoves + (row + Rules.CastlingScan(board.cells, king, 8 * y + 8, Rules.MoveFilter(board.cells, king.x, king.y, king.color, nextMove)))
          == (validMoves + row) + Rules.CastlingScan(board.cells, king, 8 * y + 8, Rules.MoveFilter(board.cells, king.x, king.y, king.color, nextMove));
      validMoves := validMoves + row;
    }
    assert validMoves + [] == validMoves;
  }

  /**
   * King.getValidMoves: the ordinary moves, then, for an unmoved king not in danger, a
   * castling toward every rook of its colour in the row-major scan.
   */
  method KingMoves(board: Board, king: Piece, nextMove: bool) returns (validMoves: seq<Pos>)
    requires board.Valid()
    ensures validMoves == Rules.KingMoves(board.cells, king, Rules.MoveFilter(board.cells, king.x, king.y, king.color, nextMove),
                                          nextMove && Rules.KingInDanger(board.cells, king.color))
    decreases Rules.Rank(nextMove), 7
  {
    validMoves := TraditionalMove(board, king, nextMove);
    if king.moved {
      return;
    }
    if nextMove {
      var danger := KingInDanger(board, king.color);
      if danger {
        return;
      }
    }
    var castlings := CastlingScan(board, king, nextMove);
    validMoves := validMoves + castlings;
  }

  // ---------------------------------------------------------------------------------------
  // Dispatch and Rules.java
  // ---------------------------------------------------------------------------------------

  /** getValidMoves, dispatched on the kind of the piece; the base class offers nothing. */
  method ValidMoves(board: Board, p: Piece, nextMove: bool) returns (validMoves: seq<Pos>)
    requires board.Valid()
    ensures validMoves == Rules.ValidMoves(board.cells, p, nextMove)
    decreases Rules.Rank(nextMove), 9
  {
    match p.kind
    case NoKind =>
      validMoves := [];
    case Pawn =>
      validMoves := PawnMoves(board, p, nextMove);
    case Knight =>
      validMoves := KnightMoves(board, p, nextMove);
    case Bishop =>
      validMoves := BishopMoves(p.x, p.y, p.color, board, nextMove);
    case Rook =>
      validMoves := RookMoves(p.x, p.y, p.color, board, nextMove);
    case Queen =>
      validMoves := QueenMoves(board, p, nextMove);
    case King =>
      validMoves := KingMoves(board, p, nextMove);
  }

  /** The inner loop of Rules.kingInDanger: whether a move of the list lands on the target square. */
  method Contains(validMoves: seq<Pos>, target: Pos) returns (found: bool)
    ensures found <==> target in validMoves
  {
    for i := 0 to |validMoves|
      invariant forall t :: 0 <= t < i ==> validMoves[t] != target
    {
      if validMoves[i].x == target.x && validMoves[i].y == target.y {
        return true;
      }
    }
    return false;
  }

  /** One cell of the scan of Rules.kingInDanger: a piece of the other colour on (x, y) whose unfiltered moves reach the target. */
  method Attacks(board: Board, c: Color, x: Coord, y: Coord, target: Pos) returns (hit: bool)
    requires board.Valid()
    ensures var o := board.cells[Idx(x, y)];
            hit == (o.Some? && o.value.color != c && target in Rules.ValidMoves(board.cells, o.value, false))
    decreases 0, 10
  {
    var piece := board.GetPiece(x, y);
    if piece.None? {
      return false;
    }
    if piece.value.color == c {
      return false;
    }
    var validMoves := ValidMoves(board, piece.value, false);
    hit := Contains(validMoves, target);
  }

  /** The inner loop of Rules.kingInDanger over the row y: whether some piece on it attacks the target. */
  method AttacksFromRow(board: Board, c: Color, y: Coord, target: Pos) returns (hit: bool)
    requires board.Valid()
    ensures Rules.AttackScan(board.cells, c, target, 8 * y) == (hit || Rules.AttackScan(board.cells, c, target, 8 * y + 8))
    decreases 0, 11
  {
    ghost var b := board.cells;
    for x := 0 to 8
      invariant Rules.AttackScan(b, c, target, 8 * y) == Rules.AttackScan(b, c, target, 8 * y + x)
    {
      EngineSteps.AttackNext(b, c, target, 8 * y + x);
      hit := Attacks(board, c, x, y, target);
      if hit {
        return;
      }
    }
    hit := false;
  }

  /**
   * Rules.kingInDanger: scan the board for a piece of the other colour whose unfiltered
   * moves reach the king of colour c. Without any piece for getKing to return the source
   * dereferences null; here the answer is false.
   */
  method KingInDanger(board: Board, c: Color) returns (danger: bool)
    requires board.Valid()
    ensures danger == Rules.KingInDanger(board.cells, c)
    decreases 0, 12
  {
    ghost var b := board.cells;
    var king := board.GetKing(c);
    if king.None? {
      return false;
    }
    var target := Pos(king.value.x, king.value.y);
    for y := 0 to 8
      invariant Rules.AttackScan(board.cells, c, target, 0) == Rules.AttackScan(board.cells, c, target, 8 * y)
    {
      var hit := AttacksFromRow(board, c, y, target);
      if hit {
        return true;
      }
    }
    return false;
  }

  /** One cell of the scan of Rules.trappedKing: a piece of colour c on (x, y) with a filtered move. */
  method Movable(board: Board, c: Color, x: Coord, y: Coord) returns (can: bool)
    requires board.Valid()
    ensures var o := board.cells[Idx(x, y)];
            can == (o.Some? && o.value.color == c && |Rules.ValidMoves(board.cells, o.value, true)| > 0)
  {
    var piece := board.GetPiece(x, y);
    if piece.None? {
      return false;
    }
    if piece.value.color != c {
      return false;
    }
    var validMoves := ValidMoves(board, piece.value, true);
    return |validMoves| > 0;
  }

  /**
   * The inner loop of Rules.trappedKing over the row y: whether some piece of colour c on it
   * has a filtered move, at which point the source returns false.
   */
  method MovableInRow(board: Board, c: Color, y: Coord) returns (can: bool)
    requires board.Valid()
    ensures Rules.TrappedScan(board.cells, c, 8 * y) == (!can && Rules.TrappedScan(board.cells, c, 8 * y + 8))
  {
    can := false;
    var x := 0;
    while x < 8 && !can
      invariant 0 <= x <= 8
      invariant can ==> !Rules.TrappedScan(board.cells, c, 8 * y)
      invariant !can ==> Rules.TrappedScan(board.cells, c, 8 * y) == Rules.TrappedScan(board.cells, c, 8 * y + x)
    {
      EngineSteps.TrappedNext(board.cells, c, 8 * y + x);
      can := Movable(board, c, x, y);
      x := x + 1;
    }
  }

  /** Rules.trappedKing: no piece of colour c has a move that keeps its king safe. */
  method TrappedKing(board: Board, c: Color) returns (trapped: bool)
    requires board.Valid()
    ensures trapped == Rules.TrappedKing(board.cells, c)
  {
    for y := 0 to 8
      invariant Rules.TrappedScan(board.cells, c, 0) == Rules.TrappedScan(board.cells, c, 8 * y)
    {
      var can := MovableInRow(board, c, y);
      if can {
        return false;
      }
    }
    return true;
  }

  /** Rules.coronation: the first pawn found on rank 0 or rank 7, or None. */
  method Coronation(board: Board) returns (piece: Option<Piece>)
    requires board.Valid()
    ensures piece == Rules.Coronation(board.cells)
  {
    ghost var b := board.cells;
    for y := 0 to 8
      invariant Rules.CoronationScan(b, 0) == Rules.CoronationScan(b, 8 * y)
    {
      for x := 0 to 8
        invariant Rules.CoronationScan(b, 0) == Rules.CoronationScan(b, 8 * y + x)
      {
        piece := board.GetPiece(x, y);
        if piece.None? {
          continue;
        }
        if (piece.value.y == LowLimit || piece.value.y == HighLimit) && piece.value.kind == Pawn {
          return;
        }
      }
    }
    return None;
  }
}
