/**
 * chess/board/Board.java as values: an 8x8 grid of optional pieces, flattened in the
 * row-major order (y outer, x inner) in which every scan of the source walks it.
 * These functions are the specification of the in-place class BoardState.Board and are
 * what the move generators simulate on.
 */
module Boards {
  import opened Pieces

  type Cells = s: seq<Option<Piece>> | |s| == 64 witness seq(64, _ => None)

  /** Position of square (x, y) in the row-major scan. */
  function Idx(x: Coord, y: Coord): (k: nat)
    ensures k < 64
  {
    8 * y + x
  }

  function XOf(k: nat): Coord
    requires k < 64
  {
    k % 8
  }

  function YOf(k: nat): Coord
    requires k < 64
  {
    k / 8
  }

  lemma IdxOfXY(k: nat)
    requires k < 64
    ensures Idx(XOf(k), YOf(k)) == k
  {
  }

  lemma XYOfIdx(x: Coord, y: Coord)
    ensures XOf(Idx(x, y)) == x && YOf(Idx(x, y)) == y
  {
  }

  /** The board just built or cleared. */
  const Empty: Cells := seq(64, _ => None)

  /** Every piece sits on the cell its own coordinates name. */
  ghost predicate WellPlaced(b: Cells)
  {
    forall k :: 0 <= k < 64 && b[k].Some? ==> Idx(b[k].value.x, b[k].value.y) == k
  }

  ghost predicate WellFormedBoard(b: Cells)
  {
    forall k :: 0 <= k < 64 && b[k].Some? ==> WellFormed(b[k].value)
  }

  ghost predicate Consistent(b: Cells)
  {
    WellPlaced(b) && WellFormedBoard(b)
  }

  /** getPiece: out of bounds there is nothing. */
  function GetPiece(b: Cells, x: int, y: int): Option<Piece>
  {
    if InsideBoard(x, y) then b[Idx(x, y)] else None
  }

  /** addPiece: the piece goes to the cell its coordinates name, replacing any occupant. */
  function AddPiece(b: Cells, p: Piece): (r: Cells)
    ensures r[Idx(p.x, p.y)] == Some(p)
    ensures forall k :: 0 <= k < 64 && k != Idx(p.x, p.y) ==> r[k] == b[k]
  {
    if InsideBoard(p.x, p.y) then b[Idx(p.x, p.y) := Some(p)] else b
  }

  /** removePiece: empties the cell the piece's coordinates name, whatever it holds. */
  function RemovePiece(b: Cells, p: Piece): (r: Cells)
    ensures r[Idx(p.x, p.y)] == None
    ensures forall k :: 0 <= k < 64 && k != Idx(p.x, p.y) ==> r[k] == b[k]
  {
    if InsideBoard(p.x, p.y) then b[Idx(p.x, p.y) := None] else b
  }

  predicate IsKingOf(o: Option<Piece>, c: Color)
  {
    o.Some? && o.value.kind == King && o.value.color == c
  }

  /** No king of colour c on the cells lo .. hi-1. */
  predicate NoKingIn(b: Cells, c: Color, lo: nat, hi: nat)
    requires lo <= hi <= 64
  {
    forall i :: lo <= i < hi ==> !IsKingOf(b[i], c)
  }

  /**
   * The loop of getKing from cell k on. When the loop finds no king it falls out holding the
   * last cell it read, which is (7, 7): that is what the source returns.
   */
  function KingScan(b: Cells, c: Color, k: nat): Option<Piece>
    requires k <= 64
    decreases 64 - k
  {
    if k == 64 then b[63]
    else if IsKingOf(b[k], c) then b[k]
    else KingScan(b, c, k + 1)
  }

  /** The scan answers the first king from k on, or the cell (7, 7) when there is none. */
  lemma {:induction false} KingScanFinds(b: Cells, c: Color, k: nat)
    requires k <= 64
    ensures NoKingIn(b, c, k, 64) ==> KingScan(b, c, k) == b[63]
    ensures forall j :: k <= j < 64 && IsKingOf(b[j], c) && NoKingIn(b, c, k, j) ==> KingScan(b, c, k) == b[j]
    decreases 64 - k
  {
    if k < 64 && !IsKingOf(b[k], c) {
      KingScanFinds(b, c, k + 1);
      assert NoKingIn(b, c, k, 64) ==> NoKingIn(b, c, k + 1, 64);
      forall j | k <= j < 64 && IsKingOf(b[j], c) && NoKingIn(b, c, k, j)
        ensures KingScan(b, c, k) == b[j]
      {
        assert j != k;
        assert NoKingIn(b, c, k + 1, j);
      }
    }
  }

  /** getKing. */
  function GetKing(b: Cells, c: Color): Option<Piece>
  {
    KingScan(b, c, 0)
  }

  function CloneCell(o: Option<Piece>): Option<Piece>
  {
    if o.Some? then Some(Clone(o.value)) else None
  }

  /** cloneBoard: a copy of every cell, each piece through its own clone. */
  function CloneBoard(b: Cells): Cells
  {
    seq(64, k requires 0 <= k < 64 => CloneCell(b[k]))
  }

  function SweepCell(o: Option<Piece>): Option<Piece>
  {
    if o.Some? && o.value.kind == Pawn then Some(AddMoveSinceDB(o.value)) else o
  }

  /**
   * The loop of movePiece that calls addMoveSinceDB on every pawn: a pawn that has
   * double-stepped counts one more ply, every other cell stays as it was.
   */
  function SweepPawns(b: Cells): (r: Cells)
    ensures forall k :: 0 <= k < 64 && b[k].Some? && DoubleBox(b[k].value) ==>
              r[k] == Some(b[k].value.(movesSinceDB := b[k].value.movesSinceDB + 1))
    ensures forall k :: 0 <= k < 64 && !(b[k].Some? && DoubleBox(b[k].value)) ==> r[k] == b[k]
  {
    seq(64, k requires 0 <= k < 64 => SweepCell(b[k]))
  }

  /** setHasBeenMoved on whatever stands on (x, y). */
  function MarkMoved(b: Cells, x: Coord, y: Coord): (r: Cells)
    ensures forall k :: 0 <= k < 64 && k != Idx(x, y) ==> r[k] == b[k]
    ensures b[Idx(x, y)].Some? ==> r[Idx(x, y)] == Some(SetHasBeenMoved(b[Idx(x, y)].value))
    ensures b[Idx(x, y)].None? ==> r == b
  {
    match b[Idx(x, y)]
    case None => b
    case Some(p) => b[Idx(x, y) := Some(SetHasBeenMoved(p))]
  }

  /** setDoubleBox on whatever stands on (x, y). */
  function MarkDoubleStep(b: Cells, x: Coord, y: Coord): (r: Cells)
    ensures forall k :: 0 <= k < 64 && k != Idx(x, y) ==> r[k] == b[k]
    ensures b[Idx(x, y)].Some? ==> r[Idx(x, y)] == Some(SetDoubleBox(b[Idx(x, y)].value))
    ensures b[Idx(x, y)].None? ==> r == b
  {
    match b[Idx(x, y)]
    case None => b
    case Some(p) => b[Idx(x, y) := Some(SetDoubleBox(p))]
  }

  function Abs(n: int): nat
  {
    if n < 0 then -n else n
  }

  /** A king move is a castling when it is not a one-square step along either axis. */
  predicate IsCastlingJump(oldX: int, oldY: int, newX: int, newY: int)
  {
    Abs(oldX - newX) != 1 && Abs(oldY - newY) != 1
  }

  /** The column checkCastling takes the rook from, and the step from the king to its new square. */
  function CastlingRookX(newX: int): Coord
  {
    if newX < HighLimit / 2 then LowLimit else HighLimit
  }

  function CastlingRookStep(newX: int): int
  {
    if newX < HighLimit / 2 then 1 else -1
  }

  /**
   * checkCastling: the king on (newX, newY) is marked moved; after a jump, whatever stands at
   * the edge of the old rank on the side of the jump is moved next to the king, toward the
   * centre. Nothing checks that it is a rook, or of the king's colour.
   */
  function CheckCastling(b: Cells, oldX: Coord, oldY: Coord, newX: Coord, newY: Coord): Cells
  {
    var b1 := MarkMoved(b, newX, newY);
    if !IsCastlingJump(oldX, oldY, newX, newY) then b1
    else
      match GetPiece(b1, CastlingRookX(newX), oldY)
      case None => b1
      case Some(rook) =>
        AddPiece(RemovePiece(b1, rook), SetPosition(rook, newX + CastlingRookStep(newX), newY))
  }

  /** The condition under which checkEatenByPass removes the piece beside the pawn. */
  predicate CapturableByPass(o: Option<Piece>)
  {
    o.Some? && o.value.kind == Pawn && MovesSinceDB(o.value) == 1 && DoubleBox(o.value)
  }

  /**
   * checkEatenByPass: the pawn on (newX, newY) is marked moved; a two-rank step sets its
   * doubleBox; a diagonal step removes the piece on (newX, oldY) when it is a pawn that
   * double-stepped exactly one ply ago. The colour of that pawn is not checked.
   */
  function CheckEatenByPass(b: Cells, oldX: Coord, oldY: Coord, newX: Coord, newY: Coord): Cells
  {
    var b1 := MarkMoved(b, newX, newY);
    if Abs(oldY - newY) == 2 then MarkDoubleStep(b1, newX, newY)
    else if newX - oldX == 0 then b1
    else
      var next := GetPiece(b1, newX, oldY);
      if CapturableByPass(next) then RemovePiece(b1, next.value) else b1
  }

  /** The request movePiece refuses: a square off the board, no displacement, or nothing to move. */
  predicate Ignored(b: Cells, oldX: int, oldY: int, newX: int, newY: int)
  {
    || !InsideBoard(oldX, oldY)
    || !InsideBoard(newX, newY)
    || (oldX == newX && oldY == newY)
    || GetPiece(b, oldX, oldY).None?
  }

  /** Lines 106-108 of movePiece: take the piece off its square and put it on the new one. */
  function Relocate(b: Cells, p: Piece, newX: int, newY: int): Cells
  {
    AddPiece(RemovePiece(b, p), SetPosition(p, newX, newY))
  }

  /**
   * movePiece: relocate, sweep the pawn counters, then the side effects of the moved kind:
   * castling for a king, en passant and the double-step flag for a pawn, the moved flag for
   * a rook.
   */
  function MovePiece(b: Cells, oldX: int, oldY: int, newX: int, newY: int): Cells
  {
    if Ignored(b, oldX, oldY, newX, newY) then b
    else
      var p := GetPiece(b, oldX, oldY).value;
      var b1 := SweepPawns(Relocate(b, p, newX, newY));
      match p.kind
      case King => CheckCastling(b1, oldX, oldY, newX, newY)
      case Pawn => CheckEatenByPass(b1, oldX, oldY, newX, newY)
      case Rook => MarkMoved(b1, newX, newY)
      case _ => b1
  }

  // ---------------------------------------------------------------------------------------
  // The starting position of setDefaultBoard
  // ---------------------------------------------------------------------------------------

  /** The back-rank kinds from x = 0 to x = 7. */
  function BackRank(x: Coord): Kind
  {
    if x == 0 || x == 7 then Rook
    else if x == 1 || x == 6 then Knight
    else if x == 2 || x == 5 then Bishop
    else if x == 3 then Queen
    else King
  }

  /** The kind setDefaultBoard puts on (x, y) of a filled rank. */
  function HomeKind(x: Coord, y: Coord): Kind
  {
    if y == 1 || y == 6 then Pawn else BackRank(x)
  }

  /**
   * What setDefaultBoard puts on (x, y): an unmoved piece, white on ranks 0 and 1, black on
   * ranks 6 and 7. BoardFacts.HomeIsInitial shows it is the piece the source's constructor call
   * for that square builds.
   */
  function HomePiece(x: Coord, y: Coord): Option<Piece>
  {
    if 2 <= y <= 5 then None
    else Some(Piece(HomeKind(x, y), if y <= 1 then White else Black, x, y, false, false, 0))
  }

  function DefaultBoard(): Cells
  {
    seq(64, k requires 0 <= k < 64 => HomePiece(XOf(k), YOf(k)))
  }
}
