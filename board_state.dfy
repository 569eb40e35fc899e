/**
 * chess/board/Board.java as the class it is: the 8x8 array board[y][x] that every method
 * updates in place. The ghost field `cells` is the array read in the row-major order of the
 * source's loops, and every method is proved against the value model of module Boards.
 */
module BoardState {
  import opened Pieces
  import opened Boards
  import BoardFacts

  /** The squares setDefaultBoard has filled once `colours` passes of its colour loop are done. */
  predicate ColoursDone(colours: nat, x: Coord, y: Coord)
  {
    || (colours >= 1 && (y == 1 || (y == 0 && x != 3 && x != 4)))
    || (colours >= 2 && (y == 6 || (y == 7 && x != 3 && x != 4)))
  }

  /** The columns of the six back-rank pieces, in the order the colour loop adds them. */
  function BackColumn(n: nat): Coord
    requires n < 6
  {
    if n == 0 then 0 else if n == 1 then 7 else if n == 2 then 1
    else if n == 3 then 6 else if n == 4 then 2 else 5
  }

  /** The first `backs` of them. */
  predicate BackPlaced(backs: nat, x: Coord)
  {
    || (x == 0 && backs >= 1) || (x == 7 && backs >= 2) || (x == 1 && backs >= 3)
    || (x == 6 && backs >= 4) || (x == 2 && backs >= 5) || (x == 5 && backs >= 6)
  }

  /** The queens and kings added after the loop, in order. */
  const RoyalSquares: seq<Pos> := [Pos(3, 0), Pos(4, 0), Pos(3, 7), Pos(4, 7)]

  /** The first `royals` of them. */
  predicate RoyalPlaced(royals: nat, x: Coord, y: Coord)
  {
    || (x == 3 && y == 0 && royals >= 1) || (x == 4 && y == 0 && royals >= 2)
    || (x == 3 && y == 7 && royals >= 3) || (x == 4 && y == 7 && royals >= 4)
  }
  const RoyalPieces: seq<Piece> :=
    [Initial(Queen, 3, White), Initial(King, 4, White), Initial(Queen, 3, Black), Initial(King, 4, Black)]

  /**
   * The squares filled after `colours` whole passes, then, in the next pass, `pawns` pawns
   * and `backs` back-rank pieces, then `royals` of the four queens and kings.
   */
  predicate SetUp(colours: nat, pawns: nat, backs: nat, royals: nat, x: Coord, y: Coord)
    requires backs <= 6 && royals <= 4
  {
    || ColoursDone(colours, x, y)
    || (colours < 2 && y == (if colours == 0 then 1 else 6) && x < pawns)
    || (colours < 2 && y == BackRankY(colours) && BackPlaced(backs, x))
    || RoyalPlaced(royals, x, y)
  }

  /** The whole board setDefaultBoard has built at that point. */
  function Stage(colours: nat, pawns: nat, backs: nat, royals: nat): Cells
    requires backs <= 6 && royals <= 4
  {
    seq(64, k requires 0 <= k < 64 => StageCell(colours, pawns, backs, royals, k))
  }

  function StageCell(colours: nat, pawns: nat, backs: nat, royals: nat, k: nat): Option<Piece>
    requires backs <= 6 && royals <= 4 && k < 64
  {
    if SetUp(colours, pawns, backs, royals, XOf(k), YOf(k)) then HomePiece(XOf(k), YOf(k)) else None
  }

  /** Replacing one cell of s gives t when t differs from s there only. */
  lemma UpdateTo(s: Cells, t: Cells, k0: nat, v: Option<Piece>)
    requires k0 < 64 && t[k0] == v
    requires forall k :: 0 <= k < 64 && k != k0 ==> t[k] == s[k]
    ensures s[k0 := v] == t
  {
  }

  lemma AddHome(b: Cells, x: Coord, y: Coord, p: Piece)
    requires HomePiece(x, y) == Some(p)
    ensures AddPiece(b, p) == b[Idx(x, y) := Some(p)]
  {
  }

  lemma PawnStage(colours: nat, pawns: nat, color: Color)
    requires colours < 2 && pawns < 8 && color == (if colours == 0 then White else Black)
    ensures AddPiece(Stage(colours, pawns, 0, 0), Initial(Pawn, pawns, color)) == Stage(colours, pawns + 1, 0, 0)
  {
    var y := if colours == 0 then 1 else 6;
    var b := Stage(colours, pawns, 0, 0);
    var next := Stage(colours, pawns + 1, 0, 0);
    InitialValue(Pawn, pawns, color);
    AddHome(b, pawns, y, Initial(Pawn, pawns, color));
    forall k | 0 <= k < 64 && k != Idx(pawns, y)
      ensures next[k] == b[k]
    {
      IdxOfXY(k);
    }
    XYOfIdx(pawns, y);
    UpdateTo(b, next, Idx(pawns, y), Some(Initial(Pawn, pawns, color)));
  }

  function BackRankY(colours: nat): Coord
  {
    if colours == 0 then 0 else 7
  }

  /** Adding the next back-rank piece changes the stage on its own square only. */
  lemma BackStageOthers(colours: nat, backs: nat)
    requires colours < 2 && backs < 6
    ensures forall k :: 0 <= k < 64 && k != Idx(BackColumn(backs), BackRankY(colours)) ==>
              Stage(colours, 8, backs + 1, 0)[k] == Stage(colours, 8, backs, 0)[k]
  {
    forall k | 0 <= k < 64 && k != Idx(BackColumn(backs), BackRankY(colours))
      ensures Stage(colours, 8, backs + 1, 0)[k] == Stage(colours, 8, backs, 0)[k]
    {
      IdxOfXY(k);
      BackPlacedStep(backs, XOf(k));
      assert SetUp(colours, 8, backs + 1, 0, XOf(k), YOf(k)) == SetUp(colours, 8, backs, 0, XOf(k), YOf(k));
    }
  }

  /** The next back-rank piece is placed on BackColumn(backs) and nowhere else. */
  lemma BackPlacedStep(backs: nat, x: Coord)
    requires backs < 6
    ensures BackPlaced(backs + 1, x) <==> BackPlaced(backs, x) || x == BackColumn(backs)
  {
  }

  lemma BackStage(colours: nat, backs: nat, color: Color, kind: Kind, x: Coord)
    requires colours < 2 && backs < 6 && color == (if colours == 0 then White else Black)
    requires x == BackColumn(backs) && kind == BackRank(x)
    ensures AddPiece(Stage(colours, 8, backs, 0), Initial(kind, x, color)) == Stage(colours, 8, backs + 1, 0)
  {
    var y := BackRankY(colours);
    var p := Initial(kind, x, color);
    var b := Stage(colours, 8, backs, 0);
    var next := Stage(colours, 8, backs + 1, 0);
    assert HomePiece(x, y) == Some(p) by {
      InitialValue(kind, x, color);
    }
    assert AddPiece(b, p) == b[Idx(x, y) := Some(p)];
    assert next[Idx(x, y)] == Some(p) by {
      StageAt(colours, 8, backs + 1, 0, x, y);
      assert BackPlaced(backs + 1, x);
    }
    BackStageOthers(colours, backs);
    UpdateTo(b, next, Idx(x, y), Some(p));
  }

  /** Adding the next queen or king changes the stage on its own square only. */
  lemma RoyalStageOthers(royals: nat)
    requires royals < 4
    ensures forall k :: 0 <= k < 64 && k != Idx(RoyalSquares[royals].x, RoyalSquares[royals].y) ==>
              Stage(2, 0, 0, royals + 1)[k] == Stage(2, 0, 0, royals)[k]
  {
    forall k | 0 <= k < 64 && k != Idx(RoyalSquares[royals].x, RoyalSquares[royals].y)
      ensures Stage(2, 0, 0, royals + 1)[k] == Stage(2, 0, 0, royals)[k]
    {
      IdxOfXY(k);
    }
  }

  lemma RoyalHome(royals: nat)
    requires royals < 4
    ensures HomePiece(RoyalSquares[royals].x, RoyalSquares[royals].y) == Some(RoyalPieces[royals])
  {
    InitialValue(Queen, 3, White);
    InitialValue(King, 4, White);
    InitialValue(Queen, 3, Black);
    InitialValue(King, 4, Black);
  }

  lemma RoyalStage(royals: nat)
    requires royals < 4
    ensures AddPiece(Stage(2, 0, 0, royals), RoyalPieces[royals]) == Stage(2, 0, 0, royals + 1)
  {
    var sq := RoyalSquares[royals];
    RoyalHome(royals);
    AddHome(Stage(2, 0, 0, royals), sq.x, sq.y, RoyalPieces[royals]);
    RoyalStageOthers(royals);
    XYOfIdx(sq.x, sq.y);
    UpdateTo(Stage(2, 0, 0, royals), Stage(2, 0, 0, royals + 1), Idx(sq.x, sq.y), Some(RoyalPieces[royals]));
  }

  /** The stage read at a square. */
  lemma StageAt(colours: nat, pawns: nat, backs: nat, royals: nat, x: Coord, y: Coord)
    requires backs <= 6 && royals <= 4
    ensures Stage(colours, pawns, backs, royals)[Idx(x, y)] ==
            if SetUp(colours, pawns, backs, royals, x, y) then HomePiece(x, y) else None
  {
    XYOfIdx(x, y);
  }

  lemma EmptyStage()
    ensures Stage(0, 0, 0, 0) == Empty
  {
  }

  lemma PassStage(colours: nat)
    requires colours < 2
    ensures Stage(colours, 8, 6, 0) == Stage(colours + 1, 0, 0, 0)
  {
  }

  lemma FullStage()
    ensures Stage(2, 0, 0, 4) == DefaultBoard()
  {
  }

  class Board {
    /** board[y][x]. */
    const grid: array2<Option<Piece>>

    /** The board as a value: cell Idx(x, y) = 8 * y + x holds board[y][x]. */
    ghost var cells: Cells

    ghost predicate Valid()
      reads this, grid
    {
      && grid.Length0 == 8 && grid.Length1 == 8
      && forall y: Coord, x: Coord :: grid[y, x] == cells[Idx(x, y)]
    }

    /** new Board(): every square empty. */
    constructor()
      ensures Valid() && fresh(grid)
      ensures cells == Empty
    {
      grid := new Option<Piece>[8, 8]((y, x) => None);
      cells := Empty;
    }

    /** The assignment board[y][x] = v. */
    method SetCell(x: Coord, y: Coord, v: Option<Piece>)
      requires Valid()
      modifies this, grid
      ensures Valid() && cells == old(cells)[Idx(x, y) := v]
    {
      grid[y, x] := v;
      cells := cells[Idx(x, y) := v];
      forall y': Coord, x': Coord
        ensures grid[y', x'] == cells[Idx(x', y')]
      {
        XYOfIdx(x, y);
        XYOfIdx(x', y');
      }
    }

    /** clear: both loops empty every square. */
    method Clear()
      requires Valid()
      modifies this, grid
      ensures Valid() && cells == Empty
    {
      for y := 0 to 8
        invariant Valid()
        invariant forall k :: 0 <= k < 8 * y ==> cells[k] == None
      {
        for x := 0 to 8
          invariant Valid()
          invariant forall k :: 0 <= k < 8 * y + x ==> cells[k] == None
        {
          SetCell(x, y, None);
        }
      }
    }

    /** addPiece. */
    method AddPiece(p: Piece)
      requires Valid()
      modifies this, grid
      ensures Valid() && cells == Boards.AddPiece(old(cells), p)
    {
      if InsideBoard(p.x, p.y) {
        SetCell(p.x, p.y, Some(p));
      }
    }

    /** getPiece. */
    method GetPiece(x: int, y: int) returns (piece: Option<Piece>)
      requires Valid()
      ensures piece == Boards.GetPiece(cells, x, y)
    {
      piece := None;
      if InsideBoard(x, y) {
        piece := grid[y, x];
      }
    }

    /** removePiece. */
    method RemovePiece(p: Piece)
      requires Valid()
      modifies this, grid
      ensures Valid() && cells == Boards.RemovePiece(old(cells), p)
    {
      if InsideBoard(p.x, p.y) {
        SetCell(p.x, p.y, None);
      }
    }

    /**
     * getKing: the first king of the colour in the row-major scan, or else whatever the
     * scan read last, the square (7, 7).
     */
    method GetKing(c: Color) returns (king: Option<Piece>)
      requires Valid()
      ensures king == Boards.GetKing(cells, c)
    {
      var piece: Option<Piece> := None;
      for y := 0 to 8
        invariant NoKingIn(cells, c, 0, 8 * y)
        invariant y > 0 ==> piece == cells[8 * y - 1]
      {
        for x := 0 to 8
          invariant NoKingIn(cells, c, 0, 8 * y + x)
          invariant 8 * y + x > 0 ==> piece == cells[8 * y + x - 1]
        {
          piece := grid[y, x];
          if piece.None? {
            continue;
          }
          if piece.value.kind == King && piece.value.color == c {
            BoardFacts.GetKingAt(cells, c, 8 * y + x);
            return piece;
          }
        }
      }
      KingScanFinds(cells, c, 0);
      return piece;
    }

    /** cloneBoard: a fresh board holding a clone of every piece; this board is untouched. */
    method CloneBoard() returns (copy: Board)
      requires Valid()
      ensures fresh(copy) && fresh(copy.grid) && copy.Valid()
      ensures copy.cells == Boards.CloneBoard(cells)
    {
      copy := new Board();
      for y := 0 to 8
        invariant fresh(copy) && fresh(copy.grid) && copy.Valid()
        invariant forall k :: 0 <= k < 8 * y ==> copy.cells[k] == CloneCell(cells[k])
      {
        for x := 0 to 8
          invariant fresh(copy) && fresh(copy.grid) && copy.Valid()
          invariant forall k :: 0 <= k < 8 * y + x ==> copy.cells[k] == CloneCell(cells[k])
        {
          var cell := grid[y, x];
          copy.SetCell(x, y, if cell.None? then None else Some(Clone(cell.value)));
        }
      }
    }

    /** setHasBeenMoved on the piece standing on (x, y). */
    method MarkMoved(x: Coord, y: Coord)
      requires Valid()
      modifies this, grid
      ensures Valid() && cells == Boards.MarkMoved(old(cells), x, y)
    {
      var piece := GetPiece(x, y);
      if piece.Some? {
        SetCell(x, y, Some(SetHasBeenMoved(piece.value)));
      }
    }

    /** setDoubleBox on the piece standing on (x, y). */
    method MarkDoubleStep(x: Coord, y: Coord)
      requires Valid()
      modifies this, grid
      ensures Valid() && cells == Boards.MarkDoubleStep(old(cells), x, y)
    {
      var piece := GetPiece(x, y);
      if piece.Some? {
        SetCell(x, y, Some(SetDoubleBox(piece.value)));
      }
    }

    /** The loop of movePiece that calls addMoveSinceDB on every pawn. */
    method SweepPawns()
      requires Valid()
      modifies this, grid
      ensures Valid() && cells == Boards.SweepPawns(old(cells))
    {
      for y := 0 to 8
        invariant Valid()
        invariant forall k :: 0 <= k < 8 * y ==> cells[k] == SweepCell(old(cells)[k])
        invariant forall k :: 8 * y <= k < 64 ==> cells[k] == old(cells)[k]
      {
        for x := 0 to 8
          invariant Valid()
          invariant forall k :: 0 <= k < 8 * y + x ==> cells[k] == SweepCell(old(cells)[k])
          invariant forall k :: 8 * y + x <= k < 64 ==> cells[k] == old(cells)[k]
        {
          var piece := GetPiece(x, y);
          if piece.None? {
            continue;
          }
          if piece.value.kind == Pawn {
            SetCell(x, y, Some(AddMoveSinceDB(piece.value)));
          }
        }
      }
    }

    /** checkCastling. */
    method CheckCastling(oldX: Coord, oldY: Coord, newX: Coord, newY: Coord)
      requires Valid()
      modifies this, grid
      ensures Valid() && cells == Boards.CheckCastling(old(cells), oldX, oldY, newX, newY)
    {
      MarkMoved(newX, newY);
      if Abs(oldX - newX) == 1 || Abs(oldY - newY) == 1 {
        return;
      }
      var oldXRook: Coord := if newX < HighLimit / 2 then LowLimit else HighLimit;
      var dxRook := if newX < HighLimit / 2 then 1 else -1;
      var rook := GetPiece(oldXRook, oldY);
      if rook.None? {
        return;
      }
      RemovePiece(rook.value);
      AddPiece(SetPosition(rook.value, newX + dxRook, newY));
    }

    /** checkEatenByPass. */
    method CheckEatenByPass(oldX: Coord, oldY: Coord, newX: Coord, newY: Coord)
      requires Valid()
      modifies this, grid
      ensures Valid() && cells == Boards.CheckEatenByPass(old(cells), oldX, oldY, newX, newY)
    {
      MarkMoved(newX, newY);
      if Abs(oldY - newY) == 2 {
        MarkDoubleStep(newX, newY);
        return;
      }
      if newX - oldX == 0 {
        return;
      }
      var next := GetPiece(newX, oldY);
      if next.None? {
        return;
      }
      if next.value.kind == Pawn && MovesSinceDB(next.value) == 1 && DoubleBox(next.value) {
        RemovePiece(next.value);
      }
    }

    /** movePiece. */
    method MovePiece(oldX: int, oldY: int, newX: int, newY: int)
      requires Valid()
      modifies this, grid
      ensures Valid() && cells == Boards.MovePiece(old(cells), oldX, oldY, newX, newY)
    {
      var toChange := GetPiece(oldX, oldY);
      if !InsideBoard(oldX, oldY) {
        return;
      }
      if !InsideBoard(newX, newY) {
        return;
      }
      if oldX == newX && oldY == newY {
        return;
      }
      if toChange.None? {
        return;
      }
      var p := toChange.value;
      RemovePiece(p);
      p := SetPosition(p, newX, newY);
      AddPiece(p);
      SweepPawns();
      assert cells == Boards.SweepPawns(Relocate(old(cells), toChange.value, newX, newY));
      if p.kind == King {
        CheckCastling(oldX, oldY, newX, newY);
      } else if p.kind == Pawn {
        CheckEatenByPass(oldX, oldY, newX, newY);
      } else if p.kind == Rook {
        MarkMoved(newX, newY);
      }
    }

    /** One pass of the colour loop of setDefaultBoard: the pawns, then the six back-rank pieces. */
    method PlaceColour(i: nat, color: Color)
      requires Valid() && i < 2 && color == (if i == 0 then White else Black)
      requires cells == Stage(i, 0, 0, 0)
      modifies this, grid
      ensures Valid() && cells == Stage(i + 1, 0, 0, 0)
    {
      for j := 0 to 8
        invariant Valid() && cells == Stage(i, j, 0, 0)
      {
        PawnStage(i, j, color);
        AddPiece(Initial(Pawn, LowLimit + j, color));
      }
      AddBackPiece(Rook, LowLimit, color, i, 0);
      AddBackPiece(Rook, HighLimit, color, i, 1);
      AddBackPiece(Knight, LowLimit + 1, color, i, 2);
      AddBackPiece(Knight, HighLimit - 1, color, i, 3);
      AddBackPiece(Bishop, LowLimit + 2, color, i, 4);
      AddBackPiece(Bishop, HighLimit - 2, color, i, 5);
      PassStage(i);
    }

    /** addPiece(new Kind(x, color)) for the next back-rank piece of the colour loop. */
    method AddBackPiece(kind: Kind, x: Coord, color: Color, ghost i: nat, ghost backs: nat)
      requires Valid() && i < 2 && backs < 6 && color == (if i == 0 then White else Black)
      requires x == BackColumn(backs) && kind == BackRank(x)
      requires cells == Stage(i, 8, backs, 0)
      modifies this, grid
      ensures Valid() && cells == Stage(i, 8, backs + 1, 0)
    {
      BackStage(i, backs, color, kind, x);
      AddPiece(Initial(kind, x, color));
    }

    /** addPiece(new Kind(x, color)) for the next of the queens and kings added after the loop. */
    method AddRoyalPiece(kind: Kind, x: Coord, color: Color, ghost royals: nat)
      requires Valid() && royals < 4 && Initial(kind, x, color) == RoyalPieces[royals]
      requires cells == Stage(2, 0, 0, royals)
      modifies this, grid
      ensures Valid() && cells == Stage(2, 0, 0, royals + 1)
    {
      RoyalStage(royals);
      AddPiece(Initial(kind, x, color));
    }

    /** setDefaultBoard: the starting position. */
    method SetDefaultBoard()
      requires Valid()
      modifies this, grid
      ensures Valid() && cells == DefaultBoard()
    {
      var colors := [White, Black];
      Clear();
      EmptyStage();
      for i := 0 to |colors|
        invariant Valid() && cells == Stage(i, 0, 0, 0)
      {
        PlaceColour(i, colors[i]);
      }
      AddRoyalPiece(Queen, LowLimit + 3, White, 0);
      AddRoyalPiece(King, HighLimit - 3, White, 1);
      AddRoyalPiece(Queen, LowLimit + 3, Black, 2);
      AddRoyalPiece(King, HighLimit - 3, Black, 3);
      FullStage();
    }
  }
}
