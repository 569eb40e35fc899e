/**
 * The value side of a chess piece: colour, kind, square and the per-kind flags that the
 * special rules need (moved-flag for castling, double-step memory for en passant).
 *
 * The Java source has one class per kind (Pawn, King, Rook, Bishop, Knight, Queen) over a
 * base class Piece whose virtual getters and setters are overridden only where a kind keeps
 * the corresponding field. Here a piece is one value with a `kind` tag, and every virtual
 * accessor is a function that dispatches on that tag. Fields that a kind does not have are
 * kept at their defaults (see WellFormed).
 */
module Pieces {

  datatype Option<T> = None | Some(value: T)

  datatype Color = White | Black

  function Opposite(c: Color): (r: Color)
    ensures r != c
  {
    if c == White then Black else White
  }

  /** Board.LOW_LIMIT and Board.HIGH_LIMIT. */
  const LowLimit: int := 0
  const HighLimit: int := 7

  /** Board.positionInsideBoard. */
  predicate InsideBoard(x: int, y: int)
  {
    LowLimit <= x <= HighLimit && LowLimit <= y <= HighLimit
  }

  /** A coordinate a piece can hold: setPosition never stores one outside the board. */
  type Coord = i: int | 0 <= i <= 7

  /** A destination square as the generators return it (an int[2] in the source). */
  datatype Pos = Pos(x: int, y: int)

  /** EnumPieces; NoKind is the NONE that the base class reports. */
  datatype Kind = NoKind | Pawn | Knight | Bishop | Rook | Queen | King

  datatype Piece = Piece(kind: Kind, color: Color, x: Coord, y: Coord,
                         moved: bool, doubleBox: bool, movesSinceDB: nat)

  /** Only a pawn has doubleBox and movesSinceDB; only pawns, kings and rooks have a moved field. */
  predicate WellFormed(p: Piece)
  {
    && (p.kind != Pawn ==> !p.doubleBox && p.movesSinceDB == 0)
    && (p.kind != Pawn && p.kind != King && p.kind != Rook ==> !p.moved)
  }

  /** Kinds that keep a hasBeenMoved field of their own. */
  predicate KeepsMovedFlag(k: Kind)
  {
    k == Pawn || k == King || k == Rook
  }

  // ---------------------------------------------------------------------------------------
  // Virtual accessors of Piece and their overrides
  // ---------------------------------------------------------------------------------------

  /**
   * getHasBeenMoved: Pawn and Rook override it; every other kind, the King included,
   * inherits the base answer `true`.
   */
  function HasBeenMoved(p: Piece): (r: bool)
    ensures p.kind != Pawn && p.kind != Rook ==> r
  {
    if p.kind == Pawn || p.kind == Rook then p.moved else true
  }

  /** setHasBeenMoved: sets the flag of pawns, kings and rooks; a no-op for the others. */
  function SetHasBeenMoved(p: Piece): (r: Piece)
    ensures r.kind == p.kind && r.color == p.color && r.x == p.x && r.y == p.y
    ensures r.doubleBox == p.doubleBox && r.movesSinceDB == p.movesSinceDB
    ensures r.moved == (p.moved || KeepsMovedFlag(p.kind))
    ensures WellFormed(p) ==> WellFormed(r)
  {
    if KeepsMovedFlag(p.kind) then p.(moved := true) else p
  }

  /** getDoubleBox: only a pawn can report a double step. */
  function DoubleBox(p: Piece): (r: bool)
    ensures r ==> p.kind == Pawn
  {
    p.kind == Pawn && p.doubleBox
  }

  /** setDoubleBox: sets the pawn's flag; a no-op for the other kinds. */
  function SetDoubleBox(p: Piece): (r: Piece)
    ensures r.kind == p.kind && r.color == p.color && r.x == p.x && r.y == p.y
    ensures r.moved == p.moved && r.movesSinceDB == p.movesSinceDB
    ensures r.doubleBox == (p.doubleBox || p.kind == Pawn)
    ensures WellFormed(p) ==> WellFormed(r)
  {
    if p.kind == Pawn then p.(doubleBox := true) else p
  }

  /** getMovesSinceDB: 0 for every kind but the pawn. */
  function MovesSinceDB(p: Piece): (r: nat)
    ensures p.kind != Pawn ==> r == 0
  {
    if p.kind == Pawn then p.movesSinceDB else 0
  }

  /** addMoveSinceDB: a pawn counts plies only once it has double-stepped. */
  function AddMoveSinceDB(p: Piece): (r: Piece)
    ensures r.kind == p.kind && r.color == p.color && r.x == p.x && r.y == p.y
    ensures r.moved == p.moved && r.doubleBox == p.doubleBox
    ensures r.movesSinceDB == if DoubleBox(p) then p.movesSinceDB + 1 else p.movesSinceDB
    ensures WellFormed(p) ==> WellFormed(r)
  {
    if p.kind == Pawn && p.doubleBox then p.(movesSinceDB := p.movesSinceDB + 1) else p
  }

  /** setPosition: the square changes only when the target is on the board. */
  function SetPosition(p: Piece, x: int, y: int): (r: Piece)
    ensures r.kind == p.kind && r.color == p.color
    ensures r.moved == p.moved && r.doubleBox == p.doubleBox && r.movesSinceDB == p.movesSinceDB
    ensures InsideBoard(x, y) ==> r.x == x && r.y == y
    ensures !InsideBoard(x, y) ==> r == p
    ensures WellFormed(p) ==> WellFormed(r)
  {
    if InsideBoard(x, y) then p.(x := x, y := y) else p
  }

  /**
   * clone of each kind. Pawn.clone goes through the six-argument constructor, which keeps
   * hasBeenMoved and doubleBox but never assigns movesSinceDB, so the copy counts from 0.
   * King and Rook keep hasBeenMoved; the other kinds copy square and colour only.
   */
  function Clone(p: Piece): (r: Piece)
    ensures r.kind == p.kind && r.color == p.color && r.x == p.x && r.y == p.y
    ensures KeepsMovedFlag(p.kind) ==> r.moved == p.moved
    ensures DoubleBox(r) == DoubleBox(p) && HasBeenMoved(r) == HasBeenMoved(p)
    ensures MovesSinceDB(r) == 0
    ensures WellFormed(r)
  {
    match p.kind
    case Pawn => Piece(Pawn, p.color, p.x, p.y, p.moved, p.doubleBox, 0)
    case King => Piece(King, p.color, p.x, p.y, p.moved, false, 0)
    case Rook => Piece(Rook, p.color, p.x, p.y, p.moved, false, 0)
    case _ => Piece(p.kind, p.color, p.x, p.y, false, false, 0)
  }

  /** On a well-formed piece, cloning loses nothing but the pawn's ply counter. */
  lemma CloneOfWellFormed(p: Piece)
    requires WellFormed(p)
    ensures Clone(p) == p.(movesSinceDB := 0)
    ensures Clone(p) == p <==> p.movesSinceDB == 0
  {
  }

  // ---------------------------------------------------------------------------------------
  // Constructors
  // ---------------------------------------------------------------------------------------

  /**
   * The Piece(x, y, color) constructor: the square starts at (0, 0) and is set through
   * setPosition, so a square off the board leaves the piece on (0, 0). The per-kind
   * constructors with explicit flags (King and Rook with hasBeenMoved, Pawn with
   * hasBeenMoved and doubleBox) pass them on; the pawn's movesSinceDB argument is ignored.
   */
  function Make(kind: Kind, x: int, y: int, color: Color, moved: bool, doubleBox: bool): (r: Piece)
    ensures r.kind == kind && r.color == color && r.movesSinceDB == 0
    ensures InsideBoard(x, y) ==> r.x == x && r.y == y
    ensures !InsideBoard(x, y) ==> r.x == 0 && r.y == 0
  {
    var flags := Piece(kind, color, 0, 0, moved && KeepsMovedFlag(kind), doubleBox && kind == Pawn, 0);
    SetPosition(flags, x, y)
  }

  /** The rank a kind's two-argument constructor puts it on. */
  function HomeRank(kind: Kind, color: Color): Coord
  {
    if kind == Pawn then (if color == White then LowLimit + 1 else HighLimit - 1)
    else (if color == White then LowLimit else HighLimit)
  }

  /** The two-argument constructors Pawn(x, color), Rook(x, color), ...: unmoved, on the home rank. */
  function Initial(kind: Kind, x: int, color: Color): (r: Piece)
    ensures WellFormed(r) && !r.moved && !r.doubleBox
  {
    Make(kind, x, HomeRank(kind, color), color, false, false)
  }

  /** What a two-argument constructor builds for a column on the board. */
  lemma InitialValue(kind: Kind, x: int, color: Color)
    requires 0 <= x <= 7
    ensures Initial(kind, x, color) == Piece(kind, color, x, HomeRank(kind, color), false, false, 0)
  {
  }

  /** The direction a pawn of the colour walks: +1 for white, -1 for black. */
  function Forward(c: Color): (r: int)
    ensures r == 1 || r == -1
  {
    if c == White then 1 else -1
  }

  /**
   * White pawns start on y = 1 and walk up, black pawns start on y = 6 and walk down; every
   * other freshly constructed piece (the queen included) starts on y = 0 or y = 7.
   */
  lemma HomeSquares(kind: Kind, x: int, color: Color)
    requires 0 <= x <= 7
    ensures Initial(kind, x, color).x == x
    ensures kind == Pawn ==> Initial(kind, x, color).y == (if color == White then 1 else 6)
    ensures kind != Pawn ==> Initial(kind, x, color).y == (if color == White then 0 else 7)
    ensures kind == Pawn ==> InsideBoard(x, Initial(kind, x, color).y + 6 * Forward(color))
  {
  }
}
