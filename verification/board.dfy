/**
 * The Othello board: an 8x8 grid of tri-state cells (othello/gamelogic/BoardSpace.java,
 * othello/gamelogic/OthelloGame.java).  A cell is identified by its coordinates only.
 */
module Board {

  /** OthelloGame.GAME_BOARD_SIZE */
  const Size: int := 8

  datatype SpaceType = Empty | Black | White

  /** A position on the board; the identity of a BoardSpace. */
  datatype Coord = Coord(x: int, y: int)

  /** A BoardSpace object: final coordinates plus a mutable type. */
  datatype BoardSpace = BoardSpace(x: int, y: int, kind: SpaceType)
  {
    function Pos(): Coord { Coord(x, y) }
  }

  /** BoardSpace.equals: two spaces are equal when their coordinates agree; the type is ignored. */
  predicate SpaceEquals(a: BoardSpace, b: BoardSpace)
  {
    a.x == b.x && a.y == b.y
  }

  /** Two's-complement 32-bit wrap-around of Java `int` arithmetic. */
  function Wrap32(n: int): (r: int)
    ensures -0x8000_0000 <= r < 0x8000_0000
    ensures (r - n) % 0x1_0000_0000 == 0
  {
    var m := n % 0x1_0000_0000;
    if m < 0x8000_0000 then m else m - 0x1_0000_0000
  }

  /** BoardSpace.hashCode, i.e. Objects.hash(x, y) = 31 * (31 * 1 + x) + y in `int` arithmetic. */
  function HashCode(s: BoardSpace): int
  {
    Wrap32(31 * Wrap32(31 + s.x) + s.y)
  }

  /** Coordinates are final: setType only changes the type. */
  function SetType(s: BoardSpace, t: SpaceType): (r: BoardSpace)
    ensures SpaceEquals(r, s) && r.kind == t
  {
    s.(kind := t)
  }

  /** An 8x8 grid of cell types; board[x][y] is the BoardSpace at (x, y). */
  type Grid = b: seq<seq<SpaceType>> | |b| == Size && forall i | 0 <= i < |b| :: |b[i]| == Size
    witness EmptyGrid()

  function EmptyGrid(): seq<seq<SpaceType>>
  {
    seq(Size, _ => seq(Size, _ => Empty))
  }

  /** OthelloGame.inBounds */
  predicate InBounds(row: int, col: int)
  {
    0 <= row < Size && 0 <= col < Size
  }

  function Cell(b: Grid, x: int, y: int): SpaceType
    requires InBounds(x, y)
  {
    b[x][y]
  }

  /** The BoardSpace object stored at (x, y). */
  function SpaceAt(b: Grid, x: int, y: int): (s: BoardSpace)
    requires InBounds(x, y)
    ensures s.Pos() == Coord(x, y) && s.kind == Cell(b, x, y)
  {
    BoardSpace(x, y, b[x][y])
  }

  function SetCell(b: Grid, x: int, y: int, t: SpaceType): (r: Grid)
    requires InBounds(x, y)
    ensures Cell(r, x, y) == t
    ensures forall i, j | InBounds(i, j) && (i, j) != (x, y) :: Cell(r, i, j) == Cell(b, i, j)
  {
    b[x := b[x][y := t]]
  }

  /** The colour a player of colour `c` plays against: WHITE for BLACK, BLACK for anything else. */
  function Opponent(c: SpaceType): (r: SpaceType)
    ensures r != c && r != Empty
  {
    if c == Black then White else Black
  }

  /** The direction tables dx/dy shared by Player.getAvailableMoves and OthelloGame.takeSpaces. */
  function DX(d: int): int
  {
    if d == 0 || d == 1 || d == 2 then -1
    else if d == 3 || d == 4 then 0
    else 1
  }

  function DY(d: int): int
  {
    if d == 0 || d == 3 || d == 5 then -1
    else if d == 1 || d == 6 then 0
    else 1
  }

  predicate IsDirection(d: int) { 0 <= d < 8 }

  /** `a` moved `n` steps along a unit component `s` in {-1, 0, 1}. */
  function Offset(a: int, s: int, n: int): int
  {
    if s > 0 then a + n else if s < 0 then a - n else a
  }

  /** The cell `k` steps from (x, y) in direction `d`. */
  function RayPos(x: int, y: int, d: int, k: int): Coord
  {
    Coord(Offset(x, DX(d), k), Offset(y, DY(d), k))
  }

  /** Integer.signum */
  function Sign(n: int): int
  {
    if n > 0 then 1 else if n < 0 then -1 else 0
  }

  function Abs(n: int): nat
  {
    if n < 0 then -n else n
  }

  /** The number of king steps between two cells. */
  function Cheb(a: Coord, b: Coord): nat
  {
    var dx := Abs(a.x - b.x);
    var dy := Abs(a.y - b.y);
    if dx < dy then dy else dx
  }

  lemma DirectionsNonZero(d: int)
    requires IsDirection(d)
    ensures DX(d) != 0 || DY(d) != 0
    ensures -1 <= DX(d) <= 1 && -1 <= DY(d) <= 1
  {
  }

  /** Equality of BoardSpace objects is exactly equality of their coordinates. */
  lemma SpaceEqualsIsCoordEquality(a: BoardSpace, b: BoardSpace)
    ensures SpaceEquals(a, b) <==> a.Pos() == b.Pos()
  {
  }

  /** hashCode is consistent with equals. */
  lemma HashConsistentWithEquals(a: BoardSpace, b: BoardSpace)
    requires SpaceEquals(a, b)
    ensures HashCode(a) == HashCode(b)
  {
  }

  /** On board coordinates the hash is exact: 961 + 31 x + y, with no wrap-around. */
  lemma HashOnBoard(s: BoardSpace)
    requires InBounds(s.x, s.y)
    ensures HashCode(s) == 961 + 31 * s.x + s.y
  {
  }
}
