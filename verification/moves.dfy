/**
 * Legal-move generation (othello/gamelogic/Player.java, getAvailableMoves).
 *
 * For every EMPTY cell, a ray is cast in each of the eight directions: a run of one or more
 * opponent cells followed by an in-bounds cell of the player's colour makes that cell an
 * origin.  A cell with at least one origin is a destination.  The result maps destinations
 * (keyed by coordinates, as BoardSpace.equals does) to their origins in direction order.
 */
module Moves {
  import opened Wrappers
  import opened Board

  /** The cell `m` steps from (x, y) along `d` is on the board and has type `c`. */
  predicate ColourAt(b: Grid, x: int, y: int, d: int, m: int, c: SpaceType)
  {
    var p := RayPos(x, y, d, m);
    InBounds(p.x, p.y) && Cell(b, p.x, p.y) == c
  }

  /**
   * The ray from (x, y) in direction `d` flanks a run: cells 1 .. k-1 are the opponent's
   * and cell k (k >= 2) is on the board and has colour `mine`.
   */
  predicate Flanks(b: Grid, x: int, y: int, d: int, k: int, mine: SpaceType)
  {
    && k >= 2
    && ColourAt(b, x, y, d, k, mine)
    && forall m :: 1 <= m < k ==> ColourAt(b, x, y, d, m, Opponent(mine))
  }

  /**
   * The inner while loop of getAvailableMoves: starting `k` steps out, skip cells of colour
   * `opp`; the result is the step count of the first cell that is off the board or not `opp`.
   */
  function RunEnd(b: Grid, x: int, y: int, d: int, opp: SpaceType, k: nat): (m: nat)
    requires InBounds(x, y) && IsDirection(d)
    decreases 8 - k
    ensures m >= k
    ensures forall n :: k <= n < m ==> ColourAt(b, x, y, d, n, opp)
    ensures !ColourAt(b, x, y, d, m, opp)
  {
    if ColourAt(b, x, y, d, k, opp) then RunEnd(b, x, y, d, opp, k + 1) else k
  }

  /** The origin contributed by direction `d` for destination (x, y), if any. */
  function DirOrigin(b: Grid, x: int, y: int, d: int, mine: SpaceType): Option<Coord>
    requires InBounds(x, y) && IsDirection(d)
  {
    var m := RunEnd(b, x, y, d, Opponent(mine), 1);
    var p := RayPos(x, y, d, m);
    if m > 1 && InBounds(p.x, p.y) && Cell(b, p.x, p.y) == mine then Some(p) else None
  }

  /** The origins list built by the direction loop, directions `d` .. 7 in table order. */
  function OriginsFrom(b: Grid, x: int, y: int, mine: SpaceType, d: nat): (r: seq<Coord>)
    requires InBounds(x, y) && d <= 8
    decreases 8 - d
    ensures |r| <= 8 - d
  {
    if d == 8 then []
    else
      var rest := OriginsFrom(b, x, y, mine, d + 1);
      match DirOrigin(b, x, y, d, mine)
      case Some(o) => [o] + rest
      case None => rest
  }

  function Origins(b: Grid, x: int, y: int, mine: SpaceType): seq<Coord>
    requires InBounds(x, y)
  {
    OriginsFrom(b, x, y, mine, 0)
  }

  /** A destination: an empty board cell with at least one origin. */
  predicate IsDestination(b: Grid, c: Coord, mine: SpaceType)
  {
    InBounds(c.x, c.y) && Cell(b, c.x, c.y) == Empty && Origins(b, c.x, c.y, mine) != []
  }

  /** Row-major index of a cell, the visiting order of the nested for loops. */
  function RowMajor(c: Coord): int
  {
    c.x * Size + c.y
  }

  /** The cell visited at step `n` of the nested loops (row x = n / 8, column y = n % 8). */
  function CellAt(n: nat): (c: Coord)
    requires n < Size * Size
    ensures InBounds(c.x, c.y) && RowMajor(c) == n
  {
    Coord(n / Size, n % Size)
  }

  /** Distinct board cells have distinct row-major indices. */
  lemma RowMajorInjective(c: Coord, e: Coord)
    requires InBounds(c.x, c.y) && InBounds(e.x, e.y) && RowMajor(c) == RowMajor(e)
    ensures c == e
  {
  }

  /** The moves map after the nested loops have visited the first `n` cells in row-major order. */
  function MovesUpTo(b: Grid, mine: SpaceType, n: nat): (r: map<Coord, seq<Coord>>)
    requires n <= Size * Size
    ensures forall c :: c in r <==> IsDestination(b, c, mine) && RowMajor(c) < n
    ensures forall c :: c in r ==> InBounds(c.x, c.y) && r[c] == Origins(b, c.x, c.y, mine)
  {
    if n == 0 then map[]
    else
      var prev := MovesUpTo(b, mine, n - 1);
      var c := CellAt(n - 1);
      var r := if IsDestination(b, c, mine) then prev[c := Origins(b, c.x, c.y, mine)] else prev;
      assert forall e :: IsDestination(b, e, mine) && RowMajor(e) == n - 1 ==> e == c by {
        forall e | IsDestination(b, e, mine) && RowMajor(e) == n - 1 {
          RowMajorInjective(e, c);
        }
      }
      r
  }

  /** Player.getAvailableMoves for a player of colour `mine`. */
  function AvailableMoves(b: Grid, mine: SpaceType): map<Coord, seq<Coord>>
  {
    MovesUpTo(b, mine, Size * Size)
  }

  // ----- Properties of a single ray -----

  /** The direction loop finds an origin exactly at the flanking cell. */
  lemma DirOriginSound(b: Grid, x: int, y: int, d: int, mine: SpaceType, o: Coord)
    requires InBounds(x, y) && IsDirection(d)
    requires DirOrigin(b, x, y, d, mine) == Some(o)
    ensures Flanks(b, x, y, d, RunEnd(b, x, y, d, Opponent(mine), 1), mine)
    ensures o == RayPos(x, y, d, RunEnd(b, x, y, d, Opponent(mine), 1))
  {
  }

  lemma DirOriginComplete(b: Grid, x: int, y: int, d: int, k: int, mine: SpaceType)
    requires InBounds(x, y) && IsDirection(d)
    requires Flanks(b, x, y, d, k, mine)
    ensures DirOrigin(b, x, y, d, mine) == Some(RayPos(x, y, d, k))
  {
  }

  /** Every origin of (x, y) is the flanking cell of some direction. */
  lemma {:induction false} OriginsFromSound(b: Grid, x: int, y: int, mine: SpaceType, d: nat, o: Coord)
    requires InBounds(x, y) && d <= 8
    requires o in OriginsFrom(b, x, y, mine, d)
    ensures exists e, k :: d <= e < 8 && Flanks(b, x, y, e, k, mine) && o == RayPos(x, y, e, k)
    decreases 8 - d
  {
    if d < 8 {
      match DirOrigin(b, x, y, d, mine)
      case Some(p) =>
        if o == p {
          DirOriginSound(b, x, y, d, mine, o);
        } else {
          OriginsFromSound(b, x, y, mine, d + 1, o);
        }
      case None =>
        OriginsFromSound(b, x, y, mine, d + 1, o);
    }
  }

  /** A flanking direction at or after `d` contributes its origin. */
  lemma {:induction false} OriginsFromComplete(b: Grid, x: int, y: int, mine: SpaceType, d: nat, e: int, k: int)
    requires InBounds(x, y) && d <= e < 8
    requires Flanks(b, x, y, e, k, mine)
    ensures RayPos(x, y, e, k) in OriginsFrom(b, x, y, mine, d)
    decreases 8 - d
  {
    if d == e {
      DirOriginComplete(b, x, y, e, k, mine);
    } else {
      OriginsFromComplete(b, x, y, mine, d + 1, e, k);
    }
  }

  // ----- Properties of the moves map (Player.getAvailableMoves) -----

  /**
   * A cell is a key of the moves map exactly when it is empty and, in at least one of the
   * eight directions, a run of opponent cells is closed by a cell of the player's colour.
   */
  lemma KeyIffFlanked(b: Grid, mine: SpaceType, c: Coord)
    ensures c in AvailableMoves(b, mine) <==>
      (InBounds(c.x, c.y) && Cell(b, c.x, c.y) == Empty &&
       exists d, k :: IsDirection(d) && Flanks(b, c.x, c.y, d, k, mine))
  {
    if InBounds(c.x, c.y) {
      if c in AvailableMoves(b, mine) {
        var o := Origins(b, c.x, c.y, mine)[0];
        OriginsFromSound(b, c.x, c.y, mine, 0, o);
      } else if Cell(b, c.x, c.y) == Empty && exists d, k :: IsDirection(d) && Flanks(b, c.x, c.y, d, k, mine) {
        var d, k :| IsDirection(d) && Flanks(b, c.x, c.y, d, k, mine);
        OriginsFromComplete(b, c.x, c.y, mine, 0, d, k);
      }
    }
  }

  /**
   * Every origin listed for a destination has the player's colour, lies k >= 2 steps away on
   * one of the eight rays, and every cell strictly between is the opponent's.  Each ray gives
   * at most one origin, so a list holds between one and eight entries.
   */
  lemma OriginsAreFlankingCells(b: Grid, mine: SpaceType, c: Coord)
    requires c in AvailableMoves(b, mine)
    ensures 1 <= |AvailableMoves(b, mine)[c]| <= 8
    ensures forall o :: o in AvailableMoves(b, mine)[c] ==>
      exists d, k :: IsDirection(d) && Flanks(b, c.x, c.y, d, k, mine) && o == RayPos(c.x, c.y, d, k)
  {
    forall o | o in AvailableMoves(b, mine)[c]
      ensures exists d, k :: IsDirection(d) && Flanks(b, c.x, c.y, d, k, mine) && o == RayPos(c.x, c.y, d, k)
    {
      OriginsFromSound(b, c.x, c.y, mine, 0, o);
    }
  }

  /** Every destination is an EMPTY cell: occupied cells are never moves. */
  lemma KeysAreEmptyCells(b: Grid, mine: SpaceType, c: Coord)
    requires c in AvailableMoves(b, mine)
    ensures InBounds(c.x, c.y) && Cell(b, c.x, c.y) == Empty
  {
  }

  /** A board with no EMPTY cell offers no move. */
  lemma FullBoardHasNoMoves(b: Grid, mine: SpaceType)
    requires forall i, j :: InBounds(i, j) ==> Cell(b, i, j) != Empty
    ensures AvailableMoves(b, mine) == map[]
  {
  }
}
