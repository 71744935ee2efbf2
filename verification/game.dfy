/**
 * Board set-up and move application (othello/gamelogic/OthelloGame.java): initBoard,
 * takeSpace and takeSpaces, together with the owned-space lists of the two players
 * (othello/gamelogic/Player.java).
 *
 * An owned list holds references to board cells and is searched with BoardSpace.equals, so
 * only the coordinates of its entries matter; it is modelled as a list of Coord.
 */
module Game {
  import opened Board
  import opened Moves

  /** A player: its colour and its list of owned spaces. */
  datatype Player = Player(color: SpaceType, owned: seq<Coord>)

  /** OthelloGame: the live board and the two players. */
  datatype OthelloGame = OthelloGame(board: Grid, playerOne: Player, playerTwo: Player)

  /** The operands of takeSpace / takeSpaces: the board, the acting player and its opponent. */
  datatype Play = Play(board: Grid, acting: Player, opponent: Player)

  // ----- initBoard -----

  /** The starting grid: all EMPTY except the four centre cells. */
  function InitialGrid(): Grid
  {
    var g := EmptyGrid();
    var g := SetCell(g, 4, 3, Black);
    var g := SetCell(g, 3, 4, Black);
    var g := SetCell(g, 3, 3, White);
    SetCell(g, 4, 4, White)
  }

  /** The OthelloGame constructor: initBoard appends the starting cells to each owned list. */
  function NewGame(playerOne: Player, playerTwo: Player): (g: OthelloGame)
    ensures g.playerOne == playerOne.(owned := playerOne.owned + [Coord(4, 3), Coord(3, 4)])
    ensures g.playerTwo == playerTwo.(owned := playerTwo.owned + [Coord(3, 3), Coord(4, 4)])
    ensures Cell(g.board, 3, 4) == Black && Cell(g.board, 4, 3) == Black
    ensures Cell(g.board, 3, 3) == White && Cell(g.board, 4, 4) == White
    ensures forall i, j :: InBounds(i, j) && !(3 <= i <= 4 && 3 <= j <= 4) ==> Cell(g.board, i, j) == Empty
  {
    OthelloGame(InitialGrid(),
                playerOne.(owned := playerOne.owned + [Coord(4, 3), Coord(3, 4)]),
                playerTwo.(owned := playerTwo.owned + [Coord(3, 3), Coord(4, 4)]))
  }

  /** The colour of every cell of the opening grid. */
  function OpeningColour(i: int, j: int): SpaceType
  {
    if (i, j) == (3, 4) || (i, j) == (4, 3) then Black
    else if (i, j) == (3, 3) || (i, j) == (4, 4) then White
    else Empty
  }

  lemma InitialCells()
    ensures forall i, j :: InBounds(i, j) ==> Cell(InitialGrid(), i, j) == OpeningColour(i, j)
  {
    var n := NewGame(Player(Black, []), Player(White, []));
  }

  // ----- owned lists -----

  /** The position of the first entry equal to `c`. */
  function IndexOf(s: seq<Coord>, c: Coord): (i: nat)
    requires c in s
    ensures i < |s| && s[i] == c && c !in s[..i]
  {
    if s[0] == c then 0
    else
      var j := IndexOf(s[1..], c);
      assert s[..j + 1] == [s[0]] + s[1..][..j];
      j + 1
  }

  /** List.remove(Object): drops the first entry equal to `c`, if any. */
  function RemoveFirst(s: seq<Coord>, c: Coord): (r: seq<Coord>)
    ensures multiset(r) == multiset(s) - multiset{c}
    ensures c in s ==> |r| == |s| - 1
    ensures c !in s ==> r == s
  {
    if s == [] then []
    else
      assert s == [s[0]] + s[1..];
      if s[0] == c then s[1..]
      else [s[0]] + RemoveFirst(s[1..], c)
  }

  /** The entry removed is the first one equal to `c`: everything before it and after it stays, in order. */
  lemma {:induction false} RemoveFirstCutsFirst(s: seq<Coord>, c: Coord)
    requires c in s
    ensures RemoveFirst(s, c) == s[..IndexOf(s, c)] + s[IndexOf(s, c) + 1..]
  {
    if s[0] == c {
      assert s[..0] + s[1..] == s[1..];
    } else {
      var j := IndexOf(s[1..], c);
      assert IndexOf(s, c) == j + 1;
      RemoveFirstCutsFirst(s[1..], c);
      CutCons(s, j, RemoveFirst(s[1..], c));
    }
  }

  /** Cutting out entry j of the tail, behind the head, is cutting out entry j + 1 of the list. */
  lemma CutCons(s: seq<Coord>, j: nat, rest: seq<Coord>)
    requires j + 1 < |s| && rest == s[1..][..j] + s[1..][j + 1..]
    ensures [s[0]] + rest == s[..j + 1] + s[j + 2..]
  {
  }

  predicate NoDup(s: seq<Coord>)
  {
    forall c | c in multiset(s) :: multiset(s)[c] == 1
  }

  /** The player's list names exactly the board cells of its colour, each once. */
  predicate OwnsExactly(b: Grid, p: Player)
  {
    && NoDup(p.owned)
    && (forall c | c in p.owned :: InBounds(c.x, c.y) && Cell(b, c.x, c.y) == p.color)
    && (forall i, j | 0 <= i < Size && 0 <= j < Size && Cell(b, i, j) == p.color :: Coord(i, j) in p.owned)
  }

  predicate IsDisc(c: SpaceType) { c == Black || c == White }

  /** The consistency invariant between the board and both owned lists. */
  predicate Consistent(p: Play)
  {
    && IsDisc(p.acting.color) && IsDisc(p.opponent.color)
    && p.acting.color != p.opponent.color
    && OwnsExactly(p.board, p.acting)
    && OwnsExactly(p.board, p.opponent)
  }

  // ----- takeSpace -----

  /**
   * OthelloGame.takeSpace: unless the acting player already owns (x, y), remove the cell from
   * the opponent's list, append it to the acting player's list and give it the acting colour.
   */
  function TakeSpace(p: Play, x: int, y: int): (r: Play)
    requires InBounds(x, y)
    ensures r.acting.color == p.acting.color && r.opponent.color == p.opponent.color
    ensures forall i, j | InBounds(i, j) && (i, j) != (x, y) :: Cell(r.board, i, j) == Cell(p.board, i, j)
    ensures Coord(x, y) in r.acting.owned
    ensures Coord(x, y) in p.acting.owned ==> r == p
    ensures Coord(x, y) !in p.acting.owned ==> Cell(r.board, x, y) == p.acting.color
    ensures Coord(x, y) !in p.acting.owned ==>
      r.acting.owned == p.acting.owned + [Coord(x, y)] &&
      multiset(r.opponent.owned) == multiset(p.opponent.owned) - multiset{Coord(x, y)}
  {
    var c := Coord(x, y);
    if c in p.acting.owned then p
    else
      Play(SetCell(p.board, x, y, p.acting.color),
           p.acting.(owned := p.acting.owned + [c]),
           p.opponent.(owned := RemoveFirst(p.opponent.owned, c)))
  }

  /** Taking a space twice is the same as taking it once. */
  lemma TakeSpaceIdempotent(p: Play, x: int, y: int)
    requires InBounds(x, y)
    ensures TakeSpace(TakeSpace(p, x, y), x, y) == TakeSpace(p, x, y)
  {
  }

  /** Removing an entry from a repeat-free list removes exactly that entry. */
  lemma RemoveFirstNoDup(s: seq<Coord>, c: Coord)
    requires NoDup(s)
    ensures NoDup(RemoveFirst(s, c))
    ensures forall e :: e in RemoveFirst(s, c) <==> e in s && e != c
  {
    var r := RemoveFirst(s, c);
    forall e
      ensures e in r <==> e in s && e != c
    {
      assert e in r <==> e in multiset(r);
      assert e in s <==> e in multiset(s);
    }
  }

  /** Appending a new entry to a repeat-free list keeps it repeat-free. */
  lemma AppendNoDup(s: seq<Coord>, c: Coord)
    requires NoDup(s) && c !in s
    ensures NoDup(s + [c])
  {
    assert multiset(s + [c]) == multiset(s) + multiset{c};
  }

  /**
   * On a consistent position takeSpace gives (x, y) the acting colour, changes no other cell,
   * and keeps both owned lists in step with the board.
   */
  lemma TakeSpaceKeepsConsistent(p: Play, x: int, y: int)
    requires Consistent(p) && InBounds(x, y)
    ensures Consistent(TakeSpace(p, x, y))
    ensures TakeSpace(p, x, y).board == SetCell(p.board, x, y, p.acting.color)
  {
    var c := Coord(x, y);
    if c in p.acting.owned {
      assert p.board[x][y := p.acting.color] == p.board[x];
      assert SetCell(p.board, x, y, p.acting.color) == p.board;
    } else {
      var r := TakeSpace(p, x, y);
      RemoveFirstNoDup(p.opponent.owned, c);
      AppendNoDup(p.acting.owned, c);
    }
  }

  // ----- takeSpaces -----

  /** The body of the fill loop: `if (inBounds(i, j)) takeSpace(...)`. */
  function Claim(p: Play, i: int, j: int): Play
  {
    if InBounds(i, j) then TakeSpace(p, i, j) else p
  }

  /**
   * The fill loop of takeSpaces: from (i, j) step toward origin `o` (each coordinate moves by
   * (sx, sy) only while it differs from the origin's), claiming every in-bounds cell passed
   * until the origin is reached; the origin itself is not claimed.
   */
  function Walk(p: Play, i: int, j: int, o: Coord, sx: int, sy: int): Play
    requires i == o.x || sx == Sign(o.x - i)
    requires j == o.y || sy == Sign(o.y - j)
    decreases Abs(o.x - i) + Abs(o.y - j)
  {
    if i == o.x && j == o.y then p
    else Walk(Claim(p, i, j), Next(i, o.x, sx), Next(j, o.y, sy), o, sx, sy)
  }

  /** One coordinate of a fill-loop step: it moves by `s` only while it differs from `target`. */
  function Next(i: int, target: int, s: int): (r: int)
    requires i == target || s == Sign(target - i)
    ensures r == target || s == Sign(target - r)
    ensures i != target ==> Abs(target - r) < Abs(target - i)
  {
    if i != target then i + s else i
  }

  /** The direction loop of takeSpaces for one origin: directions d .. 7 in table order. */
  function ForDirections(p: Play, dest: Coord, o: Coord, d: nat): Play
    requires d <= 8
    decreases 8 - d
  {
    if d == 8 then p
    else
      var sx := Sign(o.x - dest.x);
      var sy := Sign(o.y - dest.y);
      var p' := if DX(d) == sx && DY(d) == sy then Walk(p, dest.x, dest.y, o, DX(d), DY(d)) else p;
      ForDirections(p', dest, o, d + 1)
  }

  /** The origin loop of takeSpaces. */
  function ForOrigins(p: Play, dest: Coord, origins: seq<Coord>): Play
    decreases |origins|
  {
    if origins == [] then p
    else ForOrigins(ForDirections(p, dest, origins[0], 0), dest, origins[1..])
  }

  /**
   * OthelloGame.takeSpaces.  The destination must be a key of the map: `get` would return
   * null and the loop over it would fail.
   */
  function TakeSpaces(p: Play, moves: map<Coord, seq<Coord>>, dest: Coord): Play
    requires dest in moves
  {
    ForOrigins(p, dest, moves[dest])
  }

  // ----- segments and the effect of takeSpaces -----

  /** `o` lies on one of the eight rays from `a` (or is `a` itself). */
  predicate Straight(a: Coord, o: Coord)
  {
    a.x == o.x || a.y == o.y || Abs(o.x - a.x) == Abs(o.y - a.y)
  }

  /** `c` lies on the segment from `a` (inclusive) toward `o` (exclusive). */
  predicate OnSegment(a: Coord, o: Coord, c: Coord)
  {
    var n := Cheb(a, c);
    n < Cheb(a, o) && c == Coord(Offset(a.x, Sign(o.x - a.x), n), Offset(a.y, Sign(o.y - a.y), n))
  }

  /** One step of the fill loop from `a` toward `o`. */
  function StepToward(a: Coord, o: Coord): Coord
  {
    Coord(if a.x != o.x then a.x + Sign(o.x - a.x) else a.x,
          if a.y != o.y then a.y + Sign(o.y - a.y) else a.y)
  }

  lemma SegmentStep(a: Coord, o: Coord, c: Coord)
    requires Straight(a, o) && a != o
    ensures Straight(StepToward(a, o), o)
    ensures Cheb(StepToward(a, o), o) == Cheb(a, o) - 1
    ensures OnSegment(a, o, c) <==> c == a || OnSegment(StepToward(a, o), o, c)
  {
  }

  /** `after` is `before` with the in-bounds cells of the segment from `a` toward `o` set to `t`. */
  ghost predicate PaintsSegment(before: Grid, after: Grid, a: Coord, o: Coord, t: SpaceType)
  {
    forall x, y | InBounds(x, y) ::
      Cell(after, x, y) == if OnSegment(a, o, Coord(x, y)) then t else Cell(before, x, y)
  }

  /** Claiming `a` and then painting the rest of the segment paints the whole segment. */
  lemma PaintsSegmentStep(before: Grid, mid: Grid, after: Grid, a: Coord, o: Coord, t: SpaceType)
    requires Straight(a, o) && a != o
    requires InBounds(a.x, a.y) ==> mid == SetCell(before, a.x, a.y, t)
    requires !InBounds(a.x, a.y) ==> mid == before
    requires PaintsSegment(mid, after, StepToward(a, o), o, t)
    ensures PaintsSegment(before, after, a, o, t)
  {
    forall x, y | InBounds(x, y)
      ensures Cell(after, x, y) == if OnSegment(a, o, Coord(x, y)) then t else Cell(before, x, y)
    {
      SegmentStep(a, o, Coord(x, y));
    }
  }

  lemma ClaimKeepsConsistent(p: Play, i: int, j: int)
    requires Consistent(p)
    ensures Consistent(Claim(p, i, j))
    ensures Claim(p, i, j).acting.color == p.acting.color
    ensures InBounds(i, j) ==> Claim(p, i, j).board == SetCell(p.board, i, j, p.acting.color)
    ensures !InBounds(i, j) ==> Claim(p, i, j).board == p.board
  {
    if InBounds(i, j) {
      TakeSpaceKeepsConsistent(p, i, j);
    }
  }

  /** The fill loop keeps the owned lists consistent with the board. */
  lemma {:induction false} WalkKeepsConsistent(p: Play, i: int, j: int, o: Coord, sx: int, sy: int)
    requires Consistent(p)
    requires i == o.x || sx == Sign(o.x - i)
    requires j == o.y || sy == Sign(o.y - j)
    ensures Consistent(Walk(p, i, j, o, sx, sy))
    ensures Walk(p, i, j, o, sx, sy).acting.color == p.acting.color
    decreases Abs(o.x - i) + Abs(o.y - j)
  {
    if i != o.x || j != o.y {
      var q := Claim(p, i, j);
      var ni, nj := Next(i, o.x, sx), Next(j, o.y, sy);
      assert Walk(p, i, j, o, sx, sy) == Walk(q, ni, nj, o, sx, sy);
      ClaimKeepsConsistent(p, i, j);
      WalkKeepsConsistent(q, ni, nj, o, sx, sy);
    }
  }

  /**
   * On a consistent position, walking from (i, j) toward an origin on one of its rays claims
   * exactly the in-bounds cells of the segment.
   */
  lemma {:induction false} WalkPaintsSegment(p: Play, i: int, j: int, o: Coord, sx: int, sy: int)
    requires Consistent(p)
    requires i == o.x || sx == Sign(o.x - i)
    requires j == o.y || sy == Sign(o.y - j)
    requires Straight(Coord(i, j), o)
    ensures PaintsSegment(p.board, Walk(p, i, j, o, sx, sy).board, Coord(i, j), o, p.acting.color)
    decreases Abs(o.x - i) + Abs(o.y - j)
  {
    var a := Coord(i, j);
    if a != o {
      var next := StepToward(a, o);
      var q := Claim(p, i, j);
      SegmentStep(a, o, a);
      assert next == Coord(Next(i, o.x, sx), Next(j, o.y, sy));
      ClaimKeepsConsistent(p, i, j);
      WalkPaintsSegment(q, next.x, next.y, o, sx, sy);
      var after := Walk(q, next.x, next.y, o, sx, sy);
      assert Walk(p, i, j, o, sx, sy) == after;
      PaintsSegmentStep(p.board, q.board, after.board, a, o, p.acting.color);
    }
  }

  /** The index of the direction-table entry equal to (sx, sy); 8 when (sx, sy) = (0, 0). */
  function DirIndex(sx: int, sy: int): int
  {
    if sx == 0 && sy == 0 then 8
    else
      var raw := (sx + 1) * 3 + (sy + 1);
      if raw > 4 then raw - 1 else raw
  }

  /** Exactly one table entry matches each non-zero sign pair, and none matches (0, 0). */
  lemma DirectionTableMatch(d: int, sx: int, sy: int)
    requires -1 <= sx <= 1 && -1 <= sy <= 1
    ensures (IsDirection(d) && DX(d) == sx && DY(d) == sy) <==> (d == DirIndex(sx, sy) && d < 8)
  {
  }

  /** The direction loop walks once, along the direction of the origin, or not at all. */
  lemma {:induction false} ForDirectionsWalksOnce(p: Play, dest: Coord, o: Coord, d: nat)
    requires d <= 8
    ensures var sx, sy := Sign(o.x - dest.x), Sign(o.y - dest.y);
      ForDirections(p, dest, o, d) ==
        if d <= DirIndex(sx, sy) < 8 then Walk(p, dest.x, dest.y, o, sx, sy) else p
    decreases 8 - d
  {
    if d < 8 {
      var sx, sy := Sign(o.x - dest.x), Sign(o.y - dest.y);
      DirectionTableMatch(d, sx, sy);
      var p' := if DX(d) == sx && DY(d) == sy then Walk(p, dest.x, dest.y, o, DX(d), DY(d)) else p;
      ForDirectionsWalksOnce(p', dest, o, d + 1);
    }
  }

  /** `after` is `before` with every segment from `dest` toward an origin set to `t`. */
  ghost predicate PaintsSegments(before: Grid, after: Grid, dest: Coord, origins: seq<Coord>, t: SpaceType)
  {
    forall x, y | InBounds(x, y) ::
      Cell(after, x, y) ==
        if exists o :: o in origins && OnSegment(dest, o, Coord(x, y)) then t else Cell(before, x, y)
  }

  lemma {:induction false} ForOriginsPaintsSegments(p: Play, dest: Coord, origins: seq<Coord>)
    requires Consistent(p)
    requires forall o | o in origins :: Straight(dest, o)
    ensures Consistent(ForOrigins(p, dest, origins))
    ensures ForOrigins(p, dest, origins).acting.color == p.acting.color
    ensures PaintsSegments(p.board, ForOrigins(p, dest, origins).board, dest, origins, p.acting.color)
    decreases |origins|
  {
    if origins != [] {
      var o := origins[0];
      var sx, sy := Sign(o.x - dest.x), Sign(o.y - dest.y);
      ForDirectionsWalksOnce(p, dest, o, 0);
      DirectionTableMatch(DirIndex(sx, sy), sx, sy);
      var p1 := ForDirections(p, dest, o, 0);
      if o != dest {
        WalkKeepsConsistent(p, dest.x, dest.y, o, sx, sy);
        WalkPaintsSegment(p, dest.x, dest.y, o, sx, sy);
      }
      ForOriginsPaintsSegments(p1, dest, origins[1..]);
      var r := ForOrigins(p1, dest, origins[1..]);
      forall x, y | InBounds(x, y)
        ensures Cell(r.board, x, y) ==
          if exists o' :: o' in origins && OnSegment(dest, o', Coord(x, y)) then p.acting.color else Cell(p.board, x, y)
      {
        var c := Coord(x, y);
        if exists o' :: o' in origins[1..] && OnSegment(dest, o', c) {
          var o' :| o' in origins[1..] && OnSegment(dest, o', c);
          assert o' in origins;
        }
        if OnSegment(dest, o, c) {
          assert o in origins;
        }
        if exists o' :: o' in origins && OnSegment(dest, o', c) {
          var o' :| o' in origins && OnSegment(dest, o', c);
          if o' != o {
            assert o' in origins[1..];
          }
        }
      }
    }
  }

  /**
   * takeSpaces on a consistent position whose origins all lie on rays from the destination:
   * every cell from the destination (inclusive) toward an origin (exclusive) takes the acting
   * colour, no other cell changes, and the owned lists stay consistent with the board.
   */
  lemma TakeSpacesPaintsSegments(p: Play, moves: map<Coord, seq<Coord>>, dest: Coord)
    requires Consistent(p) && dest in moves
    requires forall o | o in moves[dest] :: Straight(dest, o)
    ensures Consistent(TakeSpaces(p, moves, dest))
    ensures PaintsSegments(p.board, TakeSpaces(p, moves, dest).board, dest, moves[dest], p.acting.color)
  {
    ForOriginsPaintsSegments(p, dest, moves[dest]);
  }

  /** A cell reached along a direction-table ray lies on a straight line from its start. */
  lemma RayPosStraight(x: int, y: int, d: int, k: nat)
    requires IsDirection(d)
    ensures Straight(Coord(x, y), RayPos(x, y, d, k))
  {
  }

  /** The origins of a legal move lie on rays from its destination. */
  lemma LegalOriginsStraight(b: Grid, mine: SpaceType, dest: Coord)
    requires dest in AvailableMoves(b, mine)
    ensures forall o | o in AvailableMoves(b, mine)[dest] :: Straight(dest, o)
  {
    OriginsAreFlankingCells(b, mine, dest);
    forall o | o in AvailableMoves(b, mine)[dest]
      ensures Straight(dest, o)
    {
      var d, k :| IsDirection(d) && Flanks(b, dest.x, dest.y, d, k, mine) && o == RayPos(dest.x, dest.y, d, k);
      RayPosStraight(dest.x, dest.y, d, k);
    }
  }

  /** The first `k` cells of a ray form the segment from its start toward its k-th cell. */
  lemma RayOnSegment(x: int, y: int, d: int, k: nat, n: nat)
    requires IsDirection(d) && n < k
    ensures OnSegment(Coord(x, y), RayPos(x, y, d, k), RayPos(x, y, d, n))
  {
  }

  lemma PaintedCell(before: Grid, after: Grid, dest: Coord, origins: seq<Coord>, t: SpaceType, o: Coord, c: Coord)
    requires PaintsSegments(before, after, dest, origins, t)
    requires o in origins && OnSegment(dest, o, c) && InBounds(c.x, c.y)
    ensures Cell(after, c.x, c.y) == t
  {
  }

  /**
   * Applying a legal move (a key of the player's own moves map) to a consistent position:
   * the owned lists stay consistent, the destination takes the acting colour, every segment
   * from the destination toward an origin is recoloured and nothing else changes, and at
   * least one opponent cell is captured.
   */
  lemma TakeLegalMove(p: Play, dest: Coord)
    requires Consistent(p)
    requires dest in AvailableMoves(p.board, p.acting.color)
    ensures var r := TakeSpaces(p, AvailableMoves(p.board, p.acting.color), dest);
      && Consistent(r)
      && PaintsSegments(p.board, r.board, dest, AvailableMoves(p.board, p.acting.color)[dest], p.acting.color)
      && Cell(r.board, dest.x, dest.y) == p.acting.color
      && exists x, y :: InBounds(x, y) && Cell(p.board, x, y) == p.opponent.color && Cell(r.board, x, y) == p.acting.color
  {
    var moves := AvailableMoves(p.board, p.acting.color);
    LegalOriginsStraight(p.board, p.acting.color, dest);
    TakeSpacesPaintsSegments(p, moves, dest);
    var r := TakeSpaces(p, moves, dest);
    OriginsAreFlankingCells(p.board, p.acting.color, dest);
    var o := moves[dest][0];
    assert o in moves[dest];
    var d, k :| IsDirection(d) && Flanks(p.board, dest.x, dest.y, d, k, p.acting.color) && o == RayPos(dest.x, dest.y, d, k);
    RayOnSegment(dest.x, dest.y, d, k, 0);
    assert RayPos(dest.x, dest.y, d, 0) == dest;
    PaintedCell(p.board, r.board, dest, moves[dest], p.acting.color, o, dest);
    var f := RayPos(dest.x, dest.y, d, 1);
    assert ColourAt(p.board, dest.x, dest.y, d, 1, Opponent(p.acting.color));
    RayOnSegment(dest.x, dest.y, d, k, 1);
    PaintedCell(p.board, r.board, dest, moves[dest], p.acting.color, o, f);
    assert InBounds(f.x, f.y) && Cell(p.board, f.x, f.y) == p.opponent.color && Cell(r.board, f.x, f.y) == p.acting.color;
  }
}
