/**
 * The opening position (OthelloGame.initBoard) and BLACK's first move on it.
 */
module Opening {
  import opened Board
  import opened Moves
  import opened Game

  /** A destination always has an opponent cell right next to it. */
  lemma DestinationHasOpponentNeighbour(b: Grid, mine: SpaceType, c: Coord)
    requires c in AvailableMoves(b, mine)
    ensures exists d :: IsDirection(d) && ColourAt(b, c.x, c.y, d, 1, Opponent(mine))
  {
    KeyIffFlanked(b, mine, c);
  }

  /** The ten empty cells next to a WHITE disc in the opening. */
  predicate NextToWhite(c: Coord)
  {
    c in {Coord(2, 2), Coord(2, 3), Coord(2, 4), Coord(3, 2), Coord(4, 2),
          Coord(5, 5), Coord(5, 4), Coord(5, 3), Coord(4, 5), Coord(3, 5)}
  }

  lemma NeighbourOfWhite(c: Coord, d: int)
    requires IsDirection(d) && OpeningColour(c.x, c.y) == Empty
    requires OpeningColour(RayPos(c.x, c.y, d, 1).x, RayPos(c.x, c.y, d, 1).y) == White
    ensures NextToWhite(c)
  {
  }

  lemma OpeningCandidates(c: Coord)
    requires c in AvailableMoves(InitialGrid(), Black)
    ensures NextToWhite(c)
  {
    var g := InitialGrid();
    DestinationHasOpponentNeighbour(g, Black, c);
    KeysAreEmptyCells(g, Black, c);
    InitialCells();
    var d :| IsDirection(d) && ColourAt(g, c.x, c.y, d, 1, White);
    NeighbourOfWhite(c, d);
  }

  lemma OpeningOrigins23()
    ensures Origins(InitialGrid(), 2, 3, Black) == [Coord(4, 3)]
  {
  }

  lemma OpeningOrigins32()
    ensures Origins(InitialGrid(), 3, 2, Black) == [Coord(3, 4)]
  {
  }

  lemma OpeningOrigins45()
    ensures Origins(InitialGrid(), 4, 5, Black) == [Coord(4, 3)]
  {
  }

  lemma OpeningOrigins54()
    ensures Origins(InitialGrid(), 5, 4, Black) == [Coord(3, 4)]
  {
  }

  lemma OpeningOrigins22()
    ensures Origins(InitialGrid(), 2, 2, Black) == []
  {
  }

  lemma OpeningOrigins55()
    ensures Origins(InitialGrid(), 5, 5, Black) == []
  {
  }

  lemma OpeningOrigins24()
    ensures Origins(InitialGrid(), 2, 4, Black) == []
  {
  }

  lemma OpeningOrigins42()
    ensures Origins(InitialGrid(), 4, 2, Black) == []
  {
  }

  lemma OpeningOrigins35()
    ensures Origins(InitialGrid(), 3, 5, Black) == []
  {
  }

  lemma OpeningOrigins53()
    ensures Origins(InitialGrid(), 5, 3, Black) == []
  {
  }

  /** An empty cell with origins is a key of the move map, mapped to exactly those origins. */
  lemma DestinationEntry(g: Grid, c: Coord, mine: SpaceType, o: seq<Coord>)
    requires InBounds(c.x, c.y) && Cell(g, c.x, c.y) == Empty
    requires Origins(g, c.x, c.y, mine) == o && o != []
    ensures c in AvailableMoves(g, mine) && AvailableMoves(g, mine)[c] == o
  {
    assert IsDestination(g, c, mine);
  }

  lemma OpeningKeys(c: Coord)
    requires c in AvailableMoves(InitialGrid(), Black)
    ensures c in {Coord(2, 3), Coord(3, 2), Coord(4, 5), Coord(5, 4)}
  {
    OpeningCandidates(c);
    OpeningOrigins22();
    OpeningOrigins55();
    OpeningOrigins24();
    OpeningOrigins42();
    OpeningOrigins35();
    OpeningOrigins53();
  }

  lemma FourEntryMap(m: map<Coord, seq<Coord>>)
    requires forall c :: c in m ==> c in {Coord(2, 3), Coord(3, 2), Coord(4, 5), Coord(5, 4)}
    requires Coord(2, 3) in m && m[Coord(2, 3)] == [Coord(4, 3)]
    requires Coord(3, 2) in m && m[Coord(3, 2)] == [Coord(3, 4)]
    requires Coord(4, 5) in m && m[Coord(4, 5)] == [Coord(4, 3)]
    requires Coord(5, 4) in m && m[Coord(5, 4)] == [Coord(3, 4)]
    ensures m == OpeningMoves()
  {
  }

  function OpeningMoves(): map<Coord, seq<Coord>>
  {
    map[Coord(2, 3) := [Coord(4, 3)], Coord(3, 2) := [Coord(3, 4)],
        Coord(4, 5) := [Coord(4, 3)], Coord(5, 4) := [Coord(3, 4)]]
  }

  lemma OpeningEntry23()
    ensures Coord(2, 3) in AvailableMoves(InitialGrid(), Black)
    ensures AvailableMoves(InitialGrid(), Black)[Coord(2, 3)] == [Coord(4, 3)]
  {
    InitialCells();
    OpeningOrigins23();
    DestinationEntry(InitialGrid(), Coord(2, 3), Black, [Coord(4, 3)]);
  }

  lemma OpeningEntry32()
    ensures Coord(3, 2) in AvailableMoves(InitialGrid(), Black)
    ensures AvailableMoves(InitialGrid(), Black)[Coord(3, 2)] == [Coord(3, 4)]
  {
    InitialCells();
    OpeningOrigins32();
    DestinationEntry(InitialGrid(), Coord(3, 2), Black, [Coord(3, 4)]);
  }

  lemma OpeningEntry45()
    ensures Coord(4, 5) in AvailableMoves(InitialGrid(), Black)
    ensures AvailableMoves(InitialGrid(), Black)[Coord(4, 5)] == [Coord(4, 3)]
  {
    InitialCells();
    OpeningOrigins45();
    DestinationEntry(InitialGrid(), Coord(4, 5), Black, [Coord(4, 3)]);
  }

  lemma OpeningEntry54()
    ensures Coord(5, 4) in AvailableMoves(InitialGrid(), Black)
    ensures AvailableMoves(InitialGrid(), Black)[Coord(5, 4)] == [Coord(3, 4)]
  {
    InitialCells();
    OpeningOrigins54();
    DestinationEntry(InitialGrid(), Coord(5, 4), Black, [Coord(3, 4)]);
  }

  /** BLACK's moves in the opening: exactly four destinations, each with a single origin. */
  lemma OpeningMovesForBlack()
    ensures AvailableMoves(InitialGrid(), Black) == OpeningMoves()
  {
    var m := AvailableMoves(InitialGrid(), Black);
    OpeningEntry23();
    OpeningEntry32();
    OpeningEntry45();
    OpeningEntry54();
    forall c | c in m
      ensures c in {Coord(2, 3), Coord(3, 2), Coord(4, 5), Coord(5, 4)}
    {
      OpeningKeys(c);
    }
    FourEntryMap(m);
  }

  /** The position after BLACK takes (2, 3) from the opening position on board `g`. */
  function AfterFirstMove(g: Grid): Play
  {
    Play(SetCell(SetCell(g, 2, 3, Black), 3, 3, Black),
         Player(Black, [Coord(4, 3), Coord(3, 4), Coord(2, 3), Coord(3, 3)]),
         Player(White, [Coord(4, 4)]))
  }

  /** Claiming an in-bounds cell the acting player does not own yet. */
  lemma ClaimNewCell(p: Play, x: int, y: int)
    requires InBounds(x, y) && Coord(x, y) !in p.acting.owned
    ensures Claim(p, x, y) == Play(SetCell(p.board, x, y, p.acting.color),
                                   p.acting.(owned := p.acting.owned + [Coord(x, y)]),
                                   p.opponent.(owned := RemoveFirst(p.opponent.owned, Coord(x, y))))
  {
  }

  /** Claiming an in-bounds cell neither player owns leaves the opponent's list as it was. */
  lemma ClaimFreshCell(p: Play, x: int, y: int)
    requires InBounds(x, y) && Coord(x, y) !in p.acting.owned && Coord(x, y) !in p.opponent.owned
    ensures Claim(p, x, y) == Play(SetCell(p.board, x, y, p.acting.color),
                                   p.acting.(owned := p.acting.owned + [Coord(x, y)]), p.opponent)
  {
    ClaimNewCell(p, x, y);
  }

  lemma ClaimTwoThree(g: Grid)
    ensures Claim(OpeningPlay(g), 2, 3)
         == Play(SetCell(g, 2, 3, Black), Player(Black, [Coord(4, 3), Coord(3, 4), Coord(2, 3)]),
                 Player(White, [Coord(3, 3), Coord(4, 4)]))
  {
    var p := OpeningPlay(g);
    assert Coord(2, 3) !in p.acting.owned && Coord(2, 3) !in p.opponent.owned;
    ClaimFreshCell(p, 2, 3);
    assert p.acting.owned + [Coord(2, 3)] == [Coord(4, 3), Coord(3, 4), Coord(2, 3)];
  }

  lemma ClaimThreeThree(g: Grid)
    ensures Claim(Play(SetCell(g, 2, 3, Black), Player(Black, [Coord(4, 3), Coord(3, 4), Coord(2, 3)]),
                       Player(White, [Coord(3, 3), Coord(4, 4)])), 3, 3)
         == AfterFirstMove(g)
  {
    var p := Play(SetCell(g, 2, 3, Black), Player(Black, [Coord(4, 3), Coord(3, 4), Coord(2, 3)]),
                  Player(White, [Coord(3, 3), Coord(4, 4)]));
    assert Coord(3, 3) !in p.acting.owned;
    ClaimNewCell(p, 3, 3);
    assert RemoveFirst(p.opponent.owned, Coord(3, 3)) == [Coord(4, 4)];
    assert p.acting.owned + [Coord(3, 3)] == [Coord(4, 3), Coord(3, 4), Coord(2, 3), Coord(3, 3)];
  }

  lemma WalkFromTwoThree(g: Grid)
    ensures Walk(OpeningPlay(g), 2, 3, Coord(4, 3), 1, 0) == AfterFirstMove(g)
  {
    var p := OpeningPlay(g);
    var p1 := Play(SetCell(g, 2, 3, Black), Player(Black, [Coord(4, 3), Coord(3, 4), Coord(2, 3)]),
                   Player(White, [Coord(3, 3), Coord(4, 4)]));
    ClaimTwoThree(g);
    ClaimThreeThree(g);
    assert Walk(p, 2, 3, Coord(4, 3), 1, 0) == Walk(p1, 3, 3, Coord(4, 3), 1, 0);
    assert Walk(p1, 3, 3, Coord(4, 3), 1, 0) == Walk(AfterFirstMove(g), 4, 3, Coord(4, 3), 1, 0);
  }

  /** The opening play: BLACK owns (4, 3) and (3, 4), WHITE owns (3, 3) and (4, 4). */
  function OpeningPlay(g: Grid): Play
  {
    Play(g, Player(Black, [Coord(4, 3), Coord(3, 4)]), Player(White, [Coord(3, 3), Coord(4, 4)]))
  }

  /** takeSpaces for (2, 3) walks from (2, 3) down to its single origin (4, 3). */
  lemma FirstMoveWalk(g: Grid)
    ensures TakeSpaces(OpeningPlay(g), OpeningMoves(), Coord(2, 3)) == AfterFirstMove(g)
  {
    var p := OpeningPlay(g);
    assert OpeningMoves()[Coord(2, 3)] == [Coord(4, 3)];
    assert TakeSpaces(p, OpeningMoves(), Coord(2, 3)) == ForDirections(p, Coord(2, 3), Coord(4, 3), 0) by {
      assert [Coord(4, 3)][1..] == [];
    }
    ForDirectionsWalksOnce(p, Coord(2, 3), Coord(4, 3), 0);
    assert DirIndex(1, 0) == 6;
    WalkFromTwoThree(g);
  }

  /**
   * BLACK taking (2, 3) in the opening recolours (2, 3) and (3, 3) and nothing else; BLACK then
   * owns four cells and WHITE one.
   */
  lemma FirstMove(g: Grid)
    requires g == InitialGrid()
    ensures var r := TakeSpaces(OpeningPlay(g), OpeningMoves(), Coord(2, 3));
      && Cell(r.board, 2, 3) == Black && Cell(r.board, 3, 3) == Black
      && (forall i, j | InBounds(i, j) && (i, j) != (2, 3) && (i, j) != (3, 3) :: Cell(r.board, i, j) == Cell(g, i, j))
      && |r.acting.owned| == 4 && |r.opponent.owned| == 1
  {
    FirstMoveWalk(g);
    var b1 := SetCell(g, 2, 3, Black);
    assert AfterFirstMove(g).board == SetCell(b1, 3, 3, Black);
  }
}
