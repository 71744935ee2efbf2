/**
 * learning_data/preprocess_parallel.py: the same rules on a flat board of 64 integers
 * (1 black, -1 white, 0 empty; index row * 8 + col), with algebraic square names.
 */
module Preprocess {
  import opened Wrappers
  import opened Board
  import opened Game
  import Moves

  /** A board vector: 64 entries, index row * 8 + col. */
  type Vec = v: seq<int> | |v| == 64 witness seq(64, _ => 0)

  function Index(c: Coord): int
  {
    c.x * 8 + c.y
  }

  // ----- Square names -----

  /** str.lower on an ASCII character. */
  function Lower(c: char): char
  {
    if 'A' <= c <= 'Z' then (c as int + 32) as char else c
  }

  /** A square name: a file letter a-h in either case followed by a rank digit 1-8. */
  predicate IsSquare(move: string)
  {
    |move| >= 2 && 'a' <= Lower(move[0]) <= 'h' && '1' <= move[1] <= '8'
  }

  /**
   * chess_to_1d_index: (rank - 1) * 8 + (file - 'a'), with no range check on the file.  A move
   * shorter than two characters or whose second character is not a digit makes Python raise.
   */
  function ChessTo1d(move: string): (r: Option<int>)
    ensures IsSquare(move) ==> r.Some? && 0 <= r.value < 64
    ensures r.Some? <==> |move| >= 2 && '0' <= move[1] <= '9'
  {
    if |move| < 2 || !('0' <= move[1] <= '9') then None
    else Some(((move[1] as int - '0' as int) - 1) * 8 + (Lower(move[0]) as int - 'a' as int))
  }

  /** chess_to_2d_index: (rank - 1, file - 'a'). */
  function ChessTo2d(move: string): (r: Option<(int, int)>)
    ensures r.Some? <==> |move| >= 2 && '0' <= move[1] <= '9'
  {
    if |move| < 2 || !('0' <= move[1] <= '9') then None
    else Some(((move[1] as int - '0' as int) - 1, Lower(move[0]) as int - 'a' as int))
  }

  /** On square names, divmod of the flat index by 8 gives back the pair. */
  lemma DivmodRoundTrip(move: string)
    requires IsSquare(move)
    ensures var i := ChessTo1d(move).value; (i / 8, i % 8) == ChessTo2d(move).value
  {
  }

  /** The name of flat square `i`: its file letter, then its rank digit. */
  function SquareName(i: int): (s: string)
    requires 0 <= i < 64
    ensures |s| == 2 && IsSquare(s)
  {
    [('a' as int + i % 8) as char, ('1' as int + i / 8) as char]
  }

  /** Naming a square and reading the name back gives the square, and the other way round. */
  lemma SquareNamesRoundTrip(i: int, move: string)
    requires 0 <= i < 64
    ensures ChessTo1d(SquareName(i)) == Some(i)
    ensures IsSquare(move) && |move| == 2 ==> SquareName(ChessTo1d(move).value) == [Lower(move[0]), move[1]]
  {
    var s := SquareName(i);
    assert Lower(s[0]) == s[0];
    if IsSquare(move) && |move| == 2 {
      DivmodRoundTrip(move);
    }
  }

  // ----- get_legal_moves -----

  /** The integer of a player: 1 for black, -1 for white. */
  function PlayerValue(blackPlayer: bool): int
  {
    if blackPlayer then 1 else -1
  }

  /** The inner while loop: walk from step `k` of direction `d`, `found` recording an opponent run. */
  function RayOrigin(v: Vec, row: int, col: int, d: int, current: int, k: nat, found: bool): (r: Option<int>)
    requires InBounds(row, col) && IsDirection(d) && 1 <= k <= 8
    decreases 8 - k
  {
    var p := RayPos(row, col, d, k);
    if !InBounds(p.x, p.y) then None
    else
      var piece := v[Index(p)];
      if piece == -current then
        assert k < 8 by {
          DirectionsNonZero(d);
        }
        RayOrigin(v, row, col, d, current, k + 1, true)
      else if piece == current && found then Some(Index(p))
      else None
  }

  /** The origins of directions `d` to 7 from (row, col), in the order of the direction table. */
  function OriginsFrom(v: Vec, row: int, col: int, current: int, d: nat): (r: seq<int>)
    requires InBounds(row, col) && d <= 8
    ensures |r| <= 8 - d
    decreases 8 - d
  {
    if d == 8 then []
    else
      (match RayOrigin(v, row, col, d, current, 1, false)
       case Some(o) => [o]
       case None => []) + OriginsFrom(v, row, col, current, d + 1)
  }

  /** The origins of flat index `idx`, at row idx / 8 and column idx % 8. */
  function Origins(v: Vec, idx: int, current: int): (r: seq<int>)
    requires 0 <= idx < 64
    ensures |r| <= 8
  {
    var row := idx / 8;
    var col := idx % 8;
    assert InBounds(row, col);
    OriginsFrom(v, row, col, current, 0)
  }

  /** get_legal_moves keeps `idx`: an empty cell with at least one origin. */
  predicate IsLegal(v: Vec, idx: int, current: int)
    requires 0 <= idx < 64
  {
    v[idx] == 0 && Origins(v, idx, current) != []
  }

  /** No cell holds the opponent's value. */
  predicate NoPieces(v: Vec, value: int)
  {
    forall i | 0 <= i < 64 :: v[i] != value
  }

  /**
   * get_legal_moves(board_vec, black_player): {} when the opponent has no piece; otherwise every
   * empty index with at least one origin, mapped to its origins.
   */
  function GetLegalMoves(v: Vec, blackPlayer: bool): (r: map<int, seq<int>>)
    ensures NoPieces(v, -PlayerValue(blackPlayer)) ==> r == map[]
    ensures forall k | k in r :: 0 <= k < 64 && v[k] == 0
    ensures forall k | k in r :: r[k] == Origins(v, k, PlayerValue(blackPlayer)) && 1 <= |r[k]| <= 8
  {
    var current := PlayerValue(blackPlayer);
    if NoPieces(v, -current) then map[]
    else LegalMap(v, current)
  }

  /** The scan of get_legal_moves: each legal index mapped to its origins. */
  function LegalMap(v: Vec, current: int): (r: map<int, seq<int>>)
    ensures forall k | k in r :: 0 <= k < 64 && IsLegal(v, k, current) && r[k] == Origins(v, k, current)
  {
    map idx | 0 <= idx < 64 && IsLegal(v, idx, current) :: Origins(v, idx, current)
  }

  /** Step `j` from (row, col) along `d` is on the board and holds `value`. */
  predicate HoldsAt(v: Vec, row: int, col: int, d: int, j: int, value: int)
  {
    var p := RayPos(row, col, d, j);
    InBounds(p.x, p.y) && v[Index(p)] == value
  }

  /** Steps `k` .. `m` - 1 along `d` hold opponent pieces and step `m` holds an own piece. */
  ghost predicate Run(v: Vec, row: int, col: int, d: int, current: int, k: int, m: int)
  {
    HoldsAt(v, row, col, d, m, current) && forall j | k <= j < m :: OpponentAt(v, row, col, d, j, current)
  }

  predicate OpponentAt(v: Vec, row: int, col: int, d: int, j: int, current: int)
  {
    HoldsAt(v, row, col, d, j, -current)
  }

  /**
   * An origin found along direction `d` from step `k` is the first own piece after a run of
   * opponent pieces from step `k` on, a run that is not empty unless one was already found.
   */
  lemma {:induction false} RayOriginSound(v: Vec, row: int, col: int, d: int, current: int, k: nat, found: bool)
    requires InBounds(row, col) && IsDirection(d) && 1 <= k <= 8
    requires RayOrigin(v, row, col, d, current, k, found).Some?
    ensures exists m | k <= m <= 8 ::
      (Run(v, row, col, d, current, k, m) && (found || m > k) &&
       RayOrigin(v, row, col, d, current, k, found).value == Index(RayPos(row, col, d, m)))
    decreases 8 - k
  {
    var p := RayPos(row, col, d, k);
    if v[Index(p)] == -current {
      DirectionsNonZero(d);
      RayOriginSound(v, row, col, d, current, k + 1, true);
      var m :| k + 1 <= m <= 8 && Run(v, row, col, d, current, k + 1, m) &&
        RayOrigin(v, row, col, d, current, k + 1, true).value == Index(RayPos(row, col, d, m));
      assert Run(v, row, col, d, current, k, m);
    } else {
      assert Run(v, row, col, d, current, k, k);
    }
  }

  /** Every origin of (row, col) closes a non-empty run of opponent pieces along one direction. */
  lemma {:induction false} OriginsFromSound(v: Vec, row: int, col: int, current: int, d: nat, o: int)
    requires InBounds(row, col) && d <= 8
    requires o in OriginsFrom(v, row, col, current, d)
    ensures exists e, m | d <= e < 8 && 2 <= m <= 8 ::
      Run(v, row, col, e, current, 1, m) && o == Index(RayPos(row, col, e, m))
    decreases 8 - d
  {
    var here := RayOrigin(v, row, col, d, current, 1, false);
    var head := match here case Some(h) => [h] case None => [];
    assert OriginsFrom(v, row, col, current, d) == head + OriginsFrom(v, row, col, current, d + 1);
    if here.Some? && o == here.value {
      RayOriginSound(v, row, col, d, current, 1, false);
      var m :| 1 <= m <= 8 && Run(v, row, col, d, current, 1, m) && m > 1 &&
        here.value == Index(RayPos(row, col, d, m));
      assert d <= d < 8 && 2 <= m <= 8;
    } else {
      assert o in OriginsFrom(v, row, col, current, d + 1);
      OriginsFromSound(v, row, col, current, d + 1, o);
    }
  }

  /**
   * Every key of get_legal_moves is an empty cell; each of its origins is an own piece closing
   * a run of one or more opponent pieces along one of the eight directions.
   */
  lemma LegalMovesSound(v: Vec, blackPlayer: bool, idx: int, o: int)
    requires idx in GetLegalMoves(v, blackPlayer) && o in GetLegalMoves(v, blackPlayer)[idx]
    ensures v[idx] == 0
    ensures exists e, m | 0 <= e < 8 && 2 <= m <= 8 ::
      Run(v, idx / 8, idx % 8, e, PlayerValue(blackPlayer), 1, m) && o == Index(RayPos(idx / 8, idx % 8, e, m))
  {
    OriginsFromSound(v, idx / 8, idx % 8, PlayerValue(blackPlayer), 0, o);
  }

  /** Without an opponent piece no ray finds an origin: the early return agrees with the scan. */
  lemma NoOpponentNoOrigin(v: Vec, row: int, col: int, d: int, current: int)
    requires InBounds(row, col) && IsDirection(d)
    requires NoPieces(v, -current)
    ensures RayOrigin(v, row, col, d, current, 1, false).None?
  {
    var p := RayPos(row, col, d, 1);
    if InBounds(p.x, p.y) {
      assert v[Index(p)] != -current;
    }
  }

  lemma {:induction false} NoOpponentNoOrigins(v: Vec, row: int, col: int, current: int, d: nat)
    requires InBounds(row, col) && d <= 8
    requires NoPieces(v, -current)
    ensures OriginsFrom(v, row, col, current, d) == []
    decreases 8 - d
  {
    if d < 8 {
      NoOpponentNoOrigin(v, row, col, d, current);
      NoOpponentNoOrigins(v, row, col, current, d + 1);
    }
  }

  // ----- Agreement with Player.getAvailableMoves -----

  /** `v` holds the integer of every cell of `b`, cell (x, y) at index x * 8 + y. */
  ghost predicate Encodes(v: Vec, b: Grid)
  {
    forall c: Coord | InBounds(c.x, c.y) :: v[Index(c)] == Code(Cell(b, c.x, c.y))
  }

  /** A grid written as a vector. */
  function Encode(b: Grid): (v: Vec)
    ensures Encodes(v, b)
  {
    var v := seq(64, i requires 0 <= i < 64 => Code(Cell(b, i / 8, i % 8)));
    assert forall c: Coord | InBounds(c.x, c.y) :: Index(c) / 8 == c.x && Index(c) % 8 == c.y;
    v
  }

  /** The colour a player's integer stands for. */
  function Colour(blackPlayer: bool): SpaceType
  {
    if blackPlayer then Black else White
  }

  /** Against a player's disc, the integer of a cell tells own, opponent's and empty apart. */
  lemma CodeOfDiscs(t: SpaceType, mine: SpaceType)
    requires IsDisc(mine)
    ensures Code(t) == Code(mine) <==> t == mine
    ensures Code(t) == -Code(mine) <==> t == Opponent(mine)
    ensures Code(t) == 0 <==> t == Empty
  {
  }

  /** The flat indices of a list of cells. */
  function Indices(cs: seq<Coord>): (r: seq<int>)
    ensures |r| == |cs| && forall i | 0 <= i < |cs| :: r[i] == Index(cs[i])
  {
    seq(|cs|, i requires 0 <= i < |cs| => Index(cs[i]))
  }

  /**
   * On an encoded grid the Python ray walk stops where the Java run of opponent cells ends,
   * and finds an origin exactly when that cell is the player's and the run (or `found`) is not empty.
   */
  lemma {:induction false} RayOriginAgrees(v: Vec, b: Grid, x: int, y: int, d: int, mine: SpaceType, k: nat, found: bool)
    requires Encodes(v, b) && InBounds(x, y) && IsDirection(d) && 1 <= k <= 8 && IsDisc(mine)
    ensures var m := Moves.RunEnd(b, x, y, d, Opponent(mine), k);
      var p := RayPos(x, y, d, m);
      RayOrigin(v, x, y, d, Code(mine), k, found) ==
        if (found || m > k) && InBounds(p.x, p.y) && Cell(b, p.x, p.y) == mine then Some(Index(p)) else None
    decreases 8 - k
  {
    RayOriginStep(v, b, x, y, d, mine, k, found);
    if Moves.ColourAt(b, x, y, d, k, Opponent(mine)) {
      RayOriginAgrees(v, b, x, y, d, mine, k + 1, true);
    }
  }

  /** One step of the Python ray walk, read on the grid: skip an opponent disc, stop on anything else. */
  lemma RayOriginStep(v: Vec, b: Grid, x: int, y: int, d: int, mine: SpaceType, k: nat, found: bool)
    requires Encodes(v, b) && InBounds(x, y) && IsDirection(d) && 1 <= k <= 8 && IsDisc(mine)
    ensures var p := RayPos(x, y, d, k);
      RayOrigin(v, x, y, d, Code(mine), k, found) ==
        if Moves.ColourAt(b, x, y, d, k, Opponent(mine)) then
          (if k < 8 then RayOrigin(v, x, y, d, Code(mine), k + 1, true) else None)
        else if found && Moves.ColourAt(b, x, y, d, k, mine) then Some(Index(p))
        else None
  {
    var p := RayPos(x, y, d, k);
    DirectionsNonZero(d);
    if InBounds(p.x, p.y) {
      assert v[Index(p)] == Code(Cell(b, p.x, p.y));
      CodeOfDiscs(Cell(b, p.x, p.y), mine);
    }
  }

  /** The Python ray walk of one direction finds the flat index of the Java origin of that direction. */
  lemma DirOriginAgrees(v: Vec, b: Grid, x: int, y: int, d: int, mine: SpaceType)
    requires Encodes(v, b) && InBounds(x, y) && IsDirection(d) && IsDisc(mine)
    ensures RayOrigin(v, x, y, d, Code(mine), 1, false) ==
      if Moves.DirOrigin(b, x, y, d, mine).Some? then Some(Index(Moves.DirOrigin(b, x, y, d, mine).value)) else None
  {
    RayOriginAgrees(v, b, x, y, d, mine, 1, false);
  }

  /** The Python origins of a cell are the flat indices of the Java origins, in the same order. */
  lemma {:induction false} OriginsAgree(v: Vec, b: Grid, x: int, y: int, mine: SpaceType, d: nat)
    requires Encodes(v, b) && InBounds(x, y) && d <= 8 && IsDisc(mine)
    ensures OriginsFrom(v, x, y, Code(mine), d) == Indices(Moves.OriginsFrom(b, x, y, mine, d))
    decreases 8 - d
  {
    if d < 8 {
      var found := Moves.DirOrigin(b, x, y, d, mine);
      DirOriginAgrees(v, b, x, y, d, mine);
      OriginsAgree(v, b, x, y, mine, d + 1);
      if found.Some? {
        IndicesCons(found.value, Moves.OriginsFrom(b, x, y, mine, d + 1));
      }
    }
  }

  lemma IndicesCons(c: Coord, cs: seq<Coord>)
    ensures Indices([c] + cs) == [Index(c)] + Indices(cs)
  {
  }

  /**
   * get_legal_moves on an encoded grid lists the same destinations as getAvailableMoves for
   * the same colour, each with the same origins as flat indices.
   */
  lemma GetLegalMovesAgrees(b: Grid, blackPlayer: bool, idx: int)
    requires 0 <= idx < 64
    ensures idx in GetLegalMoves(Encode(b), blackPlayer) <==>
      Moves.CellAt(idx) in Moves.AvailableMoves(b, Colour(blackPlayer))
    ensures idx in GetLegalMoves(Encode(b), blackPlayer) ==>
      GetLegalMoves(Encode(b), blackPlayer)[idx] == Indices(Moves.AvailableMoves(b, Colour(blackPlayer))[Moves.CellAt(idx)])
  {
    var v := Encode(b);
    var mine := Colour(blackPlayer);
    var c := Moves.CellAt(idx);
    LegalKey(v, blackPlayer, idx);
    assert c in Moves.AvailableMoves(b, mine) <==> Moves.IsDestination(b, c, mine);
    CellAgrees(v, b, blackPlayer, idx);
  }

  /** A key of get_legal_moves, told apart from the comprehension that builds the map. */
  lemma LegalKey(v: Vec, blackPlayer: bool, idx: int)
    requires 0 <= idx < 64
    ensures var current := PlayerValue(blackPlayer);
      (idx in GetLegalMoves(v, blackPlayer) <==>
        !NoPieces(v, -current) && v[idx] == 0 && Origins(v, idx, current) != []) &&
      (idx in GetLegalMoves(v, blackPlayer) ==> GetLegalMoves(v, blackPlayer)[idx] == Origins(v, idx, current))
  {
  }

  /** Cell by cell, the Python test for a destination and its origins agree with the Java ones. */
  lemma CellAgrees(v: Vec, b: Grid, blackPlayer: bool, idx: int)
    requires Encodes(v, b) && 0 <= idx < 64
    ensures var c := Moves.CellAt(idx); var current := PlayerValue(blackPlayer);
      Origins(v, idx, current) == Indices(Moves.Origins(b, c.x, c.y, Colour(blackPlayer))) &&
      (!NoPieces(v, -current) && v[idx] == 0 && Origins(v, idx, current) != [] <==>
        Moves.IsDestination(b, c, Colour(blackPlayer)))
  {
    var mine := Colour(blackPlayer);
    var current := PlayerValue(blackPlayer);
    var c := Moves.CellAt(idx);
    assert Code(mine) == current;
    assert Index(c) == idx;
    CodeOfDiscs(Cell(b, c.x, c.y), mine);
    assert v[idx] == Code(Cell(b, c.x, c.y));
    OriginsAgree(v, b, c.x, c.y, mine, 0);
    if NoPieces(v, -current) {
      NoOpponentNoOrigins(v, c.x, c.y, current, 0);
    }
  }

  // ----- take_spaces -----

  /** Each step toward `o` brings the walk one king step closer. */
  lemma StepCloser(a: Coord, o: Coord)
    requires a != o
    ensures Cheb(StepToward(a, o), o) == Cheb(a, o) - 1
  {
  }

  /**
   * The flip loop: from `a`, while not at `o` and inside the board, set the cell to `player`
   * and step toward `o` along each coordinate that still differs.
   */
  function Fill(v: Vec, a: Coord, o: Coord, player: int): Vec
    decreases Cheb(a, o)
  {
    if a == o || !InBounds(a.x, a.y) then v
    else
      StepCloser(a, o);
      Fill(v[Index(a) := player], StepToward(a, o), o, player)
  }

  /** take_spaces(move, origin, board_vec, black_player): the board after the flip loop. */
  function TakeSpaces(move: int, origin: int, v: Vec, blackPlayer: bool): Vec
  {
    Fill(v, Coord(move / 8, move % 8), Coord(origin / 8, origin % 8), PlayerValue(blackPlayer))
  }

  /**
   * Between two cells of the board on one line, the flip loop sets exactly the cells from `a`
   * (inclusive) toward `o` (exclusive) and leaves every other cell as it was.
   */
  lemma {:induction false} FillPaintsSegment(v: Vec, a: Coord, o: Coord, player: int)
    requires InBounds(a.x, a.y) && InBounds(o.x, o.y) && Straight(a, o)
    ensures forall c: Coord | InBounds(c.x, c.y) ::
      Fill(v, a, o, player)[Index(c)] == if OnSegment(a, o, c) then player else v[Index(c)]
    decreases Cheb(a, o)
  {
    if a != o {
      var next := StepToward(a, o);
      var w := v[Index(a) := player];
      forall c: Coord | InBounds(c.x, c.y)
        ensures OnSegment(a, o, c) <==> c == a || OnSegment(next, o, c)
      {
        SegmentStep(a, o, c);
      }
      assert InBounds(next.x, next.y);
      FillPaintsSegment(w, next, o, player);
    }
  }

  /** A move onto its own origin changes nothing. */
  lemma TakeSpacesAtOrigin(move: int, v: Vec, blackPlayer: bool)
    ensures TakeSpaces(move, move, v, blackPlayer) == v
  {
  }

  // ----- The starting board -----

  /** The vector of game_to_samples before the first move: zeros, then the four centre cells. */
  function InitialVec(): Vec
  {
    seq(64, _ => 0)[27 := -1][28 := 1][35 := 1][36 := -1]
  }

  /** The integer a cell type is written as. */
  function Code(t: SpaceType): int
  {
    match t
    case Black => 1
    case White => -1
    case Empty => 0
  }

  /** The Python starting vector encodes the Java starting grid cell by cell. */
  lemma InitialVecMatchesGrid()
    ensures forall i, j | InBounds(i, j) :: InitialVec()[Index(Coord(i, j))] == Code(Cell(InitialGrid(), i, j))
  {
    InitialCells();
    forall i, j | InBounds(i, j)
      ensures InitialVec()[Index(Coord(i, j))] == Code(OpeningColour(i, j))
    {
    }
  }
}
