/**
 * MCTSStrategy: the root with one child per available move, MonteCarloTreeSearch.search with
 * 1000 simulations, random playouts of at most 100 moves, the piece-count result of a finished
 * playout, and the move of the most visited child.
 *
 * Random draws are parameters: `picks(i)` is the draw of select in simulation `i`, and
 * `draws(i, m)` the random.nextInt of the playout of simulation `i` while `m` moves remain.
 */
module MctsStrategy {
  import opened Wrappers
  import opened Board
  import opened Moves
  import opened Game
  import opened GameStates
  import GameTree
  import Mcts
  import opened Strategies

  const SimulationCount: int := 1000
  const MoveLimit: int := 100

  // ----- Counting pieces -----

  /** The number of cells of colour `c` in row `i`, columns 0 to `j` - 1. */
  function RowCount(b: Grid, c: SpaceType, i: int, j: nat): (r: nat)
    requires 0 <= i < Size && j <= Size
    ensures r <= j
  {
    if j == 0 then 0 else RowCount(b, c, i, j - 1) + (if Cell(b, i, j - 1) == c then 1 else 0)
  }

  /** The number of cells of colour `c` in rows 0 to `i` - 1. */
  function RowsCount(b: Grid, c: SpaceType, i: nat): nat
    requires i <= Size
  {
    if i == 0 then 0 else RowsCount(b, c, i - 1) + RowCount(b, c, i - 1, Size)
  }

  /** The number of cells of colour `c` on the whole board. */
  function Count(b: Grid, c: SpaceType): nat
  {
    RowsCount(b, c, Size)
  }

  /** The counting loops of getGameResult: BLACK cells for player one, WHITE cells for player two. */
  method CountPieces(b: Grid) returns (playerOneCount: nat, playerTwoCount: nat)
    ensures playerOneCount == Count(b, Black)
    ensures playerTwoCount == Count(b, White)
  {
    playerOneCount, playerTwoCount := 0, 0;
    var i := 0;
    while i < Size
      invariant 0 <= i <= Size
      invariant playerOneCount == RowsCount(b, Black, i)
      invariant playerTwoCount == RowsCount(b, White, i)
    {
      var j := 0;
      while j < Size
        invariant 0 <= j <= Size
        invariant playerOneCount == RowsCount(b, Black, i) + RowCount(b, Black, i, j)
        invariant playerTwoCount == RowsCount(b, White, i) + RowCount(b, White, i, j)
      {
        if b[i][j] == Black {
          playerOneCount := playerOneCount + 1;
        } else if b[i][j] == White {
          playerTwoCount := playerTwoCount + 1;
        }
        j := j + 1;
      }
      i := i + 1;
    }
  }

  /** Every cell is empty, black or white: the three counts share out each row. */
  lemma {:induction false} RowPartition(b: Grid, i: int, j: nat)
    requires 0 <= i < Size && j <= Size
    ensures RowCount(b, Black, i, j) + RowCount(b, White, i, j) + RowCount(b, Empty, i, j) == j
  {
    if j > 0 {
      RowPartition(b, i, j - 1);
    }
  }

  /** ... and so the first `i` rows, and the board: the counts of the three kinds add up to 64. */
  lemma {:induction false} CountsPartition(b: Grid, i: nat)
    requires i <= Size
    ensures RowsCount(b, Black, i) + RowsCount(b, White, i) + RowsCount(b, Empty, i) == i * Size
  {
    if i > 0 {
      CountsPartition(b, i - 1);
      RowPartition(b, i - 1, Size);
    }
  }

  // ----- The result of a playout -----

  /** The colour getGameResult plays for: the current player's when maximizing, else the opponent's. */
  function MaximizerColour(s: GameState, isMax: bool): SpaceType
  {
    if isMax then s.current.color else s.opponent.color
  }

  /**
   * getGameResult: 1 when the maximizing side won, else 0.  Player one (BLACK) wins on strictly
   * more discs; when the maximizing side is not BLACK it wins whenever BLACK does not, ties
   * included.
   */
  function GameResult(s: GameState, isMax: bool): (r: real)
    ensures r == 0.0 || r == 1.0
    ensures MaximizerColour(s, isMax) == Black ==> (r == 1.0 <==> Count(s.board, Black) > Count(s.board, White))
    ensures MaximizerColour(s, isMax) != Black ==> (r == 1.0 <==> Count(s.board, Black) <= Count(s.board, White))
  {
    var playerOneWon := Count(s.board, Black) > Count(s.board, White);
    var isMaximizingPlayerOne := (isMax && s.current.color == Black) || (!isMax && s.opponent.color == Black);
    var maximizingPlayerWon := (isMaximizingPlayerOne && playerOneWon) || (!isMaximizingPlayerOne && !playerOneWon);
    if maximizingPlayerWon then 1.0 else 0.0
  }

  /** Between a BLACK and a WHITE player, the side with more discs scores 1 and the other 0. */
  lemma MoreDiscsWins(s: GameState, isMax: bool)
    requires {s.current.color, s.opponent.color} == {Black, White}
    ensures var mine := MaximizerColour(s, isMax);
      (Count(s.board, mine) > Count(s.board, Opponent(mine)) ==> GameResult(s, isMax) == 1.0) &&
      (Count(s.board, mine) < Count(s.board, Opponent(mine)) ==> GameResult(s, isMax) == 0.0)
  {
    assert s.current.color == Black || s.current.color == White by {
      assert s.current.color in {Black, White};
    }
    assert s.opponent.color == Black || s.opponent.color == White by {
      assert s.opponent.color in {Black, White};
    }
  }

  /** Between a BLACK and a WHITE player, the two perspectives of one playout score 1 in total. */
  lemma PerspectivesComplement(s: GameState)
    requires {s.current.color, s.opponent.color} == {Black, White}
    ensures GameResult(s, true) + GameResult(s, false) == 1.0
  {
    assert s.current.color == Black || s.current.color == White by {
      assert s.current.color in {Black, White};
    }
    assert s.opponent.color != s.current.color by {
      assert s.opponent.color in {Black, White};
    }
  }

  /** A drawn board counts as a win for WHITE and a loss for BLACK. */
  lemma TieFavoursWhite(s: GameState, isMax: bool)
    requires Count(s.board, Black) == Count(s.board, White)
    ensures GameResult(s, isMax) == 1.0 <==> MaximizerColour(s, isMax) != Black
  {
  }

  // ----- Random playout -----

  /** The destinations among the first `n` cells, in row-major order: the list a move is drawn from. */
  function MoveListUpTo(b: Grid, mine: SpaceType, n: nat): (r: seq<Coord>)
    requires n <= Size * Size
    ensures forall c :: c in r <==> IsDestination(b, c, mine) && RowMajor(c) < n
  {
    if n == 0 then []
    else
      var c := CellAt(n - 1);
      assert forall e :: IsDestination(b, e, mine) && RowMajor(e) == n - 1 ==> e == c by {
        forall e | IsDestination(b, e, mine) && RowMajor(e) == n - 1 {
          RowMajorInjective(e, c);
        }
      }
      MoveListUpTo(b, mine, n - 1) + (if IsDestination(b, c, mine) then [c] else [])
  }

  /** The moves of the player to move, as a list. */
  function MoveList(s: GameState): (r: seq<Coord>)
    ensures forall c :: c in r <==> c in CurrentMoves(s)
    ensures r == [] <==> CurrentMoves(s) == map[]
  {
    var r := MoveListUpTo(s.board, s.current.color, Size * Size);
    assert forall c :: IsDestination(s.board, c, s.current.color) ==> RowMajor(c) < Size * Size;
    if r == [] then r
    else
      assert r[0] in CurrentMoves(s);
      r
  }

  /**
   * One iteration of simulateRandomGame's loop on a game that is not over: a player without a
   * move passes (swapPlayers); otherwise the move drawn from the list is applied.  Either way
   * the board is kept and the roles are exchanged, and after a pass the new player can move.
   */
  function Step(s: GameState, moveLimit: int, draw: int -> nat): (r: GameState)
    requires !IsGameOver(s)
    ensures r == SwapPlayers(s)
    ensures CurrentMoves(s) == map[] ==> CurrentMoves(r) != map[]
  {
    if CurrentMoves(s) == map[] then SwapPlayers(s)
    else
      var moves := MoveList(s);
      var move := moves[draw(moveLimit) % |moves|];
      assert move in CurrentMoves(s);
      ApplyMove(s, move)
  }

  /**
   * simulateRandomGame's loop with `moveLimit` moves left: stop when the game is over or no move
   * is left; a pass keeps the limit, a move lowers it by one.  The second component counts the
   * moves applied.
   */
  function Playout(s: GameState, moveLimit: int, draw: int -> nat): (r: (GameState, nat))
    decreases 2 * (if moveLimit > 0 then moveLimit else 0) + (if CurrentMoves(s) == map[] then 1 else 0)
  {
    if IsGameOver(s) || moveLimit <= 0 then (s, 0)
    else
      var passes := CurrentMoves(s) == map[];
      var rest := Playout(Step(s, moveLimit, draw), if passes then moveLimit else moveLimit - 1, draw);
      (rest.0, if passes then rest.1 else rest.1 + 1)
  }

  /**
   * A playout keeps the board (applyMove places no disc), never changes whether the game is
   * over, and only ever exchanges the two players.
   */
  lemma {:induction false} PlayoutKeepsBoard(s: GameState, moveLimit: int, draw: int -> nat)
    ensures var r := Playout(s, moveLimit, draw).0;
      r.board == s.board && (IsGameOver(r) <==> IsGameOver(s)) &&
      ((r.current == s.current && r.opponent == s.opponent) ||
       (r.current == s.opponent && r.opponent == s.current))
    decreases 2 * (if moveLimit > 0 then moveLimit else 0) + (if CurrentMoves(s) == map[] then 1 else 0)
  {
    if !IsGameOver(s) && moveLimit > 0 {
      var next := Step(s, moveLimit, draw);
      GameOverSwapInvariant(s);
      PlayoutKeepsBoard(next, if CurrentMoves(s) == map[] then moveLimit else moveLimit - 1, draw);
    }
  }

  /** Unless the game is already over, a playout makes all `moveLimit` moves. */
  lemma {:induction false} PlayoutLength(s: GameState, moveLimit: int, draw: int -> nat)
    ensures Playout(s, moveLimit, draw).1 == (if IsGameOver(s) || moveLimit <= 0 then 0 else moveLimit)
    decreases 2 * (if moveLimit > 0 then moveLimit else 0) + (if CurrentMoves(s) == map[] then 1 else 0)
  {
    if !IsGameOver(s) && moveLimit > 0 {
      var next := Step(s, moveLimit, draw);
      GameOverSwapInvariant(s);
      PlayoutLength(next, if CurrentMoves(s) == map[] then moveLimit else moveLimit - 1, draw);
    }
  }

  /** simulateRandomGame: a playout of at most 100 moves. */
  function SimulateRandomGame(s: GameState, draw: int -> nat): GameState
  {
    Playout(s, MoveLimit, draw).0
  }

  /** The simulator handed to the search: simulation `i` plays out the node's state with its own draws. */
  function Simulator(draws: (nat, int) -> nat): (nat, Position) -> Position
  {
    (i: nat, p: Position) => p.(state := SimulateRandomGame(p.state, (m: int) => draws(i, m)))
  }

  /** The evaluator handed to the search. */
  function Evaluation(): (Position, bool) -> real
  {
    (p: Position, isMax: bool) => GameResult(p.state, isMax)
  }

  // ----- getBestMove -----

  /** The root after MonteCarloTreeSearch.search has run its simulations. */
  function Searched(s: GameState, keys: seq<Coord>, picks: nat -> nat, explore: (nat, nat) -> real,
                    draws: (nat, int) -> nat): GameTree.Node<Position>
  {
    Mcts.Search(BuildRoot(s, keys), SimulationCount, picks, explore, Simulator(draws), Evaluation())
  }

  /** The search keeps the root's children: one per key, each with the data it was built with. */
  lemma SearchedChildren(s: GameState, keys: seq<Coord>, picks: nat -> nat, explore: (nat, nat) -> real,
                         draws: (nat, int) -> nat)
    requires keys != []
    ensures var root := Searched(s, keys, picks, explore, draws);
      |root.children| == |keys| &&
      forall j | 0 <= j < |keys| :: root.children[j].data == BuildRoot(s, keys).children[j].data
  {
    Mcts.SearchKeepsRootChildren(BuildRoot(s, keys), SimulationCount, picks, explore, Simulator(draws), Evaluation());
  }

  /**
   * getBestMove(game, currentPlayer, opponent): nothing when the current player has no move,
   * otherwise the move of the most visited child, which is one of the available moves.
   */
  function GetBestMove(game: OthelloGame, current: Player, opponent: Player, keys: seq<Coord>,
                       picks: nat -> nat, explore: (nat, nat) -> real, draws: (nat, int) -> nat): (r: Option<Coord>)
    requires IsEnumeration(keys, CurrentMoves(GameState(game.board, current, opponent)))
    ensures r.None? <==> CurrentMoves(GameState(game.board, current, opponent)) == map[]
    ensures r.Some? ==> r.value in CurrentMoves(GameState(game.board, current, opponent))
  {
    var s := GameState(game.board, current, opponent);
    if CurrentMoves(s) == map[] then None
    else
      var root := Searched(s, keys, picks, explore, draws);
      assert keys[0] in CurrentMoves(s);
      SearchedChildren(s, keys, picks, explore, draws);
      ChosenMoveIsKey(root, keys);
      MostVisitedChildMove(root)
  }

  /** With a single available move, that move is the answer. */
  lemma SingleMoveReturned(game: OthelloGame, current: Player, opponent: Player, move: Coord,
                           picks: nat -> nat, explore: (nat, nat) -> real, draws: (nat, int) -> nat)
    requires CurrentMoves(GameState(game.board, current, opponent)).Keys == {move}
    ensures GetBestMove(game, current, opponent, [move], picks, explore, draws) == Some(move)
  {
    assert move in CurrentMoves(GameState(game.board, current, opponent));
  }

  /**
   * A board has at most 64 destinations, fewer than the 1000 simulations, so the search visits
   * the child of every available move at least once.
   */
  lemma EveryMoveExplored(s: GameState, keys: seq<Coord>, picks: nat -> nat, explore: (nat, nat) -> real,
                          draws: (nat, int) -> nat)
    requires IsEnumeration(keys, CurrentMoves(s)) && keys != []
    ensures var root := Searched(s, keys, picks, explore, draws);
      |root.children| == |keys| && forall j | 0 <= j < |keys| :: root.children[j].visits > 0
  {
    EnumerationFitsBoard(keys, CurrentMoves(s));
    Mcts.SearchVisitsEveryRootChild(BuildRoot(s, keys), SimulationCount, picks, explore, Simulator(draws), Evaluation());
  }
}
