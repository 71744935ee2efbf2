/**
 * MinimaxStrategy.getBestMove: one child per available move under a root holding the current
 * state, MiniMax.search at depth 4 from a maximizing root with the window (-inf, +inf), and the
 * move of the first child of greatest score.
 */
module MinimaxStrategy {
  import opened Wrappers
  import opened Board
  import opened Game
  import opened GameStates
  import opened Evaluator
  import opened GameTree
  import MiniMax
  import opened Strategies

  const MaxDepth: int := 4

  /**
   * The evaluator passed to the search: WeightedEvaluator.evaluate of the state's board for
   * (currentPlayer, opponent) at a maximizing node and for (opponent, currentPlayer) otherwise.
   */
  function Perspective(current: Player, opponent: Player): (Position, bool) -> real
  {
    (p: Position, isMax: bool) =>
      if isMax then BoardScore(p.state.board, 8, current.color, opponent.color) as real
      else BoardScore(p.state.board, 8, opponent.color, current.color) as real
  }

  /** The root after MiniMax.search has recorded its scores. */
  function Searched(s: GameState, keys: seq<Coord>): Node<Position>
  {
    MiniMax.Search(BuildRoot(s, keys), MaxDepth, true, NegInf, PosInf, Perspective(s.current, s.opponent)).1
  }

  /**
   * getBestMove(game, currentPlayer, opponent): nothing when the current player has no move,
   * otherwise the move of the best-scored child, which is one of the available moves.
   */
  function GetBestMove(game: OthelloGame, current: Player, opponent: Player, keys: seq<Coord>): (r: Option<Coord>)
    requires IsEnumeration(keys, CurrentMoves(GameState(game.board, current, opponent)))
    ensures r.None? <==> CurrentMoves(GameState(game.board, current, opponent)) == map[]
    ensures r.Some? ==> r.value in CurrentMoves(GameState(game.board, current, opponent))
  {
    var s := GameState(game.board, current, opponent);
    if CurrentMoves(s) == map[] then None
    else
      ChildScores(s, keys);
      ChildLoopsPickAChild(Searched(s, keys));
      BestChildMove(Searched(s, keys))
  }

  /**
   * Every child of the searched root is a leaf scored once, from the opponent's side: its score
   * is the weighted evaluation of its board for (opponent, currentPlayer), and its data is kept.
   */
  lemma ChildScores(s: GameState, keys: seq<Coord>)
    requires keys != []
    ensures var r := Searched(s, keys);
      |r.children| == |keys| &&
      forall j | 0 <= j < |keys| ::
        r.children[j].data == Position(ApplyMove(s, keys[j]), Some(keys[j])) &&
        r.children[j].score == BoardScore(ApplyMove(s, keys[j]).board, 8, s.opponent.color, s.current.color) as real
  {
    MiniMax.FlatRootScores(BuildRoot(s, keys), MaxDepth, Perspective(s.current, s.opponent));
  }

  /**
   * Because applyMove leaves the board unchanged, every child scores the same and the strategy
   * always answers the first key of the enumeration.
   */
  lemma PicksFirstKey(game: OthelloGame, current: Player, opponent: Player, keys: seq<Coord>)
    requires IsEnumeration(keys, CurrentMoves(GameState(game.board, current, opponent)))
    requires CurrentMoves(GameState(game.board, current, opponent)) != map[]
    ensures keys != [] && GetBestMove(game, current, opponent, keys) == Some(keys[0])
  {
    var s := GameState(game.board, current, opponent);
    var c :| c in CurrentMoves(s);
    assert c in keys;
    ChildScores(s, keys);
    var r := Searched(s, keys);
    var v := BoardScore(s.board, 8, s.opponent.color, s.current.color) as real;
    assert forall j | 0 <= j < |keys| :: r.children[j].score == v;
    EqualScoresPickFirst(r);
    assert GetBestMove(game, current, opponent, keys) == BestChildMove(r);
  }
}
