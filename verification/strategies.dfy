/**
 * What MinimaxStrategy and MCTSStrategy share: the search root with one child per available
 * move, and the loops that read the chosen move back from the root's children.
 *
 * HashMap key order is not modelled: the caller passes `keys`, the key set of the moves map
 * enumerated once each, in whatever order the map yields them.
 */
module Strategies {
  import opened Wrappers
  import opened Board
  import opened GameTree
  import opened GameStates

  /** The data of a search node: a GameState, or a GameStateWithMove when `move` is present. */
  datatype Position = Position(state: GameState, move: Option<Coord>)

  /** `keys` lists every key of `m` exactly once. */
  predicate IsEnumeration(keys: seq<Coord>, m: map<Coord, seq<Coord>>)
  {
    (forall k | 0 <= k < |keys| :: keys[k] in m) &&
    (forall c | c in m :: c in keys) &&
    (forall j, k | 0 <= j < k < |keys| :: keys[j] != keys[k])
  }

  /** The child for `move`: the state after applyMove, tagged with the move. */
  function MoveChild(s: GameState, move: Coord): Node<Position>
  {
    NewNode(Position(ApplyMove(s, move), Some(move)))
  }

  /**
   * The root of getBestMove: a node holding the initial state, and for each key in turn
   * addChild of a new node holding applyMove(key) tagged with the key.
   */
  function BuildRoot(s: GameState, keys: seq<Coord>): (r: Node<Position>)
    ensures r.data == Position(s, None) && r.visits == 0
    ensures |r.children| == |keys|
    ensures forall j | 0 <= j < |keys| ::
      IsLeaf(r.children[j]) && r.children[j].visits == 0 &&
      r.children[j].data == Position(ApplyMove(s, keys[j]), Some(keys[j]))
  {
    if keys == [] then NewNode(Position(s, None))
    else AddChild(BuildRoot(s, keys[..|keys| - 1]), MoveChild(s, keys[|keys| - 1]))
  }

  /** The move stored with a child, as the instanceof GameStateWithMove test reads it. */
  function MoveOf(n: Node<Position>): Option<Coord>
  {
    n.data.move
  }

  function ScoreList(ns: seq<Node<Position>>): (r: seq<Bound>)
    ensures |r| == |ns| && forall j | 0 <= j < |ns| :: r[j] == Fin(ns[j].score)
  {
    seq(|ns|, j requires 0 <= j < |ns| => Fin(ns[j].score))
  }

  function VisitList(ns: seq<Node<Position>>): (r: seq<Bound>)
    ensures |r| == |ns| && forall j | 0 <= j < |ns| :: r[j] == Fin(ns[j].visits as real)
  {
    seq(|ns|, j requires 0 <= j < |ns| => Fin(ns[j].visits as real))
  }

  /**
   * getBestChildMove: the move of the first child of strictly greatest score (the loop starts
   * from -infinity), or nothing when the root has no children.
   */
  function BestChildMove(root: Node<Position>): (r: Option<Coord>)
    ensures root.children == [] ==> r == None
    ensures r.Some? ==> exists i | 0 <= i < |root.children| ::
      MoveOf(root.children[i]) == r &&
      (forall j | 0 <= j < |root.children| :: root.children[j].score <= root.children[i].score) &&
      (forall j | 0 <= j < i :: root.children[j].score < root.children[i].score)
  {
    if root.children == [] then None
    else match FirstMax(ScoreList(root.children), NegInf)
      case None => None
      case Some(i) => MoveOf(root.children[i])
  }

  /**
   * getMostVisitedChildMove: the move of the first child of greatest visit count (the loop
   * starts from -1), or nothing when the root has no children.
   */
  function MostVisitedChildMove(root: Node<Position>): (r: Option<Coord>)
    ensures root.children == [] ==> r == None
    ensures r.Some? ==> exists i | 0 <= i < |root.children| ::
      MoveOf(root.children[i]) == r &&
      (forall j | 0 <= j < |root.children| :: root.children[j].visits <= root.children[i].visits) &&
      (forall j | 0 <= j < i :: root.children[j].visits < root.children[i].visits)
  {
    if root.children == [] then None
    else match FirstMax(VisitList(root.children), Fin(-1.0))
      case None => None
      case Some(i) => MoveOf(root.children[i])
  }

  /** Every child of a root with children is a candidate: both loops then pick some child. */
  lemma ChildLoopsPickAChild(root: Node<Position>)
    requires root.children != []
    ensures FirstMax(ScoreList(root.children), NegInf).Some?
    ensures FirstMax(VisitList(root.children), Fin(-1.0)).Some?
  {
    assert !Le(ScoreList(root.children)[0], NegInf);
    assert !Le(VisitList(root.children)[0], Fin(-1.0));
  }

  /** When child j carries the move keys[j], both loops answer one of the keys, and some key if there is one. */
  lemma ChosenMoveIsKey(root: Node<Position>, keys: seq<Coord>)
    requires |root.children| == |keys|
    requires forall j | 0 <= j < |keys| :: MoveOf(root.children[j]) == Some(keys[j])
    ensures keys != [] <==> BestChildMove(root).Some?
    ensures keys != [] <==> MostVisitedChildMove(root).Some?
    ensures BestChildMove(root).Some? ==> BestChildMove(root).value in keys
    ensures MostVisitedChildMove(root).Some? ==> MostVisitedChildMove(root).value in keys
  {
    if keys != [] {
      ChildLoopsPickAChild(root);
    }
  }

  /** When every child has the same score, getBestChildMove takes the first child's move. */
  lemma EqualScoresPickFirst(root: Node<Position>)
    requires root.children != []
    requires forall j | 0 <= j < |root.children| :: root.children[j].score == root.children[0].score
    ensures BestChildMove(root) == MoveOf(root.children[0])
  {
    ChildLoopsPickAChild(root);
  }

  // ----- A board has at most 64 cells -----

  /** The integers from 0 up to, not including, `n`. */
  function Range(n: nat): (r: set<int>)
    ensures forall k :: k in r <==> 0 <= k < n
  {
    if n == 0 then {} else Range(n - 1) + {n - 1}
  }

  lemma {:induction false} RangeSize(n: nat)
    ensures |Range(n)| == n
  {
    if n > 0 {
      RangeSize(n - 1);
    }
  }

  /** A subset is no larger than its superset. */
  lemma SubsetSize(a: set<int>, b: set<int>)
    requires a <= b
    ensures |a| <= |b|
  {
    assert b == a + (b - a);
    assert a * (b - a) == {};
  }

  /** Distinct values have as many elements in their set as in their list. */
  lemma {:induction false} DistinctSize(xs: seq<int>)
    requires forall i, j | 0 <= i < j < |xs| :: xs[i] != xs[j]
    ensures |set i | 0 <= i < |xs| :: xs[i]| == |xs|
    decreases |xs|
  {
    if xs != [] {
      var m := |xs| - 1;
      DistinctSize(xs[..m]);
      assert (set i | 0 <= i < |xs| :: xs[i]) == (set i | 0 <= i < m :: xs[..m][i]) + {xs[m]};
      assert xs[m] !in (set i | 0 <= i < m :: xs[..m][i]);
    }
  }

  /** Distinct values below `n` number at most `n`. */
  lemma Pigeonhole(xs: seq<int>, n: nat)
    requires forall i | 0 <= i < |xs| :: 0 <= xs[i] < n
    requires forall i, j | 0 <= i < j < |xs| :: xs[i] != xs[j]
    ensures |xs| <= n
  {
    DistinctSize(xs);
    RangeSize(n);
    SubsetSize(set i | 0 <= i < |xs| :: xs[i], Range(n));
  }

  /** An enumeration of the moves on a board lists at most 64 cells. */
  lemma EnumerationFitsBoard(keys: seq<Coord>, m: map<Coord, seq<Coord>>)
    requires IsEnumeration(keys, m)
    requires forall c | c in m :: InBounds(c.x, c.y)
    ensures |keys| <= Board.Size * Board.Size
  {
    var xs := seq(|keys|, i requires 0 <= i < |keys| => keys[i].x * Board.Size + keys[i].y);
    assert forall i, j | 0 <= i < j < |xs| :: xs[i] != xs[j];
    Pigeonhole(xs, Board.Size * Board.Size);
  }
}
