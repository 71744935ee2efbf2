/**
 * GameTreeNode: the search tree shared by minimax, expectimax and Monte Carlo tree search.
 * A node owns its children by value; the Java parent pointer is the enclosing node, and a
 * node inside a tree is addressed by the path of child indices leading to it from the root.
 */
module GameTree {
  import opened Wrappers

  /** A double that may be -infinity or +infinity, as used for alpha, beta and UCB1. */
  datatype Bound = NegInf | Fin(v: real) | PosInf

  predicate Le(a: Bound, b: Bound)
  {
    match (a, b)
    case (NegInf, _) => true
    case (_, PosInf) => true
    case (Fin(x), Fin(y)) => x <= y
    case _ => false
  }

  predicate Lt(a: Bound, b: Bound)
  {
    !Le(b, a)
  }

  /** Math.max on extended reals. */
  function BMax(a: Bound, b: Bound): (r: Bound)
    ensures Le(a, r) && Le(b, r)
    ensures r == a || r == b
  {
    if Le(a, b) then b else a
  }

  /** Math.min on extended reals. */
  function BMin(a: Bound, b: Bound): (r: Bound)
    ensures Le(r, a) && Le(r, b)
    ensures r == a || r == b
  {
    if Le(a, b) then a else b
  }

  /** The fields of a GameTreeNode other than the parent pointer. */
  datatype Node<T> = Node(data: T, children: seq<Node<T>>, score: real,
                          alpha: Bound, beta: Bound, visits: nat, totalScore: real)

  /** new GameTreeNode(data): no children, score 0, window (-inf, +inf), no visits. */
  function NewNode<T>(data: T): (n: Node<T>)
    ensures n.data == data && IsLeaf(n)
    ensures n.alpha == NegInf && n.beta == PosInf
    ensures n.visits == 0 && n.totalScore == 0.0 && n.score == 0.0
  {
    Node(data, [], 0.0, NegInf, PosInf, 0, 0.0)
  }

  predicate IsLeaf<T>(n: Node<T>)
  {
    n.children == []
  }

  /** addChild: the child goes to the end of the list; nothing else changes. */
  function AddChild<T>(n: Node<T>, child: Node<T>): (r: Node<T>)
    ensures |r.children| == |n.children| + 1 && r.children[|n.children|] == child
    ensures r.children[..|n.children|] == n.children
    ensures r == n.(children := r.children)
  {
    n.(children := n.children + [child])
  }

  /** incrementVisits: one more visit, nothing else changes. */
  function IncrementVisits<T>(n: Node<T>): (r: Node<T>)
    ensures r.visits == n.visits + 1
    ensures r == n.(visits := r.visits)
  {
    n.(visits := n.visits + 1)
  }

  /** addScore: the simulation score is added to the running total, nothing else changes. */
  function AddScore<T>(n: Node<T>, s: real): (r: Node<T>)
    ensures r.totalScore == n.totalScore + s
    ensures r == n.(totalScore := r.totalScore)
  {
    n.(totalScore := n.totalScore + s)
  }

  /**
   * getUCB1.  The exploration term c * sqrt(ln(parentVisits) / visits) is the caller's
   * `explore` function; only the unvisited case is fixed: +infinity.
   */
  function Ucb1<T>(n: Node<T>, parentVisits: nat, explore: (nat, nat) -> real): (r: Bound)
    ensures n.visits == 0 <==> r == PosInf
  {
    if n.visits == 0 then PosInf
    else Fin(n.totalScore / (n.visits as real) + explore(parentVisits, n.visits))
  }

  /** `b` is `a` with (possibly) different scores recorded, and nothing else changed. */
  predicate SameButScores<T(==)>(a: Node<T>, b: Node<T>)
  {
    a.data == b.data && a.alpha == b.alpha && a.beta == b.beta &&
    a.visits == b.visits && a.totalScore == b.totalScore &&
    |a.children| == |b.children| &&
    forall j | 0 <= j < |a.children| :: SameButScores(a.children[j], b.children[j])
  }

  lemma {:induction false} SameButScoresReflexive<T>(n: Node<T>)
    ensures SameButScores(n, n)
    ensures forall j | 0 <= j < |n.children| :: SameButScores(n.children[j], n.children[j])
    decreases n, 1
  {
    forall j | 0 <= j < |n.children|
      ensures SameButScores(n.children[j], n.children[j])
    {
      SameButScoresReflexive(n.children[j]);
    }
  }

  /** The number of nodes in a tree. */
  function Size<T>(n: Node<T>): (r: nat)
    ensures r >= 1
  {
    1 + SizeOf(n.children)
  }

  function SizeOf<T>(ns: seq<Node<T>>): (r: nat)
    ensures r >= |ns|
  {
    if ns == [] then 0 else Size(ns[0]) + SizeOf(ns[1..])
  }

  /** Incrementing visits and adding a score commute, and neither touches the tree shape. */
  lemma BookkeepingCommutes<T>(n: Node<T>, s: real)
    ensures IncrementVisits(AddScore(n, s)) == AddScore(IncrementVisits(n), s)
    ensures IncrementVisits(n).children == n.children && AddScore(n, s).children == n.children
  {
  }

  lemma SizeOfAppend<T>(ns: seq<Node<T>>, m: Node<T>)
    ensures SizeOf(ns + [m]) == SizeOf(ns) + Size(m)
  {
    if ns != [] {
      assert (ns + [m])[1..] == ns[1..] + [m];
      SizeOfAppend(ns[1..], m);
    }
  }

  /** Adding a new child adds exactly one node to the tree. */
  lemma AddChildSize<T>(n: Node<T>, data: T)
    ensures Size(AddChild(n, NewNode(data))) == Size(n) + 1
  {
    SizeOfAppend(n.children, NewNode(data));
  }

  /** Replacing one node of a list changes the size by the difference of the two subtrees. */
  lemma {:induction false} SizeOfUpdate<T>(ns: seq<Node<T>>, j: nat, m: Node<T>)
    requires j < |ns|
    ensures SizeOf(ns[j := m]) == SizeOf(ns) - Size(ns[j]) + Size(m)
    decreases |ns|
  {
    if j > 0 {
      assert ns[j := m][1..] == ns[1..][j - 1 := m];
      SizeOfUpdate(ns[1..], j - 1, m);
    } else {
      assert ns[j := m][1..] == ns[1..];
    }
  }

  /**
   * The loop shared by getBestChildMove, getMostVisitedChildMove, mapToMove and the UCB1 step of
   * MCTS selection: start from `floor`, and take an element whenever it is strictly greater than
   * the best so far.  The result is the first position of a maximum, if that maximum beats `floor`.
   */
  function FirstMax(xs: seq<Bound>, floor: Bound): (r: Option<nat>)
    ensures r.None? <==> forall j | 0 <= j < |xs| :: Le(xs[j], floor)
    ensures r.Some? ==> r.value < |xs| && Lt(floor, xs[r.value])
    ensures r.Some? ==> forall j | 0 <= j < |xs| :: Le(xs[j], xs[r.value])
    ensures r.Some? ==> forall j | 0 <= j < r.value :: Lt(xs[j], xs[r.value])
  {
    if xs == [] then None
    else
      var m := FirstMax(xs[..|xs| - 1], floor);
      var best := if m.None? then floor else xs[m.value];
      if Lt(best, xs[|xs| - 1]) then Some(|xs| - 1) else m
  }
}
