/**
 * MonteCarloTreeSearch: selection, one-node expansion, backpropagation, repeated for a number
 * of simulations.  The tree is a value: a node inside it is addressed by the path of child
 * indices from the root, and the Java parent chain is that path read backwards.
 *
 * Randomness and floating-point functions are parameters:
 *  - `pick` stands for random.nextInt in select; it is reduced modulo the number of unvisited
 *    children, so every choice of one of them is covered;
 *  - `explore(parentVisits, visits)` is the exploration term of getUCB1, with the exploration
 *    parameter folded in;
 *  - `simulate` and `eval` are the simulator and evaluator the caller passes in.
 */
module Mcts {
  import opened Wrappers
  import opened GameTree

  /** `p` leads from `n` to a node of its tree. */
  predicate ValidPath<T>(n: Node<T>, p: seq<nat>)
    decreases |p|
  {
    p == [] || (p[0] < |n.children| && ValidPath(n.children[p[0]], p[1..]))
  }

  function NodeAt<T>(n: Node<T>, p: seq<nat>): Node<T>
    requires ValidPath(n, p)
    decreases |p|
  {
    if p == [] then n else NodeAt(n.children[p[0]], p[1..])
  }

  /** The positions of the children with no visits, in list order. */
  function Unvisited<T>(ns: seq<Node<T>>): (r: seq<nat>)
    ensures forall k | 0 <= k < |r| :: r[k] < |ns| && ns[r[k]].visits == 0
    ensures forall j | 0 <= j < |ns| && ns[j].visits == 0 :: j in r
  {
    if ns == [] then []
    else Unvisited(ns[..|ns| - 1]) + (if ns[|ns| - 1].visits == 0 then [|ns| - 1] else [])
  }

  /** getUCB1 of every child, with the parent's visit count. */
  function Ucbs<T>(ns: seq<Node<T>>, parentVisits: nat, explore: (nat, nat) -> real): (r: seq<Bound>)
    ensures |r| == |ns|
    ensures forall j | 0 <= j < |ns| :: r[j] == Ucb1(ns[j], parentVisits, explore)
  {
    seq(|ns|, j requires 0 <= j < |ns| => Ucb1(ns[j], parentVisits, explore))
  }

  /**
   * select: stop at a leaf; at a node with unvisited children return one of them; otherwise
   * descend to the first child of greatest UCB1 value.
   */
  function Select<T>(n: Node<T>, pick: nat, explore: (nat, nat) -> real): (p: seq<nat>)
    ensures ValidPath(n, p)
    ensures IsLeaf(NodeAt(n, p)) || (p != [] && NodeAt(n, p).visits == 0)
    ensures Unvisited(n.children) != [] ==> |p| == 1 && n.children[p[0]].visits == 0
    ensures p != [] && Unvisited(n.children) == [] ==>
      forall j | 0 <= j < |n.children| ::
        Le(Ucb1(n.children[j], n.visits, explore), Ucb1(n.children[p[0]], n.visits, explore))
    decreases n
  {
    if IsLeaf(n) then []
    else
      var u := Unvisited(n.children);
      if u != [] then [u[pick % |u|]]
      else
        var ucbs := Ucbs(n.children, n.visits, explore);
        match FirstMax(ucbs, NegInf)
        case None => []
        case Some(b) =>
          var rest := Select(n.children[b], pick, explore);
          assert ([b] + rest)[1..] == rest;
          [b] + rest
  }

  /**
   * One step of select at node `m` taking child `b`, `last` telling whether the path ends
   * there: with unvisited children the step takes one of them and ends the path; otherwise it
   * takes a child of greatest UCB1 and the path may go on.
   */
  predicate SelectStep<T>(m: Node<T>, b: nat, last: bool, explore: (nat, nat) -> real)
  {
    b < |m.children| &&
    (Unvisited(m.children) != [] ==> last && m.children[b].visits == 0) &&
    (Unvisited(m.children) == [] ==>
      forall j | 0 <= j < |m.children| ::
        Le(Ucb1(m.children[j], m.visits, explore), Ucb1(m.children[b], m.visits, explore)))
  }

  /**
   * Selection re-checks every node on its way down: each step of the selected path is a
   * select step at the node it leaves, so every node the path passes through has all its
   * children visited and the path descends by greatest UCB1.
   */
  lemma {:induction false} SelectDescendsThroughVisited<T>(n: Node<T>, pick: nat, explore: (nat, nat) -> real, k: nat)
    requires k < |Select(n, pick, explore)|
    ensures var p := Select(n, pick, explore);
      ValidPath(n, p[..k]) && SelectStep(NodeAt(n, p[..k]), p[k], k + 1 == |p|, explore)
    decreases k
  {
    var p := Select(n, pick, explore);
    if k == 0 {
      assert p[..0] == [];
    } else {
      SelectCons(n, pick, explore);
      SelectDescendsThroughVisited(n.children[p[0]], pick, explore, k - 1);
      StepThroughChild(n, p, k, explore);
    }
  }

  /** A path that goes on past the root's child passes through a root with every child visited. */
  lemma SelectCons<T>(n: Node<T>, pick: nat, explore: (nat, nat) -> real)
    requires |Select(n, pick, explore)| > 1
    ensures var p := Select(n, pick, explore);
      Unvisited(n.children) == [] && p[0] < |n.children| && p[1..] == Select(n.children[p[0]], pick, explore)
  {
  }

  /** A select step `k` - 1 steps into the first child is step `k` of the whole path. */
  lemma StepThroughChild<T>(n: Node<T>, p: seq<nat>, k: nat, explore: (nat, nat) -> real)
    requires 0 < k < |p| && p[0] < |n.children|
    requires var c, rest := n.children[p[0]], p[1..];
      ValidPath(c, rest[..k - 1]) && SelectStep(NodeAt(c, rest[..k - 1]), rest[k - 1], k == |rest|, explore)
    ensures ValidPath(n, p[..k]) && SelectStep(NodeAt(n, p[..k]), p[k], k + 1 == |p|, explore)
  {
    assert p[..k][1..] == p[1..][..k - 1];
  }

  /** In a node whose children are all visited, the UCB1 step always finds a child. */
  lemma UcbStepFindsChild<T>(n: Node<T>, explore: (nat, nat) -> real)
    requires !IsLeaf(n) && Unvisited(n.children) == []
    ensures FirstMax(Ucbs(n.children, n.visits, explore), NegInf).Some?
  {
    assert n.children[0].visits != 0;
    assert !Le(Ucbs(n.children, n.visits, explore)[0], NegInf);
  }

  /** expand: the node at `p` gets one new child carrying its data. */
  function Expand<T>(n: Node<T>, p: seq<nat>): (r: Node<T>)
    requires ValidPath(n, p)
    ensures ValidPath(r, p)
    ensures NodeAt(r, p) == AddChild(NodeAt(n, p), NewNode(NodeAt(n, p).data))
    ensures Size(r) == Size(n) + 1
    ensures r.data == n.data && r.visits == n.visits && r.totalScore == n.totalScore
    ensures |r.children| == |n.children| + (if p == [] then 1 else 0)
    ensures forall j | 0 <= j < |n.children| ::
      r.children[j].data == n.children[j].data && r.children[j].visits == n.children[j].visits
    decreases |p|
  {
    if p == [] then
      AddChildSize(n, n.data);
      AddChild(n, NewNode(n.data))
    else
      var c := Expand(n.children[p[0]], p[1..]);
      SizeOfUpdate(n.children, p[0], c);
      var r := n.(children := n.children[p[0] := c]);
      assert r.children[p[0]] == c;
      r
  }

  /**
   * backpropagate: every node on the path from the root to the expanded node (the end of `p`)
   * gets one visit and the evaluator's score of `result`; the expanded node is scored as the
   * maximizing player and the perspective alternates on the way up, so a node `k` steps above
   * the expanded node is scored with `k % 2 == 0`.
   */
  function Backprop<T, R>(n: Node<T>, p: seq<nat>, result: R, eval: (R, bool) -> real): (r: Node<T>)
    requires ValidPath(n, p)
    ensures ValidPath(r, p)
    ensures r.visits == n.visits + 1
    ensures r.totalScore == n.totalScore + eval(result, |p| % 2 == 0)
    ensures r.data == n.data && |r.children| == |n.children|
    ensures forall j | 0 <= j < |n.children| && (p == [] || j != p[0]) :: r.children[j] == n.children[j]
    ensures p != [] ==> r.children[p[0]].visits == n.children[p[0]].visits + 1
    ensures forall j | 0 <= j < |n.children| :: r.children[j].data == n.children[j].data
    ensures Size(r) == Size(n)
    decreases |p|
  {
    var here := AddScore(IncrementVisits(n), eval(result, |p| % 2 == 0));
    if p == [] then here
    else
      var c := Backprop(n.children[p[0]], p[1..], result, eval);
      SizeOfUpdate(n.children, p[0], c);
      var r := here.(children := n.children[p[0] := c]);
      assert r.children[p[0]] == c;
      r
  }

  /** One simulation: select, expand, simulate from the new node's data, backpropagate. */
  function Simulation<T>(root: Node<T>, pick: nat, explore: (nat, nat) -> real,
                         simulate: T -> T, eval: (T, bool) -> real): (r: Node<T>)
    ensures Size(r) == Size(root) + 1
    ensures r.visits == root.visits + 1
    ensures r.data == root.data
  {
    var p := Select(root, pick, explore);
    var selected := NodeAt(root, p);
    var expanded := Expand(root, p);
    var q := p + [|selected.children|];
    ExpandedPath(root, p);
    var result := simulate(selected.data);
    Backprop(expanded, q, result, eval)
  }

  /** The new child is reachable in the expanded tree by the selected path plus its position. */
  lemma {:induction false} ExpandedPath<T>(n: Node<T>, p: seq<nat>)
    requires ValidPath(n, p)
    ensures ValidPath(Expand(n, p), p + [|NodeAt(n, p).children|])
    ensures NodeAt(Expand(n, p), p + [|NodeAt(n, p).children|]) == NewNode(NodeAt(n, p).data)
    decreases |p|
  {
    var q := p + [|NodeAt(n, p).children|];
    if p != [] {
      ExpandedPath(n.children[p[0]], p[1..]);
      assert q[1..] == p[1..] + [|NodeAt(n, p).children|];
    }
  }

  /** search: `simulations` rounds; round `i` draws picks(i) and simulates with simulate(i, _). */
  function Search<T>(root: Node<T>, simulations: int, picks: nat -> nat, explore: (nat, nat) -> real,
                     simulate: (nat, T) -> T, eval: (T, bool) -> real): (r: Node<T>)
    ensures Size(r) == Size(root) + (if simulations > 0 then simulations else 0)
    ensures r.visits == root.visits + (if simulations > 0 then simulations else 0)
    ensures r.data == root.data
  {
    if simulations <= 0 then root
    else
      RoundGrows(picks, explore, simulate, eval);
      IterateGrows(root, 0, simulations, Round(picks, explore, simulate, eval));
      Iterate(root, 0, simulations, Round(picks, explore, simulate, eval))
  }

  /** The loop of search: `step` applied in rounds `i` to `n` - 1, in order. */
  function Iterate<T>(root: Node<T>, i: nat, n: nat, step: (Node<T>, nat) -> Node<T>): Node<T>
    requires i <= n
    decreases n - i
  {
    if i == n then root else Iterate(step(root, i), i + 1, n, step)
  }

  /** The simulator of round `i`. */
  function SimulatorAt<T>(simulate: (nat, T) -> T, i: nat): T -> T
  {
    (t: T) => simulate(i, t)
  }

  /** Round `i` of search: one simulation drawing picks(i) and simulating with simulate(i, _). */
  function Round<T>(picks: nat -> nat, explore: (nat, nat) -> real, simulate: (nat, T) -> T,
                    eval: (T, bool) -> real): (Node<T>, nat) -> Node<T>
  {
    (r: Node<T>, i: nat) => Simulation(r, picks(i), explore, SimulatorAt(simulate, i), eval)
  }

  /** `b` has one node and one root visit more than `a`, and the same root data. */
  ghost predicate Grows<T>(a: Node<T>, b: Node<T>)
  {
    Size(b) == Size(a) + 1 && b.visits == a.visits + 1 && b.data == a.data
  }

  lemma RoundGrows<T>(picks: nat -> nat, explore: (nat, nat) -> real, simulate: (nat, T) -> T,
                      eval: (T, bool) -> real)
    ensures forall r: Node<T>, i: nat :: Grows(r, Round(picks, explore, simulate, eval)(r, i))
  {
    forall r: Node<T>, i: nat
      ensures Grows(r, Round(picks, explore, simulate, eval)(r, i))
    {
      var s := Simulation(r, picks(i), explore, SimulatorAt(simulate, i), eval);
      assert Grows(r, s);
    }
  }

  /** Rounds that each add one node and one root visit add one of each per round. */
  lemma {:induction false} IterateGrows<T>(root: Node<T>, i: nat, n: nat, step: (Node<T>, nat) -> Node<T>)
    requires i <= n
    requires forall r: Node<T>, k: nat :: Grows(r, step(r, k))
    ensures var r := Iterate(root, i, n, step);
      Size(r) == Size(root) + (n - i) && r.visits == root.visits + (n - i) && r.data == root.data
    decreases n - i
  {
    if i < n {
      assert Grows(root, step(root, i));
      IterateGrows(step(root, i), i + 1, n, step);
    }
  }

  /**
   * Backpropagation reaches every node on the path: the node `k` steps below the root gains one
   * visit and the score of `result` from the perspective `(|p| - k) % 2 == 0`.
   */
  lemma {:induction false} BackpropAlongPath<T, R>(n: Node<T>, p: seq<nat>, result: R, eval: (R, bool) -> real, k: nat)
    requires ValidPath(n, p) && k <= |p|
    ensures ValidPath(n, p[..k]) && ValidPath(Backprop(n, p, result, eval), p[..k])
    ensures NodeAt(Backprop(n, p, result, eval), p[..k]).visits == NodeAt(n, p[..k]).visits + 1
    ensures NodeAt(Backprop(n, p, result, eval), p[..k]).totalScore
         == NodeAt(n, p[..k]).totalScore + eval(result, (|p| - k) % 2 == 0)
    decreases |p|
  {
    if k > 0 {
      BackpropAlongPath(n.children[p[0]], p[1..], result, eval, k - 1);
      assert p[..k][1..] == p[1..][..k - 1];
    }
  }

  /** A visit to child `u`, and no change to the other children's visits, leaves one fewer unvisited. */
  lemma {:induction false} VisitOne<T>(ns: seq<Node<T>>, ms: seq<Node<T>>, u: nat)
    requires |ms| == |ns| && u < |ns| && ns[u].visits == 0 && ms[u].visits > 0
    requires forall j | 0 <= j < |ns| && j != u :: ms[j].visits == ns[j].visits
    ensures |Unvisited(ms)| == |Unvisited(ns)| - 1
    decreases |ns|
  {
    var m := |ns| - 1;
    if u < m {
      VisitOne(ns[..m], ms[..m], u);
    } else {
      SameVisits(ns[..m], ms[..m]);
    }
  }

  lemma {:induction false} SameVisits<T>(ns: seq<Node<T>>, ms: seq<Node<T>>)
    requires |ms| == |ns| && forall j | 0 <= j < |ns| :: ms[j].visits == ns[j].visits
    ensures Unvisited(ms) == Unvisited(ns)
    decreases |ns|
  {
    if ns != [] {
      SameVisits(ns[..|ns| - 1], ms[..|ms| - 1]);
    }
  }

  /**
   * One simulation from a root with children goes down to root child u, the first step of the
   * selected path: u gains one visit, every other root child is unchanged, and no child loses
   * its data.
   */
  lemma SimulationStep<T>(root: Node<T>, pick: nat, explore: (nat, nat) -> real,
                          simulate: T -> T, eval: (T, bool) -> real)
    requires !IsLeaf(root)
    ensures Select(root, pick, explore) != []
    ensures var r := Simulation(root, pick, explore, simulate, eval);
      var u := Select(root, pick, explore)[0];
      |r.children| == |root.children| &&
      r.children[u].visits == root.children[u].visits + 1 &&
      (forall j | 0 <= j < |root.children| && j != u :: r.children[j].visits == root.children[j].visits) &&
      (forall j | 0 <= j < |root.children| :: r.children[j].data == root.children[j].data)
  {
    var p := Select(root, pick, explore);
    assert p != [];
    var expanded := Expand(root, p);
    var q := p + [|NodeAt(root, p).children|];
    ExpandedPath(root, p);
    assert Simulation(root, pick, explore, simulate, eval) == Backprop(expanded, q, simulate(NodeAt(root, p).data), eval);
    assert q[0] == p[0];
  }

  /**
   * What one simulation does to the children of a root that has some: their number is kept,
   * no visit count drops, and if some were unvisited exactly one of them is visited now.
   */
  lemma SimulationRootChildren<T>(root: Node<T>, pick: nat, explore: (nat, nat) -> real,
                                  simulate: T -> T, eval: (T, bool) -> real)
    requires !IsLeaf(root)
    ensures var r := Simulation(root, pick, explore, simulate, eval);
      |r.children| == |root.children| &&
      (forall j | 0 <= j < |root.children| ::
        r.children[j].data == root.children[j].data && r.children[j].visits >= root.children[j].visits) &&
      (Unvisited(root.children) != [] ==> |Unvisited(r.children)| == |Unvisited(root.children)| - 1) &&
      (Unvisited(root.children) == [] ==> Unvisited(r.children) == [])
  {
    var r := Simulation(root, pick, explore, simulate, eval);
    SimulationStep(root, pick, explore, simulate, eval);
    var u := Select(root, pick, explore)[0];
    if Unvisited(root.children) != [] {
      VisitOne(root.children, r.children, u);
    } else {
      forall j | 0 <= j < |r.children|
        ensures r.children[j].visits != 0
      {
        assert root.children[j].visits != 0;
      }
      NoneUnvisited(r.children);
    }
  }

  lemma NoneUnvisited<T>(ns: seq<Node<T>>)
    requires forall j | 0 <= j < |ns| :: ns[j].visits != 0
    ensures Unvisited(ns) == []
  {
  }

  /** The number of children with no visits, counted without building the list. */
  function CountUnvisited<T>(ns: seq<Node<T>>): nat
  {
    if ns == [] then 0 else CountUnvisited(ns[..|ns| - 1]) + (if ns[|ns| - 1].visits == 0 then 1 else 0)
  }

  lemma {:induction false} CountUnvisitedIsLength<T>(ns: seq<Node<T>>)
    ensures CountUnvisited(ns) == |Unvisited(ns)|
    decreases |ns|
  {
    if ns != [] {
      CountUnvisitedIsLength(ns[..|ns| - 1]);
    }
  }

  /** Every child of `n` has been visited at least once. */
  ghost predicate AllChildrenVisited<T>(n: Node<T>)
  {
    forall j | 0 <= j < |n.children| :: n.children[j].visits > 0
  }

  lemma AllVisited<T>(n: Node<T>)
    requires CountUnvisited(n.children) == 0
    ensures AllChildrenVisited(n)
  {
    CountUnvisitedIsLength(n.children);
  }

  /**
   * A round from `a` to `b` keeps the root's children in number and data and, while some child
   * is unvisited, leaves fewer unvisited children.
   */
  ghost predicate Advances<T>(a: Node<T>, b: Node<T>)
  {
    |b.children| == |a.children| &&
    (forall j | 0 <= j < |a.children| :: b.children[j].data == a.children[j].data) &&
    (CountUnvisited(a.children) > 0 ==> CountUnvisited(b.children) < CountUnvisited(a.children)) &&
    (CountUnvisited(a.children) == 0 ==> CountUnvisited(b.children) == 0)
  }

  /** Every round of search advances a root that has children. */
  lemma RoundAdvances<T>(picks: nat -> nat, explore: (nat, nat) -> real, simulate: (nat, T) -> T,
                         eval: (T, bool) -> real)
    ensures forall r: Node<T>, i: nat | !IsLeaf(r) :: Advances(r, Round(picks, explore, simulate, eval)(r, i))
  {
    forall r: Node<T>, i: nat | !IsLeaf(r)
      ensures Advances(r, Round(picks, explore, simulate, eval)(r, i))
    {
      var s := Simulation(r, picks(i), explore, SimulatorAt(simulate, i), eval);
      SimulationRootChildren(r, picks(i), explore, SimulatorAt(simulate, i), eval);
      CountUnvisitedIsLength(r.children);
      CountUnvisitedIsLength(s.children);
    }
  }

  /** Rounds that advance the root keep its children, in number and data. */
  lemma {:induction false} IterateKeepsChildren<T>(root: Node<T>, i: nat, n: nat, step: (Node<T>, nat) -> Node<T>)
    requires !IsLeaf(root) && i <= n
    requires forall r: Node<T>, k: nat | !IsLeaf(r) :: Advances(r, step(r, k))
    ensures var r := Iterate(root, i, n, step);
      |r.children| == |root.children| &&
      forall j | 0 <= j < |root.children| :: r.children[j].data == root.children[j].data
    decreases n - i
  {
    if i < n {
      var next := step(root, i);
      assert Advances(root, next);
      IterateKeepsChildren(next, i + 1, n, step);
    }
  }

  /** At least as many advancing rounds as unvisited children leave every child visited. */
  lemma {:induction false} IterateVisitsAll<T>(root: Node<T>, i: nat, n: nat, step: (Node<T>, nat) -> Node<T>)
    requires !IsLeaf(root) && i <= n && CountUnvisited(root.children) <= n - i
    requires forall r: Node<T>, k: nat | !IsLeaf(r) :: Advances(r, step(r, k))
    ensures var r := Iterate(root, i, n, step);
      |r.children| == |root.children| && AllChildrenVisited(r)
    decreases n - i
  {
    if i == n {
      AllVisited(root);
    } else {
      var next := step(root, i);
      assert Advances(root, next);
      IterateVisitsAll(next, i + 1, n, step);
    }
  }

  lemma {:induction false} UnvisitedBounded<T>(ns: seq<Node<T>>)
    ensures |Unvisited(ns)| <= |ns|
    decreases |ns|
  {
    if ns != [] {
      UnvisitedBounded(ns[..|ns| - 1]);
    }
  }

  /** search keeps the root's children, in number and data. */
  lemma SearchKeepsRootChildren<T>(root: Node<T>, simulations: int, picks: nat -> nat, explore: (nat, nat) -> real,
                                   simulate: (nat, T) -> T, eval: (T, bool) -> real)
    requires !IsLeaf(root)
    ensures var r := Search(root, simulations, picks, explore, simulate, eval);
      |r.children| == |root.children| &&
      forall j | 0 <= j < |r.children| :: r.children[j].data == root.children[j].data
  {
    if simulations > 0 {
      RoundAdvances(picks, explore, simulate, eval);
      IterateKeepsChildren(root, 0, simulations, Round(picks, explore, simulate, eval));
    }
  }

  /** At least as many simulations as the root has children visit every child of the root. */
  lemma SearchVisitsEveryRootChild<T>(root: Node<T>, simulations: int, picks: nat -> nat, explore: (nat, nat) -> real,
                                      simulate: (nat, T) -> T, eval: (T, bool) -> real)
    requires !IsLeaf(root) && |root.children| <= simulations
    ensures var r := Search(root, simulations, picks, explore, simulate, eval);
      |r.children| == |root.children| && forall j | 0 <= j < |r.children| :: r.children[j].visits > 0
  {
    UnvisitedBounded(root.children);
    CountUnvisitedIsLength(root.children);
    RoundAdvances(picks, explore, simulate, eval);
    IterateVisitsAll(root, 0, simulations, Round(picks, explore, simulate, eval));
  }
}
