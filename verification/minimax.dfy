/**
 * MiniMax.search: depth-limited minimax with fail-soft alpha-beta cutoffs.  The node is
 * returned with the scores the search records; the window bounds are passed by value and
 * the node's own alpha and beta fields are never touched.
 */
module MiniMax {
  import opened GameTree

  /** The identity of a maximizing (min) node's loop: Math.max starts at -inf, Math.min at +inf. */
  function Start(maxing: bool): Bound
  {
    if maxing then NegInf else PosInf
  }

  /**
   * MiniMax.search.  Returns the value and the node with the scores recorded by the search.
   * A leaf, or a node reached at depth 0, is evaluated; otherwise the children are searched
   * with depth - 1 and the other player to move.
   */
  function Search<T(==)>(n: Node<T>, depth: int, maxing: bool, alpha: Bound, beta: Bound,
                     eval: (T, bool) -> real): (r: (real, Node<T>))
    ensures r.1.score == r.0
    ensures SameButScores(n, r.1)
    ensures depth == 0 || IsLeaf(n) ==> r.0 == eval(n.data, maxing)
    decreases n, |n.children| + 1
  {
    if depth == 0 || n.children == [] then
      var s := eval(n.data, maxing);
      SameButScoresReflexive(n);
      (s, n.(score := s))
    else
      var (best, kids) := Loop(n, 0, depth, maxing, alpha, beta, Start(maxing), [], eval);
      (best.v, n.(children := kids, score := best.v))
  }

  /**
   * The loop over the children of a non-leaf node, from child `i` on.  `best` is maxScore
   * (minScore), `done` the children already searched; the loop stops right after the child
   * that makes beta <= alpha.
   */
  function Loop<T(==)>(n: Node<T>, i: nat, depth: int, maxing: bool, alpha: Bound, beta: Bound,
                   best: Bound, done: seq<Node<T>>, eval: (T, bool) -> real): (r: (Bound, seq<Node<T>>))
    requires i <= |n.children| && |done| == i
    requires best != Start(!maxing)
    ensures |r.1| == |n.children| && r.1[..i] == done
    ensures forall j | i <= j < |n.children| :: SameButScores(n.children[j], r.1[j])
    ensures best.Fin? || i < |n.children| ==> r.0.Fin?
    ensures if maxing then Le(best, r.0) else Le(r.0, best)
    decreases n, |n.children| - i
  {
    if i == |n.children| then (best, done)
    else
      var (s, c) := Search(n.children[i], depth - 1, !maxing, alpha, beta, eval);
      var best' := if maxing then BMax(best, Fin(s)) else BMin(best, Fin(s));
      var alpha' := if maxing then BMax(alpha, Fin(s)) else alpha;
      var beta' := if maxing then beta else BMin(beta, Fin(s));
      if Le(beta', alpha') then
        SameButScoresReflexive(n);
        (best', done + [c] + n.children[i + 1..])
      else Loop(n, i + 1, depth, maxing, alpha', beta', best', done + [c], eval)
  }

  // ----- plain minimax, the reference -----

  /** Depth-limited minimax without pruning. */
  function Minimax<T(==)>(n: Node<T>, depth: int, maxing: bool, eval: (T, bool) -> real): real
    decreases n, |n.children| + 1
  {
    if depth == 0 || n.children == [] then eval(n.data, maxing)
    else Extreme(n, 0, depth, maxing, eval).v
  }

  /** The maximum (minimum) of the minimax values of children i .. of `n`. */
  function Extreme<T(==)>(n: Node<T>, i: nat, depth: int, maxing: bool, eval: (T, bool) -> real): (r: Bound)
    requires i <= |n.children|
    ensures i < |n.children| ==> r.Fin?
    decreases n, |n.children| - i
  {
    if i == |n.children| then Start(maxing)
    else
      var v := Fin(Minimax(n.children[i], depth - 1, !maxing, eval));
      var rest := Extreme(n, i + 1, depth, maxing, eval);
      if maxing then BMax(v, rest) else BMin(v, rest)
  }

  // ----- the fail-soft window property -----

  /**
   * `r` is a fail-soft answer for true value `v` in the window (alpha, beta): exact inside the
   * window, an upper bound at most alpha below it, a lower bound at least beta above it.
   */
  predicate FailSoft(r: Bound, v: Bound, alpha: Bound, beta: Bound)
  {
    (Le(v, alpha) ==> Le(v, r) && Le(r, alpha)) &&
    (Lt(alpha, v) && Lt(v, beta) ==> r == v) &&
    (Le(beta, v) ==> Le(beta, r) && Le(r, v))
  }

  /** One step of a maximizing loop keeps the fail-soft property. */
  lemma MaxStep(alpha: Bound, beta: Bound, best: Bound, s: real, v: real, fRest: Bound, uRest: Bound)
    requires Lt(alpha, beta) && Le(best, alpha)
    requires FailSoft(Fin(s), Fin(v), alpha, beta)
    requires Lt(BMax(alpha, Fin(s)), beta) ==>
      FailSoft(fRest, uRest, BMax(alpha, Fin(s)), beta) && Le(BMax(best, Fin(s)), fRest)
    ensures FailSoft(if Le(beta, BMax(alpha, Fin(s))) then BMax(best, Fin(s)) else fRest,
                     BMax(Fin(v), uRest), alpha, beta)
  {
  }

  /** One step of a minimizing loop keeps the fail-soft property. */
  lemma MinStep(alpha: Bound, beta: Bound, best: Bound, s: real, v: real, fRest: Bound, uRest: Bound)
    requires Lt(alpha, beta) && Le(beta, best)
    requires FailSoft(Fin(s), Fin(v), alpha, beta)
    requires Lt(alpha, BMin(beta, Fin(s))) ==>
      FailSoft(fRest, uRest, alpha, BMin(beta, Fin(s))) && Le(fRest, BMin(best, Fin(s)))
    ensures FailSoft(if Le(BMin(beta, Fin(s)), alpha) then BMin(best, Fin(s)) else fRest,
                     BMin(Fin(v), uRest), alpha, beta)
  {
  }

  /** Alpha-beta search is fail-soft with respect to plain minimax. */
  lemma {:induction false} SearchFailSoft<T>(n: Node<T>, depth: int, maxing: bool, alpha: Bound, beta: Bound,
                                            eval: (T, bool) -> real)
    requires Lt(alpha, beta)
    ensures FailSoft(Fin(Search(n, depth, maxing, alpha, beta, eval).0), Fin(Minimax(n, depth, maxing, eval)), alpha, beta)
    decreases n, |n.children| + 1
  {
    if !(depth == 0 || n.children == []) {
      LoopFailSoft(n, 0, depth, maxing, alpha, beta, Start(maxing), [], eval);
    }
  }

  lemma {:induction false} LoopFailSoft<T>(n: Node<T>, i: nat, depth: int, maxing: bool, alpha: Bound, beta: Bound,
                                          best: Bound, done: seq<Node<T>>, eval: (T, bool) -> real)
    requires i <= |n.children| && |done| == i
    requires best != Start(!maxing)
    requires Lt(alpha, beta)
    requires if maxing then Le(best, alpha) else Le(beta, best)
    ensures FailSoft(Loop(n, i, depth, maxing, alpha, beta, best, done, eval).0,
                     Extreme(n, i, depth, maxing, eval), alpha, beta)
    decreases n, |n.children| - i
  {
    if i < |n.children| {
      var (s, c) := Search(n.children[i], depth - 1, !maxing, alpha, beta, eval);
      var v := Minimax(n.children[i], depth - 1, !maxing, eval);
      SearchFailSoft(n.children[i], depth - 1, !maxing, alpha, beta, eval);
      var best' := if maxing then BMax(best, Fin(s)) else BMin(best, Fin(s));
      var alpha' := if maxing then BMax(alpha, Fin(s)) else alpha;
      var beta' := if maxing then beta else BMin(beta, Fin(s));
      var uRest := Extreme(n, i + 1, depth, maxing, eval);
      if Le(beta', alpha') {
        if maxing {
          MaxStep(alpha, beta, best, s, v, best', uRest);
        } else {
          MinStep(alpha, beta, best, s, v, best', uRest);
        }
      } else {
        LoopFailSoft(n, i + 1, depth, maxing, alpha', beta', best', done + [c], eval);
        var fRest := Loop(n, i + 1, depth, maxing, alpha', beta', best', done + [c], eval).0;
        if maxing {
          MaxStep(alpha, beta, best, s, v, fRest, uRest);
        } else {
          MinStep(alpha, beta, best, s, v, fRest, uRest);
        }
      }
    }
  }

  /** With the full window (-inf, +inf), alpha-beta returns exactly the minimax value. */
  lemma AlphaBetaIsMinimax<T>(n: Node<T>, depth: int, maxing: bool, eval: (T, bool) -> real)
    ensures Search(n, depth, maxing, NegInf, PosInf, eval).0 == Minimax(n, depth, maxing, eval)
  {
    SearchFailSoft(n, depth, maxing, NegInf, PosInf, eval);
  }

  // ----- where the loop stops -----

  /** The score of a child that ends the loop: at least beta at a max node, at most alpha at a min node. */
  predicate Cuts(maxing: bool, s: real, alpha: Bound, beta: Bound)
  {
    if maxing then Le(beta, Fin(s)) else Le(Fin(s), alpha)
  }

  /** A max node moves only alpha and a min node only beta, so the cutoff test stays the same. */
  lemma CutsIgnoresNearEnd(maxing: bool, alpha: Bound, beta: Bound, alpha': Bound, beta': Bound)
    requires if maxing then beta' == beta else alpha' == alpha
    ensures forall s :: Cuts(maxing, s, alpha', beta') == Cuts(maxing, s, alpha, beta)
  {
  }

  /** Math.max (Math.min) of `best` and the recorded scores of `ks`, taken left to right. */
  function Fold<T>(maxing: bool, best: Bound, ks: seq<Node<T>>): Bound
    decreases |ks|
  {
    if ks == [] then best
    else Fold(maxing, if maxing then BMax(best, Fin(ks[0].score)) else BMin(best, Fin(ks[0].score)), ks[1..])
  }

  /**
   * `kids` is `children` searched from `i` up to and including the first child whose score
   * reaches the window's far end: every later child is untouched, and `value` is the max (min)
   * of `best` and the scores of the searched children.
   */
  predicate StopsBy<T(==)>(kids: seq<Node<T>>, children: seq<Node<T>>, i: nat, maxing: bool, alpha: Bound, beta: Bound,
                           best: Bound, value: Bound)
    requires i <= |children| == |kids|
  {
    exists k :: i <= k <= |children| && (i < |children| ==> i < k) &&
      kids[k..] == children[k..] &&
      (forall j | i <= j < k - 1 :: !Cuts(maxing, kids[j].score, alpha, beta)) &&
      (k < |children| ==> Cuts(maxing, kids[k - 1].score, alpha, beta)) &&
      value == Fold(maxing, best, kids[i..k])
  }

  /** A child that does not cut, followed by a search that stops by some later child, stops by it too. */
  lemma StopsByStep<T>(kids: seq<Node<T>>, children: seq<Node<T>>, i: nat, maxing: bool,
                       alpha: Bound, beta: Bound, alpha': Bound, beta': Bound, best: Bound, value: Bound)
    requires i < |children| == |kids|
    requires if maxing then beta' == beta else alpha' == alpha
    requires !Cuts(maxing, kids[i].score, alpha, beta)
    requires StopsBy(kids, children, i + 1, maxing, alpha', beta',
                     if maxing then BMax(best, Fin(kids[i].score)) else BMin(best, Fin(kids[i].score)), value)
    ensures StopsBy(kids, children, i, maxing, alpha, beta, best, value)
  {
    var best' := if maxing then BMax(best, Fin(kids[i].score)) else BMin(best, Fin(kids[i].score));
    var k :| i + 1 <= k <= |children| && (i + 1 < |children| ==> i + 1 < k) &&
      kids[k..] == children[k..] &&
      (forall j | i + 1 <= j < k - 1 :: !Cuts(maxing, kids[j].score, alpha', beta')) &&
      (k < |children| ==> Cuts(maxing, kids[k - 1].score, alpha', beta')) &&
      value == Fold(maxing, best', kids[i + 1..k]);
    CutsIgnoresNearEnd(maxing, alpha, beta, alpha', beta');
    assert forall j | i <= j < k - 1 :: !Cuts(maxing, kids[j].score, alpha, beta);
    assert kids[i..k][0] == kids[i] && kids[i..k][1..] == kids[i + 1..k];
    assert value == Fold(maxing, best, kids[i..k]);
  }

  /**
   * Children are searched in order up to and including the first whose score reaches the
   * window's far end; every later sibling is returned untouched, with its old score, and the
   * loop's value is the max (min) of the scores recorded on the searched children.
   */
  lemma {:induction false} LoopCutoff<T>(n: Node<T>, i: nat, depth: int, maxing: bool, alpha: Bound, beta: Bound,
                                        best: Bound, done: seq<Node<T>>, eval: (T, bool) -> real)
    requires i <= |n.children| && |done| == i
    requires best != Start(!maxing)
    requires Lt(alpha, beta)
    ensures var r := Loop(n, i, depth, maxing, alpha, beta, best, done, eval);
      StopsBy(r.1, n.children, i, maxing, alpha, beta, best, r.0)
    decreases |n.children| - i
  {
    var r := Loop(n, i, depth, maxing, alpha, beta, best, done, eval);
    var kids := r.1;
    if i == |n.children| {
      assert kids[i..] == n.children[i..];
      assert kids[i..i] == [];
    } else {
      var (s, c) := Search(n.children[i], depth - 1, !maxing, alpha, beta, eval);
      var best' := if maxing then BMax(best, Fin(s)) else BMin(best, Fin(s));
      var alpha' := if maxing then BMax(alpha, Fin(s)) else alpha;
      var beta' := if maxing then beta else BMin(beta, Fin(s));
      assert kids[i] == c;
      if Le(beta', alpha') {
        assert kids[i + 1..] == n.children[i + 1..];
        assert Cuts(maxing, kids[i].score, alpha, beta);
        assert kids[i..i + 1] == [c];
        assert r.0 == Fold(maxing, best, kids[i..i + 1]);
      } else {
        assert r == Loop(n, i + 1, depth, maxing, alpha', beta', best', done + [c], eval);
        LoopCutoff(n, i + 1, depth, maxing, alpha', beta', best', done + [c], eval);
        StopsByStep(kids, n.children, i, maxing, alpha, beta, alpha', beta', best, r.0);
      }
    }
  }

  // ----- a root over leaves, as the strategies build it -----

  /**
   * A maximizing root whose children are all leaves, searched with the full window: no cutoff
   * happens, and every child gets the evaluator's score of its data as a minimizing node.
   */
  lemma FlatRootScores<T>(n: Node<T>, depth: int, eval: (T, bool) -> real)
    requires depth != 0 && !IsLeaf(n)
    requires forall j | 0 <= j < |n.children| :: IsLeaf(n.children[j])
    ensures var r := Search(n, depth, true, NegInf, PosInf, eval).1;
      |r.children| == |n.children| &&
      forall j | 0 <= j < |n.children| :: r.children[j] == n.children[j].(score := eval(n.children[j].data, false))
  {
    FlatLoop(n, 0, depth, NegInf, NegInf, [], eval);
  }

  lemma {:induction false} FlatLoop<T>(n: Node<T>, i: nat, depth: int, alpha: Bound, best: Bound,
                                       done: seq<Node<T>>, eval: (T, bool) -> real)
    requires i <= |n.children| && |done| == i && alpha != PosInf && best != PosInf
    requires forall j | 0 <= j < |n.children| :: IsLeaf(n.children[j])
    ensures var kids := Loop(n, i, depth, true, alpha, PosInf, best, done, eval).1;
      forall j | i <= j < |n.children| :: kids[j] == n.children[j].(score := eval(n.children[j].data, false))
    decreases |n.children| - i
  {
    if i < |n.children| {
      var c := n.children[i];
      var s := eval(c.data, false);
      assert Search(c, depth - 1, false, alpha, PosInf, eval) == (s, c.(score := s));
      var alpha' := BMax(alpha, Fin(s));
      assert !Le(PosInf, alpha');
      FlatLoop(n, i + 1, depth, alpha', BMax(best, Fin(s)), done + [c.(score := s)], eval);
    }
  }
}
