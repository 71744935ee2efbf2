/**
 * Expectimax.search: maximizing nodes take the best child, chance nodes the average of their
 * children with equal probability 1/n each.  Every child is searched; there is no pruning.
 */
module Expectimax {
  import opened GameTree

  /** The sum of the recorded scores of `ns`. */
  function SumScores<T>(ns: seq<Node<T>>): real
  {
    if ns == [] then 0.0 else SumScores(ns[..|ns| - 1]) + ns[|ns| - 1].score
  }

  /** The sum of probability * score over `ns`, accumulated as the chance-node loop does. */
  function WeightedSum<T>(p: real, ns: seq<Node<T>>): real
  {
    if ns == [] then 0.0 else WeightedSum(p, ns[..|ns| - 1]) + p * ns[|ns| - 1].score
  }

  function MinScore<T>(ns: seq<Node<T>>): real
    requires ns != []
  {
    if |ns| == 1 then ns[0].score
    else var m := MinScore(ns[..|ns| - 1]); if ns[|ns| - 1].score < m then ns[|ns| - 1].score else m
  }

  function MaxScore<T>(ns: seq<Node<T>>): real
    requires ns != []
  {
    if |ns| == 1 then ns[0].score
    else var m := MaxScore(ns[..|ns| - 1]); if ns[|ns| - 1].score > m then ns[|ns| - 1].score else m
  }

  /**
   * Expectimax.search.  Returns the value and the node with the scores the search records.
   * Children of a max node are searched as chance nodes and vice versa, at depth - 1.
   */
  function Search<T(==)>(n: Node<T>, depth: int, maxing: bool, eval: (T, bool) -> real): (r: (real, Node<T>))
    ensures r.1.score == r.0
    ensures depth == 0 || IsLeaf(n) ==> r.0 == eval(n.data, maxing)
    decreases n, |n.children| + 1
  {
    if depth == 0 || n.children == [] then
      var s := eval(n.data, maxing);
      (s, n.(score := s))
    else if maxing then
      var (best, kids) := MaxLoop(n, 0, depth, NegInf, [], eval);
      (best.v, n.(children := kids, score := best.v))
    else
      var numChildren := |n.children|;
      if numChildren == 0 then
        assert false; (0.0, n)
      else
        var probability := 1.0 / (numChildren as real);
        var (expected, kids) := ChanceLoop(n, 0, depth, probability, 0.0, [], eval);
        (expected, n.(children := kids, score := expected))
  }

  /** The loop of a max node: maxScore = Math.max(maxScore, score) over every child. */
  function MaxLoop<T(==)>(n: Node<T>, i: nat, depth: int, best: Bound, done: seq<Node<T>>,
                          eval: (T, bool) -> real): (r: (Bound, seq<Node<T>>))
    requires i <= |n.children| && |done| == i && best != PosInf
    ensures |r.1| == |n.children| && r.1[..i] == done
    ensures r.0 != PosInf && (best.Fin? || i < |n.children| ==> r.0.Fin?)
    decreases n, |n.children| - i
  {
    if i == |n.children| then (best, done)
    else
      var c := Search(n.children[i], depth - 1, false, eval).1;
      MaxLoop(n, i + 1, depth, BMax(best, Fin(c.score)), done + [c], eval)
  }

  /** maxScore stays the greatest score of the children searched so far, and is one of them once finite. */
  lemma {:induction false} MaxLoopIsMax<T>(n: Node<T>, i: nat, depth: int, best: Bound, done: seq<Node<T>>,
                                           eval: (T, bool) -> real)
    requires i <= |n.children| && |done| == i && best != PosInf
    requires IsMaxOf(done, best)
    ensures var r := MaxLoop(n, i, depth, best, done, eval); IsMaxOf(r.1, r.0)
    decreases |n.children| - i
  {
    if i < |n.children| {
      var c := Search(n.children[i], depth - 1, false, eval).1;
      MaxOfAppend(done, best, c);
      MaxLoopIsMax(n, i + 1, depth, BMax(best, Fin(c.score)), done + [c], eval);
    }
  }

  /** `best` bounds every score of `ns` and, when finite, is one of them. */
  predicate IsMaxOf<T>(ns: seq<Node<T>>, best: Bound)
  {
    (forall j | 0 <= j < |ns| :: Le(Fin(ns[j].score), best)) &&
    (best.Fin? ==> exists j | 0 <= j < |ns| :: Fin(ns[j].score) == best)
  }

  lemma MaxOfAppend<T>(ns: seq<Node<T>>, best: Bound, c: Node<T>)
    requires IsMaxOf(ns, best) && best != PosInf
    ensures IsMaxOf(ns + [c], BMax(best, Fin(c.score)))
  {
    var ns' := ns + [c];
    var best' := BMax(best, Fin(c.score));
    if best' == Fin(c.score) {
      assert ns'[|ns|] == c;
    } else {
      var j :| 0 <= j < |ns| && Fin(ns[j].score) == best;
      assert ns'[j] == ns[j];
    }
  }

  /** The loop of a chance node: expectedScore += probability * score over every child. */
  function ChanceLoop<T(==)>(n: Node<T>, i: nat, depth: int, probability: real, expected: real,
                             done: seq<Node<T>>, eval: (T, bool) -> real): (r: (real, seq<Node<T>>))
    requires i <= |n.children| && |done| == i
    ensures |r.1| == |n.children| && r.1[..i] == done
    ensures r.0 - WeightedSum(probability, r.1) == expected - WeightedSum(probability, done)
    decreases n, |n.children| - i
  {
    if i == |n.children| then (expected, done)
    else
      var c := Search(n.children[i], depth - 1, true, eval).1;
      WeightedAppend(probability, done, c);
      ChanceLoop(n, i + 1, depth, probability, expected + probability * c.score, done + [c], eval)
  }

  lemma WeightedAppend<T>(p: real, ns: seq<Node<T>>, c: Node<T>)
    ensures WeightedSum(p, ns + [c]) == WeightedSum(p, ns) + p * c.score
  {
    assert (ns + [c])[..|ns + [c]| - 1] == ns;
  }

  /** Summing p * score term by term is p times the sum of the scores. */
  lemma {:induction false} WeightedIsScaled<T>(p: real, ns: seq<Node<T>>)
    ensures WeightedSum(p, ns) == p * SumScores(ns)
    decreases |ns|
  {
    if ns != [] {
      var init := ns[..|ns| - 1];
      WeightedIsScaled(p, init);
      Distribute(p, SumScores(init), ns[|ns| - 1].score);
    }
  }

  lemma Distribute(p: real, a: real, b: real)
    ensures p * (a + b) == p * a + p * b
  {
  }

  /** A max node takes the largest child score; a chance node the mean, between the extremes. */
  lemma InnerValue<T>(n: Node<T>, depth: int, maxing: bool, eval: (T, bool) -> real)
    requires depth != 0 && !IsLeaf(n)
    ensures var r := Search(n, depth, maxing, eval);
      |r.1.children| == |n.children| &&
      (maxing ==>
        (forall j | 0 <= j < |n.children| :: r.1.children[j].score <= r.0) &&
        (exists j | 0 <= j < |n.children| :: r.1.children[j].score == r.0)) &&
      (!maxing ==>
        r.0 == SumScores(r.1.children) / (|n.children| as real) &&
        MinScore(r.1.children) <= r.0 <= MaxScore(r.1.children))
  {
    var r := Search(n, depth, maxing, eval);
    if maxing {
      var (best, kids) := MaxLoop(n, 0, depth, NegInf, [], eval);
      MaxLoopIsMax(n, 0, depth, NegInf, [], eval);
      assert r.1.children == kids && r.0 == best.v;
      assert forall j | 0 <= j < |kids| :: Le(Fin(kids[j].score), best);
    } else {
      var probability := 1.0 / (|n.children| as real);
      var (expected, kids) := ChanceLoop(n, 0, depth, probability, 0.0, [], eval);
      WeightedIsScaled(probability, kids);
      MeanWithinRange(kids, expected, |n.children|);
    }
  }

  /** Every node of `ns` searched on its own: the reference for what an inner node does to its children. */
  function SearchEach<T(==)>(ns: seq<Node<T>>, depth: int, maxing: bool, eval: (T, bool) -> real): (r: seq<Node<T>>)
    ensures |r| == |ns|
  {
    if ns == [] then [] else [Search(ns[0], depth, maxing, eval).1] + SearchEach(ns[1..], depth, maxing, eval)
  }

  /** Expectimax never prunes: every child of an inner node is searched, one level deeper, as the other kind. */
  lemma SearchesEveryChild<T>(n: Node<T>, depth: int, maxing: bool, eval: (T, bool) -> real)
    requires depth != 0 && !IsLeaf(n)
    ensures Search(n, depth, maxing, eval).1.children == SearchEach(n.children, depth - 1, !maxing, eval)
  {
    assert n.children[0..] == n.children;
    if maxing {
      MaxLoopSearchesAll(n, 0, depth, NegInf, [], eval);
    } else {
      var probability := 1.0 / (|n.children| as real);
      ChanceLoopSearchesAll(n, 0, depth, probability, 0.0, [], eval);
    }
  }

  lemma {:induction false} MaxLoopSearchesAll<T>(n: Node<T>, i: nat, depth: int, best: Bound, done: seq<Node<T>>,
                                                 eval: (T, bool) -> real)
    requires i <= |n.children| && |done| == i && best != PosInf
    ensures MaxLoop(n, i, depth, best, done, eval).1 == done + SearchEach(n.children[i..], depth - 1, false, eval)
    decreases |n.children| - i
  {
    if i < |n.children| {
      var c := Search(n.children[i], depth - 1, false, eval).1;
      var best' := BMax(best, Fin(c.score));
      assert MaxLoop(n, i, depth, best, done, eval) == MaxLoop(n, i + 1, depth, best', done + [c], eval);
      MaxLoopSearchesAll(n, i + 1, depth, best', done + [c], eval);
      SearchEachCons(n.children, i, depth - 1, false, eval);
    } else {
      assert n.children[i..] == [];
    }
  }

  lemma {:induction false} ChanceLoopSearchesAll<T>(n: Node<T>, i: nat, depth: int, probability: real, expected: real,
                                                    done: seq<Node<T>>, eval: (T, bool) -> real)
    requires i <= |n.children| && |done| == i
    ensures ChanceLoop(n, i, depth, probability, expected, done, eval).1
         == done + SearchEach(n.children[i..], depth - 1, true, eval)
    decreases |n.children| - i
  {
    if i < |n.children| {
      var c := Search(n.children[i], depth - 1, true, eval).1;
      WeightedAppend(probability, done, c);
      assert ChanceLoop(n, i, depth, probability, expected, done, eval)
          == ChanceLoop(n, i + 1, depth, probability, expected + probability * c.score, done + [c], eval);
      ChanceLoopSearchesAll(n, i + 1, depth, probability, expected + probability * c.score, done + [c], eval);
      SearchEachCons(n.children, i, depth - 1, true, eval);
    }
  }

  /** Searching the children from `i` on searches child `i`, then the children from `i` + 1 on. */
  lemma SearchEachCons<T>(ns: seq<Node<T>>, i: nat, depth: int, maxing: bool, eval: (T, bool) -> real)
    requires i < |ns|
    ensures SearchEach(ns[i..], depth, maxing, eval)
         == [Search(ns[i], depth, maxing, eval).1] + SearchEach(ns[i + 1..], depth, maxing, eval)
  {
    assert ns[i..][1..] == ns[i + 1..];
  }

  lemma {:induction false} SearchEachIndex<T>(ns: seq<Node<T>>, depth: int, maxing: bool, eval: (T, bool) -> real, j: int)
    requires 0 <= j < |ns|
    ensures SearchEach(ns, depth, maxing, eval)[j] == Search(ns[j], depth, maxing, eval).1
    decreases |ns|
  {
    if j > 0 {
      SearchEachIndex(ns[1..], depth, maxing, eval, j - 1);
    }
  }

  /** The search writes scores only: data, bookkeeping and the shape of the tree stay as they were. */
  lemma {:induction false} SearchOnlyScores<T>(n: Node<T>, depth: int, maxing: bool, eval: (T, bool) -> real)
    ensures SameButScores(n, Search(n, depth, maxing, eval).1)
    decreases n
  {
    var r := Search(n, depth, maxing, eval).1;
    if depth == 0 || IsLeaf(n) {
      SameButScoresReflexive(n);
    } else {
      SearchesEveryChild(n, depth, maxing, eval);
      forall j | 0 <= j < |n.children|
        ensures SameButScores(n.children[j], r.children[j])
      {
        SearchEachIndex(n.children, depth - 1, !maxing, eval, j);
        SearchOnlyScores(n.children[j], depth - 1, !maxing, eval);
      }
    }
  }

  /** The mean of the scores lies between the smallest and the largest score. */
  lemma MeanWithinRange<T>(ns: seq<Node<T>>, expected: real, k: nat)
    requires ns != [] && k == |ns|
    requires expected == (1.0 / (k as real)) * SumScores(ns)
    ensures expected == SumScores(ns) / (k as real)
    ensures MinScore(ns) <= expected <= MaxScore(ns)
  {
    SumBetween(ns);
    DivideBounds(SumScores(ns), k as real, MinScore(ns), MaxScore(ns), expected);
  }

  lemma DivideBounds(s: real, k: real, lo: real, hi: real, e: real)
    requires k > 0.0 && k * lo <= s <= k * hi && e == (1.0 / k) * s
    ensures e == s / k && lo <= e <= hi
  {
    var q := s / k;
    assert q * k == s;
    if q < lo {
      LessTimes(q, lo, k);
    }
    if q > hi {
      LessTimes(hi, q, k);
    }
  }

  lemma LessTimes(a: real, b: real, k: real)
    requires a < b && k > 0.0
    ensures a * k < b * k
  {
  }

  /** Adding one score x to k scores keeps the sum between n = k + 1 times the new extremes. */
  lemma StepBounds(n: real, k: real, s: real, x: real, total: real, lo0: real, hi0: real, lo: real, hi: real)
    requires k >= 0.0 && n == k + 1.0 && total == s + x
    requires k * lo0 <= s <= k * hi0
    requires lo <= lo0 && lo <= x && hi0 <= hi && x <= hi
    ensures n * lo <= total <= n * hi
  {
    assert k * lo <= k * lo0;
    assert k * hi0 <= k * hi;
  }

  /** The last score of `ns` and the extremes of the ones before it lie within the extremes of `ns`. */
  lemma ExtremesStep<T>(ns: seq<Node<T>>)
    requires |ns| > 1
    ensures MinScore(ns) <= MinScore(ns[..|ns| - 1]) && MinScore(ns) <= ns[|ns| - 1].score
    ensures MaxScore(ns[..|ns| - 1]) <= MaxScore(ns) && ns[|ns| - 1].score <= MaxScore(ns)
    ensures SumScores(ns) == SumScores(ns[..|ns| - 1]) + ns[|ns| - 1].score
  {
  }

  /** The sum of n scores lies between n times the smallest and n times the largest. */
  lemma {:induction false} SumBetween<T>(ns: seq<Node<T>>)
    requires ns != []
    ensures (|ns| as real) * MinScore(ns) <= SumScores(ns) <= (|ns| as real) * MaxScore(ns)
    decreases |ns|
  {
    if |ns| > 1 {
      var init := ns[..|ns| - 1];
      SumBetween(init);
      ExtremesStep(ns);
      StepBounds(|ns| as real, |init| as real, SumScores(init), ns[|ns| - 1].score, SumScores(ns),
                 MinScore(init), MaxScore(init), MinScore(ns), MaxScore(ns));
    }
  }
}
