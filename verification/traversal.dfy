/**
 * Tree.getLeaves and DepthFirst.traverse / collectNodes over the search tree's nodes
 * (GameTreeNode is the implementation of TreeNode).  The consumer passed to traverse is
 * modelled by the sequence of nodes it is applied to.
 */
module Traversal {
  import opened Wrappers
  import opened GameTree

  /** traverse(root, action) on a present root: the root, then each child's traversal in list order. */
  function Preorder<T>(n: Node<T>): (r: seq<Node<T>>)
    ensures |r| == Size(n) && r[0] == n
    decreases Size(n), 1
  {
    [n] + PreorderAll(n.children)
  }

  function PreorderAll<T>(ns: seq<Node<T>>): (r: seq<Node<T>>)
    ensures |r| == SizeOf(ns)
    decreases SizeOf(ns), 2
  {
    if ns == [] then [] else Preorder(ns[0]) + PreorderAll(ns[1..])
  }

  /** traverse(root, action): a null root applies the action to nothing. */
  function Traverse<T>(root: Option<Node<T>>): (r: seq<Node<T>>)
    ensures root.None? <==> r == []
    ensures root.Some? ==> |r| == Size(root.value) && r[0] == root.value
  {
    match root
    case None => []
    case Some(n) => Preorder(n)
  }

  /** collectNodes(root): the nodes the traversal hands to result::add, in that order. */
  function CollectNodes<T>(root: Option<Node<T>>): (r: seq<Node<T>>)
    ensures |r| == (if root.Some? then Size(root.value) else 0)
  {
    Traverse(root)
  }

  /** `x` is `n` or lies in the subtree of one of its children. */
  predicate Within<T(==)>(x: Node<T>, n: Node<T>)
    decreases n
  {
    x == n || exists i | 0 <= i < |n.children| :: Within(x, n.children[i])
  }

  /** The traversal reaches exactly the nodes of the tree. */
  lemma {:induction false} PreorderNodes<T>(n: Node<T>, x: Node<T>)
    ensures x in Preorder(n) <==> Within(x, n)
    decreases Size(n), 1
  {
    PreorderAllNodes(n.children, x);
  }

  lemma {:induction false} PreorderAllNodes<T>(ns: seq<Node<T>>, x: Node<T>)
    ensures x in PreorderAll(ns) <==> exists i | 0 <= i < |ns| :: Within(x, ns[i])
    decreases SizeOf(ns), 2
  {
    if ns != [] {
      PreorderNodes(ns[0], x);
      PreorderAllNodes(ns[1..], x);
      if exists i | 0 <= i < |ns| :: Within(x, ns[i]) {
        var i :| 0 <= i < |ns| && Within(x, ns[i]);
        if i > 0 {
          assert ns[1..][i - 1] == ns[i];
        }
      }
      if exists i | 0 <= i < |ns| - 1 :: Within(x, ns[1..][i]) {
        var i :| 0 <= i < |ns| - 1 && Within(x, ns[1..][i]);
        assert ns[1..][i] == ns[i + 1];
      }
    }
  }

  // ----- Tree.getLeaves -----

  /** collectLeaves(node, leaves): a leaf adds itself; an inner node collects from each child in order. */
  function Leaves<T>(n: Node<T>): (r: seq<Node<T>>)
    ensures 1 <= |r| <= Size(n)
    ensures forall k | 0 <= k < |r| :: IsLeaf(r[k])
    decreases Size(n), 1
  {
    if IsLeaf(n) then [n] else LeavesAll(n.children)
  }

  function LeavesAll<T>(ns: seq<Node<T>>): (r: seq<Node<T>>)
    ensures |ns| <= |r| <= SizeOf(ns)
    ensures forall k | 0 <= k < |r| :: IsLeaf(r[k])
    decreases SizeOf(ns), 2
  {
    if ns == [] then [] else Leaves(ns[0]) + LeavesAll(ns[1..])
  }

  /**
   * getLeaves on the tree whose root is `root`.  The constructor accepts a null root, and
   * collectLeaves then throws a NullPointerException at node.isLeaf().
   */
  function GetLeaves<T>(root: Option<Node<T>>): (r: Result<seq<Node<T>>, string>)
    ensures root.None? <==> r.Failure?
    ensures root.Some? ==>
      r.Success? && r.value == LeafFilter(Preorder(root.value)) && 1 <= |r.value| <= Size(root.value)
  {
    match root
    case None => Failure("NullPointerException")
    case Some(n) =>
      LeavesInPreorder(n);
      Success(Leaves(n))
  }

  /** The leaves among `xs`, in order. */
  function LeafFilter<T>(xs: seq<Node<T>>): (r: seq<Node<T>>)
    ensures |r| <= |xs|
  {
    if xs == [] then [] else (if IsLeaf(xs[0]) then [xs[0]] else []) + LeafFilter(xs[1..])
  }

  lemma {:induction false} LeafFilterAppend<T>(xs: seq<Node<T>>, ys: seq<Node<T>>)
    ensures LeafFilter(xs + ys) == LeafFilter(xs) + LeafFilter(ys)
    decreases |xs|
  {
    if xs == [] {
      assert xs + ys == ys;
    } else {
      var zs := xs + ys;
      assert zs != [] && zs[0] == xs[0] && zs[1..] == xs[1..] + ys;
      var head := if IsLeaf(xs[0]) then [xs[0]] else [];
      assert LeafFilter(zs) == head + LeafFilter(xs[1..] + ys);
      LeafFilterAppend(xs[1..], ys);
      assert LeafFilter(xs) == head + LeafFilter(xs[1..]);
    }
  }

  /** getLeaves lists the leaves of the depth-first order, in that order. */
  lemma {:induction false} LeavesInPreorder<T>(n: Node<T>)
    ensures Leaves(n) == LeafFilter(Preorder(n))
    decreases Size(n), 1
  {
    LeafFilterAppend([n], PreorderAll(n.children));
    assert LeafFilter([n]) == (if IsLeaf(n) then [n] else []);
    LeavesAllInPreorder(n.children);
  }

  lemma {:induction false} LeavesAllInPreorder<T>(ns: seq<Node<T>>)
    ensures LeavesAll(ns) == LeafFilter(PreorderAll(ns))
    decreases SizeOf(ns), 2
  {
    if ns != [] {
      LeavesInPreorder(ns[0]);
      LeavesAllInPreorder(ns[1..]);
      LeafFilterAppend(Preorder(ns[0]), PreorderAll(ns[1..]));
    }
  }

  /** A root without children is its own only leaf. */
  lemma LeafRoot<T>(n: Node<T>)
    requires IsLeaf(n)
    ensures GetLeaves(Some(n)) == Success([n])
  {
  }
}
