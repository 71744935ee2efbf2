/**
 * DirectedGraph: an adjacency-list digraph.  The HashMap from node to neighbour list is a map;
 * a neighbour list keeps insertion order and may hold duplicates.
 */
module Digraph {

  datatype Graph<T> = Graph(adjacency: map<T, seq<T>>)

  /** new DirectedGraph(): no nodes. */
  function EmptyGraph<T>(): (g: Graph<T>)
    ensures GetNodes(g) == {}
  {
    Graph(map[])
  }

  /** getNodes: the key set of the adjacency map. */
  function GetNodes<T>(g: Graph<T>): set<T>
  {
    g.adjacency.Keys
  }

  /** getNeighbors: the node's list, or the empty list for a node the graph does not hold. */
  function GetNeighbors<T>(g: Graph<T>, n: T): (r: seq<T>)
    ensures n !in GetNodes(g) ==> r == []
  {
    if n in g.adjacency then g.adjacency[n] else []
  }

  /** addNode (putIfAbsent): a new node starts with no neighbours; an existing one keeps its list. */
  function AddNode<T>(g: Graph<T>, n: T): (r: Graph<T>)
    ensures GetNodes(r) == GetNodes(g) + {n}
    ensures forall m | m in GetNodes(r) :: GetNeighbors(r, m) == GetNeighbors(g, m)
  {
    if n in g.adjacency then g else Graph(g.adjacency[n := []])
  }

  /**
   * addEdge(source, destination): both ends become nodes, the destination is appended to the
   * source's list, and every other list is unchanged.
   */
  function AddEdge<T>(g: Graph<T>, source: T, destination: T): (r: Graph<T>)
    ensures GetNodes(r) == GetNodes(g) + {source, destination}
    ensures GetNeighbors(r, source) == GetNeighbors(g, source) + [destination]
    ensures forall m | m in GetNodes(r) && m != source :: GetNeighbors(r, m) == GetNeighbors(g, m)
  {
    var h := AddNode(AddNode(g, source), destination);
    Graph(h.adjacency[source := h.adjacency[source] + [destination]])
  }

  /** Adding a node twice is adding it once. */
  lemma AddNodeIdempotent<T>(g: Graph<T>, n: T)
    ensures AddNode(AddNode(g, n), n) == AddNode(g, n)
  {
  }

  // ----- A graph built by a sequence of calls -----

  datatype Call<T> = AddNodeCall(node: T) | AddEdgeCall(source: T, destination: T)

  function Apply<T>(g: Graph<T>, calls: seq<Call<T>>): Graph<T>
    decreases |calls|
  {
    if calls == [] then g
    else
      var last := calls[|calls| - 1];
      var h := Apply(g, calls[..|calls| - 1]);
      match last
      case AddNodeCall(n) => AddNode(h, n)
      case AddEdgeCall(s, d) => AddEdge(h, s, d)
  }

  /** Every node a call names. */
  function Mentioned<T>(calls: seq<Call<T>>): set<T>
    decreases |calls|
  {
    if calls == [] then {}
    else
      Mentioned(calls[..|calls| - 1]) +
      match calls[|calls| - 1]
      case AddNodeCall(n) => {n}
      case AddEdgeCall(s, d) => {s, d}
  }

  /** The destinations of the edges from `n`, in call order. */
  function EdgesFrom<T(==)>(calls: seq<Call<T>>, n: T): seq<T>
    decreases |calls|
  {
    if calls == [] then []
    else
      EdgesFrom(calls[..|calls| - 1], n) +
      match calls[|calls| - 1]
      case AddEdgeCall(s, d) => if s == n then [d] else []
      case AddNodeCall(_) => []
  }

  /**
   * From an empty graph, getNodes is exactly the set of nodes named by the calls, and the
   * neighbours of a node are the destinations of its edges in the order they were added.
   */
  lemma {:induction false} BuiltGraph<T>(calls: seq<Call<T>>)
    ensures GetNodes(Apply(EmptyGraph(), calls)) == Mentioned(calls)
    ensures forall n :: GetNeighbors(Apply(EmptyGraph(), calls), n) == EdgesFrom(calls, n)
    decreases |calls|
  {
    if calls != [] {
      BuiltGraph(calls[..|calls| - 1]);
    }
  }
}
