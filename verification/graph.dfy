/**
 * The undirected value graph of the board: stations as nodes, each edge labelled with the set
 * of transports connecting its two stations. This states the behaviour of the graph library
 * that the board code relies on.
 */
module Graphs {
  import opened Wrappers
  import opened JavaInts
  import opened ScotlandYard

  /** An unordered pair of stations, stored with the smaller station first. */
  datatype EndpointPair = EndpointPair(nodeU: int32, nodeV: int32)

  /** `EndpointPair.unordered(a, b)`: equal pairs for `{a, b}` whatever the order. */
  function Unordered(a: int32, b: int32): (e: EndpointPair)
    ensures {e.nodeU, e.nodeV} == {a, b}
    ensures e.nodeU <= e.nodeV
  {
    if a <= b then EndpointPair(a, b) else EndpointPair(b, a)
  }

  /** The pair does not depend on the order of its stations, and determines them. */
  lemma UnorderedSymmetric(a: int32, b: int32, c: int32, d: int32)
    ensures Unordered(a, b) == Unordered(b, a)
    ensures Unordered(a, b) == Unordered(c, d) <==> {a, b} == {c, d}
  {
    if {a, b} == {c, d} {
      assert a == c || a == d;
      assert b == c || b == d;
    }
  }

  datatype Graph = Graph(nodes: set<int32>, edges: map<EndpointPair, set<Transport>>)

  const EmptyGraph := Graph({}, map[])

  /** `addNode(n)`. */
  function AddNode(g: Graph, n: int32): (r: Graph)
    ensures r.nodes == g.nodes + {n} && r.edges == g.edges
  {
    Graph(g.nodes + {n}, g.edges)
  }

  /** `edgeValueOrDefault(pair, {})`: the transports of a pair, empty when not connected. */
  function EdgeModes(g: Graph, pair: EndpointPair): (modes: set<Transport>)
    ensures pair in g.edges ==> modes == g.edges[pair]
    ensures pair !in g.edges ==> modes == {}
  {
    if pair in g.edges then g.edges[pair] else {}
  }

  /**
   * `putEdgeValue(pair, value)`: sets the edge value and adds both stations as nodes; `None`
   * for a self-loop, which a graph built with the default `allowsSelfLoops(false)` rejects.
   */
  function PutEdgeValue(g: Graph, pair: EndpointPair, value: set<Transport>): (r: Option<Graph>)
    ensures r.None? <==> pair.nodeU == pair.nodeV
    ensures r.Some? ==> r.value.nodes == g.nodes + {pair.nodeU, pair.nodeV}
    ensures r.Some? ==> EdgeModes(r.value, pair) == value
    ensures r.Some? ==> forall q :: q != pair ==> EdgeModes(r.value, q) == EdgeModes(g, q)
    ensures r.Some? ==> r.value.edges.Keys == g.edges.Keys + {pair}
  {
    if pair.nodeU == pair.nodeV then None
    else Some(Graph(g.nodes + {pair.nodeU, pair.nodeV}, g.edges[pair := value]))
  }
}
