/** The graph container: nodes addressed by index and a list of directed
    edges, each carrying an `Edge` weight naming the source output and the
    destination input. The edge list is kept in the order in which the graph
    library enumerates edges; the incoming and outgoing edges of a node are
    that list filtered, order preserved. */
module Graphs {

  /** A connection from an output of the source node to an input of the
      destination node. */
  datatype Edge = Edge(output: nat, input: nat)

  /** `Edge::new(output, input)` */
  function NewEdge(output: nat, input: nat): (e: Edge)
    ensures e.output == output && e.input == input
  {
    Edge(output, input)
  }

  /** `Edge::from((a, b))` */
  function EdgeFromPair(pair: (nat, nat)): (e: Edge)
    ensures (e.output, e.input) == pair
  {
    Edge(pair.0, pair.1)
  }

  /** Both constructors agree, and an edge is determined by its two ports. */
  lemma EdgeConstructorsAgree(output: nat, input: nat)
    ensures EdgeFromPair((output, input)) == NewEdge(output, input)
    ensures EdgeFromPair((output, input)) == Edge(output, input)
  {
  }

  datatype EdgeRef = EdgeRef(source: nat, target: nat, weight: Edge)

  datatype Graph<N> = Graph(nodes: seq<N>, edges: seq<EdgeRef>)

  /** Every edge joins two existing nodes (the graph library refuses others). */
  predicate Valid<N>(g: Graph<N>) {
    forall i :: 0 <= i < |g.edges| ==> g.edges[i].source < |g.nodes| && g.edges[i].target < |g.nodes|
  }

  /** Edges leaving `n`, in enumeration order. */
  function Outgoing(edges: seq<EdgeRef>, n: nat): (r: seq<EdgeRef>)
    ensures forall e :: e in r <==> e in edges && e.source == n
    ensures forall i :: 0 <= i < |r| ==> r[i].source == n
  {
    if |edges| == 0 then []
    else (if edges[0].source == n then [edges[0]] else []) + Outgoing(edges[1..], n)
  }

  /** Edges entering `n`, in enumeration order. */
  function Incoming(edges: seq<EdgeRef>, n: nat): (r: seq<EdgeRef>)
    ensures forall e :: e in r <==> e in edges && e.target == n
    ensures forall i :: 0 <= i < |r| ==> r[i].target == n
  {
    if |edges| == 0 then []
    else (if edges[0].target == n then [edges[0]] else []) + Incoming(edges[1..], n)
  }

  function Weights(es: seq<EdgeRef>): (ws: seq<Edge>)
    ensures |ws| == |es|
    ensures forall i :: 0 <= i < |es| ==> ws[i] == es[i].weight
  {
    seq(|es|, i requires 0 <= i < |es| => es[i].weight)
  }

  function Targets(es: seq<EdgeRef>): (ts: seq<nat>)
    ensures |ts| == |es|
    ensures forall i :: 0 <= i < |es| ==> ts[i] == es[i].target
  {
    seq(|es|, i requires 0 <= i < |es| => es[i].target)
  }

  /** The neighbours of `n` along outgoing edges, one per edge. */
  function Successors<N>(g: Graph<N>, n: nat): (r: seq<nat>)
    ensures Valid(g) ==> forall u :: u in r ==> u < |g.nodes|
  {
    var out := Outgoing(g.edges, n);
    assert forall i :: 0 <= i < |out| ==> out[i] in out && out[i] in g.edges;
    Targets(out)
  }

  predicate Adjacent<N>(g: Graph<N>, a: nat, b: nat) {
    b in Successors(g, a)
  }

  ghost predicate IsPath<N>(g: Graph<N>, p: seq<nat>) {
    1 <= |p| && forall i :: 0 <= i < |p| - 1 ==> Adjacent(g, p[i], p[i + 1])
  }

  /** `t` can be reached from `s` by following outgoing edges. */
  ghost predicate Reachable<N>(g: Graph<N>, s: nat, t: nat) {
    exists p :: IsPath(g, p) && p[0] == s && p[|p| - 1] == t
  }

  lemma ReachableRefl<N>(g: Graph<N>, s: nat)
    ensures Reachable(g, s, s)
  {
    assert IsPath(g, [s]);
  }

  lemma ReachableStep<N>(g: Graph<N>, s: nat, a: nat, b: nat)
    requires Reachable(g, s, a) && Adjacent(g, a, b)
    ensures Reachable(g, s, b)
  {
    var p :| IsPath(g, p) && p[0] == s && p[|p| - 1] == a;
    var q := p + [b];
    assert forall i :: 0 <= i < |q| - 1 ==> q[i] == p[i];
    assert IsPath(g, q);
  }

  /** `AddNode::add_node`: appends the node and returns its fresh index. */
  function AddNode<N>(g: Graph<N>, n: N): (r: (Graph<N>, nat))
    ensures r.1 == |g.nodes| && r.1 < |r.0.nodes|
    ensures r.0.nodes[r.1] == n
    ensures r.0.nodes[..r.1] == g.nodes && r.0.edges == g.edges
  {
    (Graph(g.nodes + [n], g.edges), |g.nodes|)
  }

  /** Adds an edge; the newest edge is enumerated first, as the graph
      library's adjacency lists do. */
  function AddEdge<N>(g: Graph<N>, a: nat, b: nat, w: Edge): Graph<N> {
    Graph(g.nodes, [EdgeRef(a, b, w)] + g.edges)
  }
}
