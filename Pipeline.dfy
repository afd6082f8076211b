/**
 * The two services together: the parser's `nodes` and `edges`, sent as
 * they are to the visualizer. Every label the parser reports names exactly
 * one of its nodes, so no edge is dropped, every node has at least one
 * connection, and every ReactFlow id is different from the others.
 */
module Pipeline {
  import opened Options
  import opened Text
  import opened Graph
  import opened Parser
  import opened ParserProperties
  import opened ParseService
  import opened Layout
  import opened Visualizer

  /** A label of the node list is found by `nodes.find`. */
  lemma FindNamed(nodes: seq<Node>, name: string)
    requires name in Names(nodes)
    ensures FindNode(nodes, name).Some?
  {
    var i :| 0 <= i < |Names(nodes)| && Names(nodes)[i] == name;
    assert nodes[i].name == name;
  }

  /** With distinct labels, `nodes.find` returns the node at the label's
      index. */
  lemma FindDistinct(nodes: seq<Node>, i: nat)
    requires i < |nodes|
    requires forall a, b :: 0 <= a < b < |nodes| ==> nodes[a].name != nodes[b].name
    ensures FindNode(nodes, nodes[i].name) == Some(nodes[i])
  {
    var r := FindNode(nodes, nodes[i].name);
    var k :| 0 <= k < |nodes| && nodes[k] == r.value && r.value.name == nodes[i].name
             && forall j :: 0 <= j < k ==> nodes[j].name != nodes[i].name;
    assert k == i;
  }

  /** What the visualizer relies on in the parser's answer: distinct
      labels, node ids `1..n`, edge ids `1..E`, and edges between labels. */
  ghost predicate WellNumbered(nodes: seq<Node>, edges: seq<Edge>) {
    && (forall a, b :: 0 <= a < b < |nodes| ==> nodes[a].name != nodes[b].name)
    && (forall i :: 0 <= i < |nodes| ==> nodes[i].id == i + 1)
    && (forall k :: 0 <= k < |edges| ==> edges[k].id == k + 1)
    && (forall k :: 0 <= k < |edges| ==> edges[k].from in Names(nodes) && edges[k].to in Names(nodes))
  }

  /** The extractor's answer is well numbered. */
  lemma NumberWell(rels: seq<Relationship>)
    ensures WellNumbered(Number(rels).nodes, Number(rels).edges)
  {
    var r := Number(rels);
    NumberIds(rels);
    NumberLabels(rels);
    NumberDistinct(rels);
    forall k | 0 <= k < |r.edges|
      ensures r.edges[k].from in Names(r.nodes) && r.edges[k].to in Names(r.nodes)
    {
      assert r.edges[k] in r.edges;
    }
  }

  /** An edge between two labels of a node list with distinct labels and
      ids `1..n` resolves to the ids of the nodes at those labels. */
  lemma EdgeResolves(nodes: seq<Node>, e: Edge)
    requires forall a, b :: 0 <= a < b < |nodes| ==> nodes[a].name != nodes[b].name
    requires forall i :: 0 <= i < |nodes| ==> nodes[i].id == i + 1
    requires e.from in Names(nodes) && e.to in Names(nodes)
    ensures ResolveEdge(nodes, e).Some?
    ensures forall i :: 0 <= i < |nodes| && nodes[i].name == e.from ==> ResolveEdge(nodes, e).value.source == NatToString(i + 1)
    ensures forall i :: 0 <= i < |nodes| && nodes[i].name == e.to ==> ResolveEdge(nodes, e).value.target == NatToString(i + 1)
  {
    FindNamed(nodes, e.from);
    FindNamed(nodes, e.to);
    forall i | 0 <= i < |nodes|
      ensures FindNode(nodes, nodes[i].name) == Some(nodes[i])
    {
      FindDistinct(nodes, i);
    }
  }

  /** Edges numbered `1..E` between labels of such a node list all become
      ReactFlow edges, in order. */
  lemma EdgesResolve(nodes: seq<Node>, edges: seq<Edge>)
    requires WellNumbered(nodes, edges)
    ensures var flow := FlowEdges(nodes, edges);
      && |flow| == |edges|
      && forall k :: 0 <= k < |edges| ==>
           && flow[k].id == "e" + NatToString(k + 1)
           && (forall i :: 0 <= i < |nodes| && nodes[i].name == edges[k].from ==> flow[k].source == NatToString(i + 1))
           && (forall i :: 0 <= i < |nodes| && nodes[i].name == edges[k].to ==> flow[k].target == NatToString(i + 1))
  {
    forall k | 0 <= k < |edges|
      ensures FindNode(nodes, edges[k].from).Some? && FindNode(nodes, edges[k].to).Some?
    {
      EdgeResolves(nodes, edges[k]);
    }
    FlowEdgesComplete(nodes, edges);
    forall k | 0 <= k < |edges|
      ensures Some(FlowEdges(nodes, edges)[k]) == ResolveEdge(nodes, edges[k])
      ensures ResolveEdge(nodes, edges[k]).Some?
    {
      EdgeResolves(nodes, edges[k]);
    }
  }

  /** The extractor's edges all survive the visualizer: edge `k` becomes
      the ReactFlow edge `"e" + (k + 1)` from the id of the node labelled
      with its `from` to the id of the node labelled with its `to`. */
  lemma NoEdgeDropped(rels: seq<Relationship>)
    ensures var r := Number(rels); var flow := FlowEdges(r.nodes, r.edges);
      && |flow| == |r.edges|
      && forall k :: 0 <= k < |r.edges| ==>
           && flow[k].id == "e" + NatToString(k + 1)
           && (forall i :: 0 <= i < |r.nodes| && r.nodes[i].name == r.edges[k].from ==> flow[k].source == NatToString(i + 1))
           && (forall i :: 0 <= i < |r.nodes| && r.nodes[i].name == r.edges[k].to ==> flow[k].target == NatToString(i + 1))
  {
    NumberWell(rels);
    EdgesResolve(Number(rels).nodes, Number(rels).edges);
  }

  /** Every node the extractor reports has at least one connection. */
  lemma EveryNodeConnected(rels: seq<Relationship>)
    ensures var r := Number(rels);
      forall i :: 0 <= i < |r.nodes| ==> Connections(r.edges, r.nodes[i].name) >= 1
  {
    var r := Number(rels);
    NumberLabels(rels);
    forall i | 0 <= i < |r.nodes|
      ensures Connections(r.edges, r.nodes[i].name) >= 1
    {
      assert Names(r.nodes)[i] == r.nodes[i].name;
      ConnectionsPositive(r.edges, r.nodes[i].name);
    }
  }

  /** Placed well-numbered nodes get distinct ReactFlow ids. */
  lemma FlowNodeIdsDistinct(nodes: seq<Node>, edges: seq<Edge>, placed: seq<Placed>)
    requires WellNumbered(nodes, edges)
    requires |placed| == |nodes|
    requires forall i :: 0 <= i < |placed| ==> placed[i].node == nodes[i]
    ensures var flow := FlowNodes(placed, edges);
      forall i, j :: 0 <= i < j < |flow| ==> flow[i].id != flow[j].id
  {
    var flow := FlowNodes(placed, edges);
    forall i, j | 0 <= i < j < |flow|
      ensures flow[i].id != flow[j].id
    {
      NatToStringInjective(i + 1, j + 1);
    }
  }

  /** Well-numbered edges get distinct ReactFlow ids. */
  lemma FlowEdgeIdsDistinct(nodes: seq<Node>, edges: seq<Edge>)
    requires WellNumbered(nodes, edges)
    ensures var flow := FlowEdges(nodes, edges);
      forall i, j :: 0 <= i < j < |flow| ==> flow[i].id != flow[j].id
  {
    EdgesResolve(nodes, edges);
    var flow := FlowEdges(nodes, edges);
    forall i, j | 0 <= i < j < |flow|
      ensures flow[i].id != flow[j].id
    {
      NatToStringInjective(i + 1, j + 1);
      var a := NatToString(i + 1);
      var b := NatToString(j + 1);
      assert ("e" + a)[1..] == a && ("e" + b)[1..] == b;
    }
  }

  /** The ReactFlow nodes of an extraction, however they were placed, have
      distinct ids, and so have its ReactFlow edges. */
  lemma DistinctIds(rels: seq<Relationship>, placed: seq<Placed>)
    requires |placed| == |Number(rels).nodes|
    requires forall i :: 0 <= i < |placed| ==> placed[i].node == Number(rels).nodes[i]
    ensures var flow := FlowNodes(placed, Number(rels).edges);
      forall i, j :: 0 <= i < j < |flow| ==> flow[i].id != flow[j].id
    ensures var flow := FlowEdges(Number(rels).nodes, Number(rels).edges);
      forall i, j :: 0 <= i < j < |flow| ==> flow[i].id != flow[j].id
  {
    NumberWell(rels);
    FlowNodeIdsDistinct(Number(rels).nodes, Number(rels).edges, placed);
    FlowEdgeIdsDistinct(Number(rels).nodes, Number(rels).edges);
  }

  /** The visualizer's density is twice the parser's (for the parser's
      density as guarded by `N > 1`): it counts every edge for both of its
      ends. */
  lemma DensityTwice(nodeCount: nat, edgeCount: nat)
    ensures GraphDensity(nodeCount, edgeCount) == 2.0 * Density(nodeCount, edgeCount)
  {
  }
}
