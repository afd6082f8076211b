/**
 * The `/generate-visual` handler of the visualizer service: it checks that
 * the request body has `nodes` and `edges`, lays the nodes out, and answers
 * with ReactFlow nodes (each with its number of incident edges), ReactFlow
 * edges (resolved from labels to node ids, dangling ones dropped) and
 * metadata about the graph.
 */
module Visualizer {
  import opened Options
  import opened Text
  import opened Graph
  import opened Layout

  // ---------------------------------------------------------------------
  // Incident edges

  /** `edges.filter((e) => e.from === node.label || e.to === node.label)` */
  function Touching(edges: seq<Edge>, name: string): (r: seq<Edge>)
    ensures |r| <= |edges|
    ensures forall e :: e in r <==> e in edges && (e.from == name || e.to == name)
  {
    if edges == [] then []
    else
      var e := edges[|edges| - 1];
      Touching(edges[..|edges| - 1], name) + (if e.from == name || e.to == name then [e] else [])
  }

  /** `connections`: how many edges have the label at one end or both. */
  function Connections(edges: seq<Edge>, name: string): nat {
    |Touching(edges, name)|
  }

  /** How many edges leave the label, enter it, and do both. */
  function Outgoing(edges: seq<Edge>, name: string): nat {
    if edges == [] then 0
    else Outgoing(edges[..|edges| - 1], name) + (if edges[|edges| - 1].from == name then 1 else 0)
  }

  function Incoming(edges: seq<Edge>, name: string): nat {
    if edges == [] then 0
    else Incoming(edges[..|edges| - 1], name) + (if edges[|edges| - 1].to == name then 1 else 0)
  }

  function Loops(edges: seq<Edge>, name: string): nat {
    if edges == [] then 0
    else Loops(edges[..|edges| - 1], name) + (if edges[|edges| - 1].from == name == edges[|edges| - 1].to then 1 else 0)
  }

  /** The count is the out-degree plus the in-degree with self-loops taken
      once, because each edge is counted once whichever of its ends match. */
  lemma {:induction false} ConnectionsByDegree(edges: seq<Edge>, name: string)
    ensures Connections(edges, name) + Loops(edges, name) == Outgoing(edges, name) + Incoming(edges, name)
  {
    if edges != [] {
      ConnectionsByDegree(edges[..|edges| - 1], name);
    }
  }

  /** A label has connections exactly when it is the end of some edge, and
      never more than there are edges. */
  lemma {:induction false} ConnectionsPositive(edges: seq<Edge>, name: string)
    ensures Connections(edges, name) > 0 <==> name in Ends(edges)
    ensures Connections(edges, name) <= |edges|
  {
    if edges != [] {
      var init := edges[..|edges| - 1];
      var e := edges[|edges| - 1];
      ConnectionsPositive(init, name);
      assert edges == init + [e];
      EndsPush(init, e);
    }
  }

  lemma EndsPush(edges: seq<Edge>, e: Edge)
    ensures Ends(edges + [e]) == Ends(edges) + {e.from, e.to}
  {
    var all := edges + [e];
    forall y | y in Ends(all)
      ensures y in Ends(edges) + {e.from, e.to}
    {
      var d :| d in all && (d.from == y || d.to == y);
      if d != e {
        assert d in edges;
      }
    }
    forall y | y in Ends(edges)
      ensures y in Ends(all)
    {
      var d :| d in edges && (d.from == y || d.to == y);
      assert d in all;
    }
    assert e in all;
  }

  // ---------------------------------------------------------------------
  // Resolving edges

  /** `nodes.find((n) => n.label === label)`: the first node with the
      label, if there is one. */
  function FindNode(nodes: seq<Node>, name: string): (r: Option<Node>)
    ensures r.None? <==> forall i :: 0 <= i < |nodes| ==> nodes[i].name != name
    ensures r.Some? ==> exists i :: 0 <= i < |nodes| && nodes[i] == r.value && r.value.name == name
                          && forall j :: 0 <= j < i ==> nodes[j].name != name
  {
    if nodes == [] then None
    else if nodes[0].name == name then Some(nodes[0])
    else
      var r := FindNode(nodes[1..], name);
      if r.Some? then
        var i :| 0 <= i < |nodes[1..]| && nodes[1..][i] == r.value && r.value.name == name
                 && forall j :: 0 <= j < i ==> nodes[1..][j].name != name;
        assert nodes[i + 1] == r.value;
        r
      else r
  }

  /** `getEdgeColor(edge)`, the same for every edge. */
  function EdgeColor(edge: Edge): string {
    "#555"
  }

  /** One ReactFlow edge: `id`, `source`, `target`, `animated`,
      `style.stroke`, `style.strokeWidth`, `markerEnd.type`,
      `markerEnd.color`. */
  datatype FlowEdge = FlowEdge(id: string, source: string, target: string, animated: bool,
                               stroke: string, strokeWidth: nat, markerType: string, markerColor: string)

  /** The `map` callback: the ReactFlow edge, or `null` when an end names no
      node. */
  function ResolveEdge(nodes: seq<Node>, edge: Edge): (r: Option<FlowEdge>)
    ensures r.Some? <==> FindNode(nodes, edge.from).Some? && FindNode(nodes, edge.to).Some?
    ensures r.Some? ==>
      && r.value.id == "e" + NatToString(edge.id)
      && r.value.source == NatToString(FindNode(nodes, edge.from).value.id)
      && r.value.target == NatToString(FindNode(nodes, edge.to).value.id)
  {
    var source := FindNode(nodes, edge.from);
    var target := FindNode(nodes, edge.to);
    if source.None? || target.None? then None
    else
      Some(FlowEdge("e" + NatToString(edge.id), NatToString(source.value.id), NatToString(target.value.id),
                    true, EdgeColor(edge), 2, "arrowclosed", EdgeColor(edge)))
  }

  /** `.filter(Boolean)`: the present values, in order. */
  function Present<T>(xs: seq<Option<T>>): seq<T> {
    if xs == [] then []
    else Present(xs[..|xs| - 1]) + (if xs[|xs| - 1].Some? then [xs[|xs| - 1].value] else [])
  }

  /** Where the present values are. */
  function PresentAt<T>(xs: seq<Option<T>>): seq<nat> {
    if xs == [] then []
    else PresentAt(xs[..|xs| - 1]) + (if xs[|xs| - 1].Some? then [|xs| - 1] else [])
  }

  /** Filtering keeps exactly the present values, in their order: the
      `j`-th kept value sits at the `j`-th present position, the positions
      increase, and every present position is among them. */
  lemma {:induction false} PresentOrder<T>(xs: seq<Option<T>>)
    ensures |PresentAt(xs)| == |Present(xs)|
    ensures forall j :: 0 <= j < |PresentAt(xs)| ==>
      PresentAt(xs)[j] < |xs| && xs[PresentAt(xs)[j]] == Some(Present(xs)[j])
    ensures forall j, l :: 0 <= j < l < |PresentAt(xs)| ==> PresentAt(xs)[j] < PresentAt(xs)[l]
    ensures forall k :: 0 <= k < |xs| && xs[k].Some? ==> k in PresentAt(xs)
  {
    if xs != [] {
      PresentOrder(xs[..|xs| - 1]);
    }
  }

  /** When nothing is missing the filter keeps everything. */
  lemma {:induction false} PresentAll<T>(xs: seq<Option<T>>)
    requires forall k :: 0 <= k < |xs| ==> xs[k].Some?
    ensures |Present(xs)| == |xs|
    ensures forall k :: 0 <= k < |xs| ==> Present(xs)[k] == xs[k].value
  {
    if xs != [] {
      PresentAll(xs[..|xs| - 1]);
    }
  }

  /** `flowEdges`: every input edge is resolved against the request's
      nodes, and those with a dangling end are dropped. */
  function FlowEdges(nodes: seq<Node>, edges: seq<Edge>): seq<FlowEdge> {
    Present(seq(|edges|, k requires 0 <= k < |edges| => ResolveEdge(nodes, edges[k])))
  }

  /** The ReactFlow edges are the resolvable input edges, in input order. */
  lemma FlowEdgesOrder(nodes: seq<Node>, edges: seq<Edge>)
    ensures var at := PresentAt(seq(|edges|, k requires 0 <= k < |edges| => ResolveEdge(nodes, edges[k])));
      && |at| == |FlowEdges(nodes, edges)|
      && (forall j :: 0 <= j < |at| ==> at[j] < |edges| && ResolveEdge(nodes, edges[at[j]]) == Some(FlowEdges(nodes, edges)[j]))
      && (forall j, l :: 0 <= j < l < |at| ==> at[j] < at[l])
      && (forall k :: 0 <= k < |edges| && ResolveEdge(nodes, edges[k]).Some? ==> k in at)
  {
    PresentOrder(seq(|edges|, k requires 0 <= k < |edges| => ResolveEdge(nodes, edges[k])));
  }

  /** When both ends of every edge name a node, no edge is dropped, and the
      `k`-th ReactFlow edge is the `k`-th input edge. */
  lemma FlowEdgesComplete(nodes: seq<Node>, edges: seq<Edge>)
    requires forall k :: 0 <= k < |edges| ==> FindNode(nodes, edges[k].from).Some? && FindNode(nodes, edges[k].to).Some?
    ensures |FlowEdges(nodes, edges)| == |edges|
    ensures forall k :: 0 <= k < |edges| ==> Some(FlowEdges(nodes, edges)[k]) == ResolveEdge(nodes, edges[k])
  {
    PresentAll(seq(|edges|, k requires 0 <= k < |edges| => ResolveEdge(nodes, edges[k])));
  }

  // ---------------------------------------------------------------------
  // The response

  /** One ReactFlow node: `id`, `type`, `position`, `data.label`,
      `data.connections`. */
  datatype FlowNode = FlowNode(id: string, kind: string, position: Point, name: string, connections: nat)

  /** `positionedNodes.map(...)` */
  function FlowNodes(placed: seq<Placed>, edges: seq<Edge>): (r: seq<FlowNode>)
    ensures |r| == |placed|
  {
    seq(|placed|, i requires 0 <= i < |placed| =>
      FlowNode(NatToString(placed[i].node.id), "customNode", placed[i].position, placed[i].node.name,
               Connections(edges, placed[i].node.name)))
  }

  /** `(edges.length / (nodes.length * (nodes.length - 1))) * 2`, or 0 when
      there are fewer than two nodes. */
  function GraphDensity(nodeCount: nat, edgeCount: nat): (d: real)
    ensures d >= 0.0
    ensures nodeCount > 1 ==> d * (nodeCount * (nodeCount - 1)) as real == 2.0 * edgeCount as real
    ensures nodeCount <= 1 ==> d == 0.0
  {
    if nodeCount > 1 then (edgeCount as real / (nodeCount * (nodeCount - 1)) as real) * 2.0 else 0.0
  }

  datatype Metadata = Metadata(totalNodes: nat, totalEdges: nat, graphDensity: real)

  datatype VisualResponse =
    | Visual(nodes: seq<FlowNode>, edges: seq<FlowEdge>, layout: string, theme: string, metadata: Metadata)
    | VisualFailed(status: nat, error: string)

  /** The answer for `nodes` and `edges` both present, given the layout. */
  function Answer(nodes: seq<Node>, edges: seq<Edge>, placed: seq<Placed>): VisualResponse {
    Visual(FlowNodes(placed, edges), FlowEdges(nodes, edges), "force-directed", "light",
           Metadata(|nodes|, |edges|, GraphDensity(|nodes|, |edges|)))
  }

  /** The handler. `nodes` or `edges` is `None` when the body lacks it (or
      holds a falsy value); an empty array is present. */
  method GenerateVisual(nodes: Option<seq<Node>>, edges: Option<seq<Edge>>, unit: Unit, rand: Random, forces: Forces)
      returns (r: VisualResponse)
    ensures (nodes.None? || edges.None?) <==> r == VisualFailed(400, "Данные не предоставлены")
    ensures nodes.Some? && edges.Some? ==>
      r == Answer(nodes.value, edges.value, Positions(nodes.value, edges.value, unit, rand, forces))
  {
    if nodes.None? || edges.None? {
      return VisualFailed(400, "Данные не предоставлены");
    }
    var placed := GenerateNodePositions(nodes.value, edges.value, unit, rand, forces);
    r := Answer(nodes.value, edges.value, placed);
  }

  /** The ReactFlow nodes are the request's nodes in order, each with its
      own id and label, the position the layout gave it and its number of
      incident edges. Up to eight nodes sit on the circle, and every position
      is inside the canvas (on the circle branch, when `unit` is the unit
      circle); the metadata counts the request's arrays. */
  lemma AnswerShape(nodes: seq<Node>, edges: seq<Edge>, unit: Unit, rand: Random, forces: Forces)
    ensures var r := Answer(nodes, edges, Positions(nodes, edges, unit, rand, forces));
      && |r.nodes| == |nodes|
      && (forall i :: 0 <= i < |nodes| ==>
            r.nodes[i].id == NatToString(nodes[i].id) && r.nodes[i].name == nodes[i].name
            && r.nodes[i].connections == Connections(edges, nodes[i].name))
      && (|nodes| <= CircleLimit ==> forall i :: 0 <= i < |nodes| ==> r.nodes[i].position == CirclePoint(unit, i, |nodes|))
      && (|nodes| > CircleLimit || IsUnitCircle(unit) ==> forall i :: 0 <= i < |nodes| ==> InBounds(r.nodes[i].position))
      && |r.edges| <= |edges|
      && r.metadata.totalNodes == |nodes| && r.metadata.totalEdges == |edges|
  {
    PositionsShape(nodes, edges, unit, rand, forces);
    PresentOrder(seq(|edges|, k requires 0 <= k < |edges| => ResolveEdge(nodes, edges[k])));
    PresentLength(seq(|edges|, k requires 0 <= k < |edges| => ResolveEdge(nodes, edges[k])));
  }

  lemma {:induction false} PresentLength<T>(xs: seq<Option<T>>)
    ensures |Present(xs)| <= |xs|
  {
    if xs != [] {
      PresentLength(xs[..|xs| - 1]);
    }
  }
}
