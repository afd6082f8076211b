/**
 * The graph shape shared by the two services: what the parser returns in its
 * `nodes` and `edges` arrays and what the visualizer receives in its request
 * body. Edges refer to nodes by label, not by id.
 */
module Graph {
  /** `{ id, label }`; the label is the field `name` here because `label` is
      a reserved word of Dafny. */
  datatype Node = Node(id: nat, name: string)

  /** `{ id, from, to }` */
  datatype Edge = Edge(id: nat, from: string, to: string)

  /** The labels at either end of some edge. */
  function Ends(edges: seq<Edge>): set<string> {
    (set e | e in edges :: e.from) + (set e | e in edges :: e.to)
  }
}
