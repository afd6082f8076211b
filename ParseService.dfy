/**
 * The `/parse-text` handler of the parser service: the request body's
 * `text` is checked, handed to the relationship extractor, and answered
 * with its nodes, edges and a `stats` object.
 *
 * The density of the `stats` object is written `E / (N * (N - 1))` under
 * the guard `N > 0`, so a result with a single node divides by zero.
 * `DensityAsWritten` is that expression over JavaScript numbers;
 * `Density` is the density guarded by `N > 1`, as the visualizer guards its
 * own, and it is what `ParseText` reports.
 */
module ParseService {
  import opened Options
  import opened Graph
  import opened Parser
  import opened ParserProperties

  /** A JavaScript number as far as the density needs one: a finite value,
      or the result of dividing by zero. Both non-finite values are written
      as `null` by `JSON.stringify`. */
  datatype JsNumber = Finite(value: real) | Infinity | NaN

  /** `a / b` on non-negative operands. */
  function Divide(a: nat, b: nat): (q: JsNumber)
    ensures b > 0 ==> q == Finite(a as real / b as real)
    ensures b == 0 ==> !q.Finite?
  {
    if b > 0 then Finite(a as real / b as real)
    else if a == 0 then NaN
    else Infinity
  }

  /** `nodes.length > 0 ? edges.length / (nodes.length * (nodes.length - 1)) : 0` */
  function DensityAsWritten(nodeCount: nat, edgeCount: nat): (d: JsNumber)
    ensures nodeCount != 1 ==> d == Finite(Density(nodeCount, edgeCount))
    ensures nodeCount == 1 ==> !d.Finite?
  {
    if nodeCount > 0 then Divide(edgeCount, nodeCount * (nodeCount - 1)) else Finite(0.0)
  }

  /** The density of a directed graph with `nodeCount` nodes, 0 when fewer
      than two nodes leave no pair to connect. */
  function Density(nodeCount: nat, edgeCount: nat): (d: real)
    ensures d >= 0.0
    ensures nodeCount > 1 ==> d * (nodeCount * (nodeCount - 1)) as real == edgeCount as real
    ensures nodeCount <= 1 ==> d == 0.0
  {
    if nodeCount > 1 then edgeCount as real / (nodeCount * (nodeCount - 1)) as real else 0.0
  }

  datatype Stats = Stats(nodeCount: nat, edgeCount: nat, density: real)

  /** The JSON body of the answer, with its HTTP status. */
  datatype ParseResponse =
    | Parsed(nodes: seq<Node>, edges: seq<Edge>, stats: Stats)
    | ParseFailed(status: nat, error: string)

  /** The handler. `text` is `None` when the body has no `text` (or a falsy
      non-string one). */
  method ParseText(text: Option<string>) returns (r: ParseResponse)
    ensures (text.None? || text.value == []) <==> r == ParseFailed(400, "Текст не предоставлен")
    ensures text.Some? && text.value != [] ==>
      && r.Parsed?
      && Extraction(r.nodes, r.edges) == Extract(text.value)
      && r.stats == Stats(|r.nodes|, |r.edges|, Density(|r.nodes|, |r.edges|))
  {
    if text.None? || text.value == [] {
      return ParseFailed(400, "Текст не предоставлен");
    }
    var result := ExtractRelationships(text.value);
    r := Parsed(result.nodes, result.edges,
                Stats(|result.nodes|, |result.edges|, Density(|result.nodes|, |result.edges|)));
  }

  /** Labels only come from edges, so a result with one node has at least
      one edge (a self-loop), and the density as written is then `1 / 0`,
      which is `Infinity` and reaches the client as `null`. */
  lemma OneNodeDensity(text: string)
    requires |Extract(text).nodes| == 1
    ensures |Extract(text).edges| >= 1
    ensures DensityAsWritten(|Extract(text).nodes|, |Extract(text).edges|) == Infinity
  {
    var rels := Relationships(text);
    NumberIds(rels);
    NumberDistinct(rels);
  }
}
