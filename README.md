# Napkin-mini: text-to-graph extraction and graph layout, in Dafny

Napkin-mini turns free text into a diagram, using two HTTP services.

- The **parser service** (`POST /parse-text`) splits the text into
  sentences. It runs three case-insensitive regular expressions over every
  sentence: `A is connected to B`, `связь: A -> B` and `A -> B`. It answers
  with numbered nodes (the distinct labels, in first-seen order), numbered
  edges (every match, in order) and a `stats` object.
- The **visualizer service** (`POST /generate-visual`) takes those nodes and
  edges and places the nodes. Up to eight nodes go on a circle; more nodes
  go through a 50-step force simulation clamped to an 800 x 600 canvas.
  It answers with ReactFlow nodes (each with its number of incident edges),
  ReactFlow edges (labels resolved to node ids, dangling edges dropped) and
  metadata.

The modules:

| module | what it models |
|---|---|
| `Options` | `Option`, for absent values and failed lookups |
| `Graph` | the `{id, label}` node and `{id, from, to}` edge records, and the labels at the ends of an edge list |
| `Text` | the character classes of the expressions, `trim`, `split(/[.;\n]/)` and `String(n)` |
| `Scanner` | the three expressions as scanners, their regular languages, and the global `exec` with its `lastIndex` (class `RegExp`) |
| `Parser` | `extractRelationships`: a specification `Extract`, plus the imperative loops proved equal to it |
| `ParserProperties` | what the extraction promises: trimmed labels, order, distinct numbered nodes, edges between nodes |
| `ParseService` | the `/parse-text` handler and its `stats` |
| `Layout` | `generateNodePositions`: the circle, and the force simulation over arrays |
| `Visualizer` | the `/generate-visual` handler: connection counts, edge resolution, metadata |
| `Pipeline` | the parser's answer fed to the visualizer |
| `Scenarios` | worked inputs: the arrow chain, `связь: a -> b`, a self-loop, a dangling edge |

Three behaviours of the code are easy to misread:

- A self-loop `a -> a` counts as one connection of `a` (a degree sum would
  count it twice). The count is a filter over the edges.
- `A -> B -> C -> D` gives `A→B` and `C→D` only. Each `exec` resumes after
  the previous match, so `B -> C` is never seen.
- The parser's density is guarded by `N > 0`, not `N > 1`, so a single
  node divides by zero. `DensityAsWritten` models that expression;
  `ParseText` reports the corrected density instead (see Findings).

The trigonometry, `Math.random` and the force arithmetic are parameters of
the layout. `unit(t)` is the point `(cos 2πt, sin 2πt)`. `rand(k)` is the
`k`-th `Math.random()` value. `forces(nodes, edges, positions, i)` is the
velocity that the repulsion and attraction loops give node `i`. Positions
are reals.

## Model

| member | source | states |
|---|---|---|
| Text.Trim | server/parser-service.js:17 | `trim` is the slice of the input left after cutting off whitespace only, at both ends; it is empty exactly when the string is all whitespace, otherwise it has no whitespace at either end, and a string with none at its ends is its own trim |
| Text.Split | server/parser-service.js:33 | the sentence split gives at least one piece and no piece holds `.`, `;` or a newline |
| Text.SplitPlain | server/parser-service.js:33 | a text without separators is a single sentence |
| Text.SplitJoin | server/parser-service.js:33 | splitting loses nothing: there is one more piece than separators, and rejoining the pieces with the separators gives back the text |
| Text.ParseNatToString | server/visualizer-service.js:129 | `String(id)` of a non-negative integer id (below 10^21) reads back as the same number |
| Text.NatToStringInjective | server/visualizer-service.js:149-151 | distinct ids print as distinct strings |
| Scanner.TokenEnd | server/parser-service.js:16 | the longest run of `[a-zа-я0-9_]` characters (any case) from a position: every character in it is a token character and the next one is not |
| Scanner.PhraseEnd | server/parser-service.js:16 | the greedy `[tok]+(\s+[tok]+)*` from a token character matches the phrase language and ends before a non-token character |
| Scanner.PhraseEndLongest | server/parser-service.js:16 | no phrase from that position is longer than the greedy one |
| Scanner.MatchAt | server/parser-service.js:16-26 | a match found at `p` starts at `p`, consumes at least one character, starts on a non-space, and its two groups are labels taken from the input |
| Scanner.MatchAtSound | server/parser-service.js:16-26 | what the scanner returns is in the language of the expression, with those groups |
| Scanner.MatchAtComplete | server/parser-service.js:16-26 | whenever the expression can match at `p`, the scanner matches there with the same first group and the greedy, longest second group |
| Scanner.Compile | server/parser-service.js:41 | the compiled expression only reports matches that start where it was asked and consume a character |
| Scanner.ExecFrom | server/parser-service.js:45 | `exec` from `lastIndex` returns the leftmost match at or after it, and nothing is found in between; null means no match starts anywhere after it |
| Scanner.AllMatches | server/parser-service.js:45-59 | the `exec` loop's matches are left to right, do not overlap, each consumes a character and each is what the expression finds at its start |
| Scanner.AllMatchesStep | server/parser-service.js:45 | one turn of the loop: the found match comes first and the scan resumes at its end |
| Scanner.AllMatchesLeftmost | server/parser-service.js:45 | no match starts in front of the first match, between two consecutive ones, or after the last |
| Scanner.RegExp.constructor | server/parser-service.js:41 | `new RegExp(pattern.regex)` starts with `lastIndex` 0 |
| Scanner.RegExp.Exec | server/parser-service.js:45 | `exec` returns the leftmost match from `lastIndex` and moves `lastIndex` to its end, or returns null and resets `lastIndex` to 0 |
| Scanner.PatternMatches | server/parser-service.js:39-45 | every match of a pattern on a sentence is a valid match at its start |
| Scanner.BlankHasNoMatches | server/parser-service.js:37 | no expression matches an all-whitespace sentence, so skipping blank sentences loses nothing |
| Parser.Add | server/parser-service.js:49-50 | `Set.add` keeps the set's elements plus the new one, with no duplicates |
| Parser.Dedup | server/parser-service.js:31 | the insertion-ordered set of a label list has each label once and nothing else |
| Parser.ExtractRelationships | server/parser-service.js:8-77 | the loop program returns exactly `Extract(text)`, the specification of the whole transform |
| Parser.ScanSentences | server/parser-service.js:36-61 | after the sentence loop, the edges are the relationships of all sentences in order, and the node set is the deduplicated list of their endpoints |
| Parser.ApplySentence | server/parser-service.js:37-60 | one sentence appends its relationships; a blank one appends nothing |
| Parser.ScanPatterns | server/parser-service.js:39-60 | the pattern loop appends the copula, then the `связь:` arrow, then the bare arrow relationships |
| Parser.ApplyPattern | server/parser-service.js:41-59 | a fresh expression on a sentence appends the accepted relationships of all its matches |
| Parser.ScanSentence | server/parser-service.js:45-59 | the `exec` loop appends, in match order, every processed match that passes `from && to`, and adds its labels to the set |
| ParserProperties.TrimLabel | server/parser-service.js:17 | a captured group is its own trim |
| ParserProperties.ProcessLabels | server/parser-service.js:17-27 | `process` on a match keeps both groups as they are, case included, and `from && to` holds |
| ParserProperties.AcceptedCaptures | server/parser-service.js:45-52 | the `from && to` guard never drops a match: the pushed relationships are exactly the groups of the matches |
| ParserProperties.PatternsInOrder | server/parser-service.js:39-60 | a sentence's relationships are its copula matches, then its `связь:` matches, then its bare arrow matches, each in text order |
| ParserProperties.SentenceCaptures | server/parser-service.js:36-60 | the same for a sentence, the blank-sentence skip included |
| ParserProperties.SentenceLabelled | server/parser-service.js:48-52 | every label of a sentence is a non-empty token phrase without a separator |
| ParserProperties.RelationshipsLabelled | server/parser-service.js:33-61 | every label of a text is such a phrase, so no match crosses a sentence boundary |
| ParserProperties.OneSentence | server/parser-service.js:33-60 | a text without separators has the relationships of its only sentence |
| ParserProperties.EndpointsShape | server/parser-service.js:49-50 | the set receives `from` then `to` of every relationship, two labels per edge |
| ParserProperties.EndpointsMembers | server/parser-service.js:49-50 | a label is added exactly when some relationship has it at one end |
| ParserProperties.DedupFirstSeen | server/parser-service.js:31 | the set lists its labels in the order of their first occurrence |
| ParserProperties.NumberIds | server/parser-service.js:64-74 | edge `k` is `{id: k+1, from, to}` of the `k`-th relationship, node `k` has id `k+1`, and the node labels are the set in insertion order |
| ParserProperties.NumberDistinct | server/parser-service.js:64-67 | node labels are distinct and there are at most twice as many nodes as edges |
| ParserProperties.NumberLabels | server/parser-service.js:49-74 | a label is a node exactly when it is an end of an edge |
| ParserProperties.NumberFirstSeen | server/parser-service.js:64-67 | nodes are numbered in first-seen order of their labels among the endpoints |
| ParserProperties.ExtractEmpty | server/parser-service.js:9 | the empty text gives no nodes and no edges |
| ParseService.Divide | server/parser-service.js:106-107 | JavaScript `/` on counts: the real quotient for a non-zero divisor, a non-finite number for zero |
| ParseService.DensityAsWritten | server/parser-service.js:104-108 | the density as written is finite, and equals the guarded density, except for a single node, where it is not finite |
| ParseService.Density | server/parser-service.js:104-108 | the density is non-negative, is `E / (N (N − 1))` for two or more nodes, and is 0 otherwise |
| ParseService.ParseText | server/parser-service.js:79-110 | a missing or empty `text` gives exactly the 400 `Текст не предоставлен`; any other text gives the extraction's nodes and edges with `nodeCount`, `edgeCount` and the corrected density |
| ParseService.OneNodeDensity | server/parser-service.js:104-108 | a one-node extraction has an edge, and its density as written is `Infinity` |
| Layout.CircularByIndex | server/visualizer-service.js:15-26 | on the circle, a node's position depends only on its index and the number of nodes |
| Layout.CircularOnCircle | server/visualizer-service.js:17-24 | every circle position is at distance 190 from the centre (400, 300) |
| Layout.CircularInBounds | server/visualizer-service.js:15-26 | the circle lies inside the canvas: every node of the circular branch is inside [50, 750] x [50, 550] |
| Layout.Simulate | server/visualizer-service.js:44-106 | the simulation keeps one position per node |
| Layout.InitialInBounds | server/visualizer-service.js:31-38 | with `Math.random()` values in [0, 1), every starting position is inside the canvas |
| Layout.ForcePlacement | server/visualizer-service.js:31-108 | the force branch returns every input node, in order |
| Layout.MoveInBounds | server/visualizer-service.js:96-104 | after an update a node is inside [50, 750] x [50, 550], whatever its velocity |
| Layout.MoveBounded | server/visualizer-service.js:93-94 | from inside the canvas, an update moves each coordinate by at most 10, and a node at rest stays put |
| Layout.SimulateInBounds | server/visualizer-service.js:44-106 | after one or more iterations every node is inside the canvas |
| Layout.SimulateDrift | server/visualizer-service.js:44-106 | from inside the canvas, `k` iterations move each coordinate by at most `10 k` |
| Layout.ForceDrift | server/visualizer-service.js:31-108 | with `Math.random()` values in [0, 1), every node of the force branch ends at most 500 from its starting position in each coordinate |
| Layout.PositionsShape | server/visualizer-service.js:8-109 | one placed node per input node, in order, the node unchanged. Up to eight nodes are placed on the circle; with more, every node carries a velocity. Every node ends inside the canvas in either branch (on the circle, given a unit-circle `unit`) |
| Layout.ForceLayout | server/visualizer-service.js:31-108 | the array program with its 50-iteration loop returns the force branch's nodes |
| Layout.ComputeVelocities | server/visualizer-service.js:46-89 | every velocity of an iteration is computed from the positions the iteration starts with |
| Layout.UpdatePositions | server/visualizer-service.js:92-105 | every position becomes its limited, clamped update and nothing else changes |
| Layout.GenerateNodePositions | server/visualizer-service.js:8-109 | the method returns `Positions`: the circle for up to eight nodes, the force branch otherwise |
| Visualizer.Touching | server/visualizer-service.js:134-136 | an edge is kept by the filter exactly when it is one of the edges and has the label at one end; the filter never returns more than the edges |
| Visualizer.ConnectionsByDegree | server/visualizer-service.js:134-136 | connections plus self-loops equal out-degree plus in-degree, so a self-loop counts once |
| Visualizer.ConnectionsPositive | server/visualizer-service.js:134-136 | a label has connections exactly when it ends some edge, and never more than there are edges |
| Visualizer.FindNode | server/visualizer-service.js:143-144 | `nodes.find` fails exactly when no node has the label, and otherwise returns the first one that does |
| Visualizer.ResolveEdge | server/visualizer-service.js:142-162 | an edge resolves exactly when both labels name nodes; it then gets id `e` + edge id and the ids of the two found nodes |
| Visualizer.PresentOrder | server/visualizer-service.js:163 | `filter(Boolean)` keeps exactly the present values, in their order |
| Visualizer.PresentAll | server/visualizer-service.js:163 | when every value is present, nothing is removed |
| Visualizer.PresentLength | server/visualizer-service.js:163 | filtering never adds values |
| Visualizer.FlowEdgesOrder | server/visualizer-service.js:141-163 | the ReactFlow edges are the resolvable edges, in input order |
| Visualizer.FlowEdgesComplete | server/visualizer-service.js:141-163 | when every edge resolves, none is dropped and edge `k` becomes ReactFlow edge `k` |
| Visualizer.FlowNodes | server/visualizer-service.js:128-138 | one ReactFlow node per placed node |
| Visualizer.GraphDensity | server/visualizer-service.js:174-177 | `graphDensity` is `2E / (N (N − 1))` for two or more nodes and 0 otherwise |
| Visualizer.GenerateVisual | server/visualizer-service.js:111-181 | a missing `nodes` or `edges` gives exactly the 400 `Данные не предоставлены`; otherwise the answer is built from the layout |
| Visualizer.AnswerShape | server/visualizer-service.js:166-179 | the answer has one ReactFlow node per node, in order, each with `String(id)`, its label and its connection count; up to eight nodes sit at their circle points; every position is inside the canvas in either branch (on the circle, given a unit-circle `unit`); there are at most as many ReactFlow edges as edges; `totalNodes` and `totalEdges` count the request's arrays |
| Pipeline.FindDistinct | server/visualizer-service.js:143-144 | with distinct labels, `nodes.find` returns the node at the label's position |
| Pipeline.NumberWell | server/parser-service.js:64-74 | the parser's answer has distinct labels, node ids `1..N`, edge ids `1..E`, and each edge's ends name nodes |
| Pipeline.EdgesResolve | server/visualizer-service.js:141-163 | for such an answer every edge resolves to the ids of the nodes with its labels |
| Pipeline.NoEdgeDropped | server/visualizer-service.js:141-163 | no edge of the parser's answer is dropped: edge `k` becomes `e(k+1)` between the ids of the nodes with its labels |
| Pipeline.EveryNodeConnected | server/visualizer-service.js:134-136 | every node of the parser's answer has at least one connection |
| Pipeline.DistinctIds | server/visualizer-service.js:128-151 | the ReactFlow node ids of the parser's answer are distinct, and so are its ReactFlow edge ids |
| Pipeline.DensityTwice | server/visualizer-service.js:174-177 | the visualizer's density is twice the parser's guarded density |
| Scenarios.NoCopula | server/parser-service.js:16 | the copula expression finds nothing in a text without `i` or `I` |
| Scenarios.NoLabeledArrow | server/parser-service.js:21 | the `связь:` expression finds nothing in a text without `с` or `С` |
| Scenarios.ArrowsOnly | server/parser-service.js:12-29 | a sentence containing neither gets only bare arrow relationships |
| Scenarios.DedupDistinct | server/parser-service.js:49-50 | labels that are all different enter the set in order |
| Scenarios.ChainArrows | server/parser-service.js:26-45 | `A -> B -> C -> D` has the arrow matches `A -> B` and `C -> D` only |
| Scenarios.ChainExtract | server/parser-service.js:8-77 | its extraction is nodes A, B, C, D (ids 1..4) and edges A→B, C→D |
| Scenarios.LabeledArrowMatches | server/parser-service.js:21 | `связь: a -> b` matches the `связь:` expression once |
| Scenarios.LabeledArrows | server/parser-service.js:26 | and the bare arrow expression once, at `a -> b` |
| Scenarios.LabeledExtract | server/parser-service.js:8-77 | so its extraction has two nodes and two parallel edges a→b: relationships are not deduplicated |
| Scenarios.SelfLoopExtract | server/parser-service.js:8-77 | `a -> a` gives the single node `a` and the self-loop a→a |
| Scenarios.SelfLoopAnswers | server/parser-service.js:104-108 | its density as written is `Infinity`, and the visualizer counts one connection for `a` |
| Scenarios.DanglingDropped | server/visualizer-service.js:141-163 | an edge to an unknown label is dropped; the other keeps its id and resolves to the first node with its label |

## Left out

- HTTP, Express, CORS, JSON body parsing, console logging, `/health` and
  listening on a port are not modelled. The handlers take the parsed body
  field as an `Option` and return the answer body with its status.
- The `catch` blocks that answer 500 are not modelled. The modelled code
  has no throwing path: `process` cannot throw on a match, and the
  visualizer's input is typed as node and edge lists.
- A `text` that is not a string (a number, an object) is not modelled.
  `ParseText` takes a string or `None`.
- Floating point is not modelled; positions and densities are reals. `Math.cos`,
  `Math.sin`, `Math.random`, `Math.sqrt`, `Math.log` and the repulsion and
  attraction sums are parameters (`unit`, `rand`, `forces`). So the force
  loops of lines 46-89 of server/visualizer-service.js are modelled only
  as "each node gets a velocity computed from the positions the iteration
  starts with".
- Layout.ComputeVelocities: it does not model the attraction loop's in-place
  updates of two nodes' velocities per edge. That loop's effect is part of
  `forces`.
- ParseService.ParseText: its `stats.density` is the corrected `Density`
  (guard `N > 1`), not the code's `N > 0` expression. For a one-node
  extraction the code answers `Infinity` where the model answers 0; the
  as-written value is `DensityAsWritten` (see Findings).
- Text.NatToString: ids are modelled as natural numbers printed in
  decimal. JavaScript ids are doubles, so this matches `String(id)` only
  below 10^21 (`String(1e21)` is `"1e+21"`), and ids stay exact only
  below 2^53.
- `JSON.stringify` turning `Infinity` and `NaN` into `null` is not
  modelled. `DensityAsWritten` stops at the JavaScript number.
- Strings are sequences of Unicode scalar values, while JavaScript strings
  are UTF-16 code units, so a text holding a lone surrogate cannot be
  represented; for every other text the matches are the same.
- The `i` flag is modelled as folding ASCII and А..Я to lower case. The
  rare characters outside ASCII that JavaScript's case folding maps onto
  these letters are not modelled. (`ё`/`Ё` are outside
  `[a-zA-Zа-яА-Я0-9_]`, and the model treats them as non-token characters
  too.)
- Visualizer.EdgeColor: `getEdgeColor` is modelled as the constant `#555`
  it returns for every edge. It and the other ReactFlow styling constants
  (`animated`, stroke width, marker type) are carried as fields, and no
  property is stated about them because they are constants.
- The client UI in client/src/App.jsx is not part of this model.

## Findings

| source | as written | input that shows it | evidently intended | confidence | as-written member | corrected member |
|---|---|---|---|---|---|---|
| server/parser-service.js:104-108 | the density `E / (N (N − 1))` is guarded by `N > 0`, so one node divides by zero and `stats.density` is `Infinity` (sent as `null`) | the text `a -> a`: one node, one edge | guard `N > 1`, as the visualizer's `graphDensity` has, giving 0 for fewer than two nodes | not executed | ParseService.DensityAsWritten, ParseService.OneNodeDensity, Scenarios.SelfLoopAnswers | ParseService.Density, ParseService.ParseText |
