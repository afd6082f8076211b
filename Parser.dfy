/**
 * The relationship extractor of the parser service (`extractRelationships`)
 * and the body of its `/parse-text` handler.
 *
 * The text is split into sentences on `.`, `;` and newline; blank sentences
 * are skipped; the three expressions are run over every other sentence in
 * the order copula, `связь:` arrow, bare arrow; every match becomes a
 * relationship of its two trimmed groups, whose labels go into an
 * insertion-ordered set and which is appended to the edge list. Nodes and
 * edges are then numbered from 1 in that order.
 *
 * `Extract` is the specification of the whole transform, written as
 * functions over the sentences, patterns and matches; the method
 * `ExtractRelationships` is the loop program, proved equal to it.
 */
module Parser {
  import opened Options
  import opened Text
  import opened Scanner
  import opened Graph

  /** What `pattern.process(match)` returns. */
  datatype Relationship = Relationship(from: string, to: string)

  /** `{ nodes: nodeList, edges: edgeList }` */
  datatype Extraction = Extraction(nodes: seq<Node>, edges: seq<Edge>)

  /** One entry of the `patterns` array: an expression and the function
      that turns one of its matches into a relationship. */
  datatype PatternEntry = PatternEntry(regex: Pattern, process: Match -> Relationship)

  /** `(match) => ({ from: match[1].trim(), to: match[2].trim() })`, the same
      for all three patterns. */
  function Process(m: Match): Relationship {
    Relationship(Trim(m.from), Trim(m.to))
  }

  /** The three patterns, in the order they are tried on a sentence. */
  const Patterns: seq<PatternEntry> :=
    [PatternEntry(Copula, Process), PatternEntry(LabeledArrow, Process), PatternEntry(Arrow, Process)]

  /** `relationship.from && relationship.to`: both labels non-empty. */
  predicate Keeps(r: Relationship) {
    r.from != [] && r.to != []
  }

  // ---------------------------------------------------------------------
  // The specification: which relationships the loops push, in order

  /** The relationships pushed for the matches `ms` of one pattern, in match
      order. */
  function Accepted(process: Match -> Relationship, ms: seq<Match>): seq<Relationship> {
    if ms == [] then []
    else
      var r := process(ms[|ms| - 1]);
      Accepted(process, ms[..|ms| - 1]) + (if Keeps(r) then [r] else [])
  }

  /** The relationships pushed for the first `j` patterns on one sentence. */
  function PatternsRelationships(sentence: string, j: nat): seq<Relationship>
    requires j <= |Patterns|
  {
    if j == 0 then []
    else
      var entry := Patterns[j - 1];
      PatternsRelationships(sentence, j - 1) + Accepted(entry.process, PatternMatches(entry.regex, sentence))
  }

  /** The relationships pushed for one sentence; a blank one is skipped. */
  function SentenceRelationships(sentence: string): seq<Relationship> {
    if Trim(sentence) == [] then [] else PatternsRelationships(sentence, |Patterns|)
  }

  /** The relationships pushed for a list of sentences, in order. */
  function SentencesRelationships(sentences: seq<string>): seq<Relationship> {
    if sentences == [] then []
    else SentencesRelationships(sentences[..|sentences| - 1]) + SentenceRelationships(sentences[|sentences| - 1])
  }

  /** The final `edges` array; an empty text has none. */
  function Relationships(text: string): seq<Relationship> {
    if text == [] then [] else SentencesRelationships(Split(text))
  }

  /** The labels in the order `nodes.add` is called with them: `from`, then
      `to`, for every pushed relationship. */
  function Endpoints(rels: seq<Relationship>): seq<string>
  {
    if rels == [] then []
    else
      var last := rels[|rels| - 1];
      Endpoints(rels[..|rels| - 1]) + [last.from, last.to]
  }

  /** `Set.prototype.add` on a set kept as the sequence of its elements in
      insertion order. */
  function Add(xs: seq<string>, x: string): (r: seq<string>)
    ensures x in r && forall y :: y in r <==> y in xs || y == x
    ensures Distinct(xs) ==> Distinct(r)
  {
    if x in xs then xs else xs + [x]
  }

  predicate Distinct(xs: seq<string>) {
    forall i, j :: 0 <= i < j < |xs| ==> xs[i] != xs[j]
  }

  /** The elements of the set after adding `xs` one by one. It has each
      element of `xs` once and nothing else. */
  function Dedup(xs: seq<string>): (r: seq<string>)
    ensures Distinct(r)
    ensures forall y :: y in r <==> y in xs
    ensures |r| <= |xs|
  {
    if xs == [] then [] else Add(Dedup(xs[..|xs| - 1]), xs[|xs| - 1])
  }

  /** Where `x` first occurs in `xs`. */
  function FirstIndex(xs: seq<string>, x: string): (i: nat)
    requires x in xs
    ensures i < |xs| && xs[i] == x
    ensures forall j :: 0 <= j < i ==> xs[j] != x
  {
    if xs[0] == x then 0 else 1 + FirstIndex(xs[1..], x)
  }

  /** `Array.from(nodes).map((label, index) => ({ id: index + 1, label }))` */
  function NumberNodes(labels: seq<string>): seq<Node> {
    seq(|labels|, k requires 0 <= k < |labels| => Node(k + 1, labels[k]))
  }

  /** `edges.map((edge, index) => ({ id: index + 1, from: edge.from, to: edge.to }))` */
  function NumberEdges(rels: seq<Relationship>): seq<Edge> {
    seq(|rels|, k requires 0 <= k < |rels| => Edge(k + 1, rels[k].from, rels[k].to))
  }

  /** The whole transform: the labels in first-seen order, numbered, and the
      relationships, numbered. */
  function Extract(text: string): Extraction {
    Number(Relationships(text))
  }

  /** The two `map` calls at the end, on the pushed relationships. */
  function Number(rels: seq<Relationship>): Extraction {
    Extraction(NumberNodes(Dedup(Endpoints(rels))), NumberEdges(rels))
  }

  // ---------------------------------------------------------------------
  // The program

  /** `extractRelationships(text)`: the loops over sentences and patterns,
      with `nodes` an insertion-ordered set and `edges` an array that grow as
      matches are found. */
  method ExtractRelationships(text: string) returns (result: Extraction)
    ensures result == Extract(text)
  {
    if text == [] {
      return Extraction([], []);
    }
    var nodes, edges := ScanSentences(Split(text));
    result := Extraction(NumberNodes(nodes), NumberEdges(edges));
  }

  /** `for (const sentence of sentences)`, starting from an empty set and
      an empty array. */
  method ScanSentences(sentences: seq<string>) returns (nodes: seq<string>, edges: seq<Relationship>)
    ensures edges == SentencesRelationships(sentences)
    ensures nodes == Dedup(Endpoints(edges))
  {
    nodes, edges := [], [];
    for si := 0 to |sentences|
      invariant edges == SentencesRelationships(sentences[..si])
      invariant nodes == Dedup(Endpoints(edges))
    {
      SentencesPrefix(sentences, si);
      nodes, edges := ApplySentence(sentences[si], nodes, edges);
    }
    assert sentences[..|sentences|] == sentences;
  }

  /** One pass of the outer loop: a blank sentence is skipped, any other is
      scanned with each pattern in turn. */
  method ApplySentence(sentence: string, nodes0: seq<string>, edges0: seq<Relationship>)
      returns (nodes: seq<string>, edges: seq<Relationship>)
    requires nodes0 == Dedup(Endpoints(edges0))
    ensures edges == edges0 + SentenceRelationships(sentence)
    ensures nodes == Dedup(Endpoints(edges))
  {
    if Trim(sentence) != [] {
      nodes, edges := ScanPatterns(sentence, nodes0, edges0);
      assert SentenceRelationships(sentence) == PatternsRelationships(sentence, |Patterns|);
    } else {
      assert SentenceRelationships(sentence) == [];
      nodes, edges := nodes0, edges0;
      assert edges == edges0 + [];
    }
  }

  /** `for (const pattern of patterns)` on one sentence. */
  method ScanPatterns(sentence: string, nodes0: seq<string>, edges0: seq<Relationship>)
      returns (nodes: seq<string>, edges: seq<Relationship>)
    requires nodes0 == Dedup(Endpoints(edges0))
    ensures edges == edges0 + PatternsRelationships(sentence, |Patterns|)
    ensures nodes == Dedup(Endpoints(edges))
  {
    nodes, edges := nodes0, edges0;
    for pi := 0 to |Patterns|
      invariant edges == edges0 + PatternsRelationships(sentence, pi)
      invariant nodes == Dedup(Endpoints(edges))
    {
      var entry := Patterns[pi];
      Associative(edges0, PatternsRelationships(sentence, pi),
                  Accepted(entry.process, PatternMatches(entry.regex, sentence)));
      nodes, edges := ApplyPattern(entry, sentence, nodes, edges);
    }
  }

  /** One pass of the inner loop: a fresh `RegExp` for the pattern, scanned
      over the sentence. */
  method ApplyPattern(entry: PatternEntry, sentence: string, nodes0: seq<string>, edges0: seq<Relationship>)
      returns (nodes: seq<string>, edges: seq<Relationship>)
    requires nodes0 == Dedup(Endpoints(edges0))
    ensures edges == edges0 + Accepted(entry.process, PatternMatches(entry.regex, sentence))
    ensures nodes == Dedup(Endpoints(edges))
  {
    var regex := new RegExp(entry.regex);
    nodes, edges := ScanSentence(regex, entry.process, sentence, nodes0, edges0);
  }

  /** `while ((match = regex.exec(sentence)) !== null)`: every match that
      passes the guard adds its labels to the set and is pushed. */
  method ScanSentence(regex: RegExp, process: Match -> Relationship, sentence: string,
                      nodes0: seq<string>, edges0: seq<Relationship>)
      returns (nodes: seq<string>, edges: seq<Relationship>)
    requires regex.lastIndex == 0 && Consumes(regex.matcher, sentence)
    requires nodes0 == Dedup(Endpoints(edges0))
    modifies regex
    ensures edges == edges0 + Accepted(process, AllMatches(regex.matcher, sentence, 0))
    ensures nodes == Dedup(Endpoints(edges))
  {
    nodes, edges := nodes0, edges0;
    ghost var done: seq<Match> := [];
    ghost var from: nat := 0;
    var m := regex.Exec(sentence);
    while m.Some?
      invariant from <= |sentence|
      invariant m == ExecFrom(regex.matcher, sentence, from)
      invariant m.Some? ==> regex.lastIndex == m.value.end
      invariant done + AllMatches(regex.matcher, sentence, from) == AllMatches(regex.matcher, sentence, 0)
      invariant edges == edges0 + Accepted(process, done)
      invariant nodes == Dedup(Endpoints(edges))
      decreases |sentence| - from
    {
      var found := m.value;
      AllMatchesStep(regex.matcher, sentence, from);
      AcceptedPush(process, done, found);
      Associative(done, [found], AllMatches(regex.matcher, sentence, found.end));
      var relationship := process(found);
      if relationship.from != [] && relationship.to != [] {
        nodes := Add(nodes, relationship.from);
        nodes := Add(nodes, relationship.to);
        EndpointsPush(edges, relationship);
        Associative(edges0, Accepted(process, done), [relationship]);
        edges := edges + [relationship];
      }
      done := done + [found];
      from := found.end;
      m := regex.Exec(sentence);
    }
    AllMatchesNone(regex.matcher, sentence, from);
    assert done + [] == done;
  }

  lemma Associative<T>(a: seq<T>, b: seq<T>, c: seq<T>)
    ensures (a + b) + c == a + (b + c)
  {
  }

  /** One more sentence pushes its own relationships after the others'. */
  lemma SentencesPrefix(sentences: seq<string>, i: nat)
    requires i < |sentences|
    ensures SentencesRelationships(sentences[..i + 1])
         == SentencesRelationships(sentences[..i]) + SentenceRelationships(sentences[i])
  {
    assert sentences[..i + 1][..i] == sentences[..i];
  }

  /** One more match pushes its relationship when it passes the guard. */
  lemma AcceptedPush(process: Match -> Relationship, ms: seq<Match>, m: Match)
    ensures Accepted(process, ms + [m]) == Accepted(process, ms) + (if Keeps(process(m)) then [process(m)] else [])
  {
    assert (ms + [m])[..|ms|] == ms;
  }

  /** Pushing one relationship adds its two labels to the set, `from` first. */
  lemma EndpointsPush(rels: seq<Relationship>, r: Relationship)
    ensures Dedup(Endpoints(rels + [r])) == Add(Add(Dedup(Endpoints(rels)), r.from), r.to)
  {
    assert (rels + [r])[..|rels|] == rels;
    var e := Endpoints(rels + [r]);
    assert e == Endpoints(rels) + [r.from, r.to];
    assert e[..|e| - 1] == Endpoints(rels) + [r.from];
    assert e[..|e| - 1][..|e| - 2] == Endpoints(rels);
  }
}
