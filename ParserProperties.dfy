/**
 * What the relationship extractor promises about its result, proved about
 * the specification `Parser.Extract`, which the loop program
 * `Parser.ExtractRelationships` is proved equal to:
 *
 *  - the guard `relationship.from && relationship.to` never rejects a match,
 *    and every label is a trimmed token phrase without a separator;
 *  - the edges of one sentence are the copula matches, then the `связь:`
 *    matches, then the bare arrow matches, each in text order, and a blank
 *    sentence would contribute nothing even without the `trim` check;
 *  - the nodes are the distinct labels in the order they were first seen,
 *    numbered from 1, and the edges are the relationships, numbered from 1.
 */
module ParserProperties {
  import opened Text
  import opened Scanner
  import opened Graph
  import opened Parser

  /** The relationships of a list of matches, taken from their groups. */
  function Captures(ms: seq<Match>): seq<Relationship> {
    seq(|ms|, k requires 0 <= k < |ms| => Relationship(ms[k].from, ms[k].to))
  }

  /** Every label is a token phrase (so non-empty and trimmed) and holds no
      sentence separator. */
  ghost predicate Labelled(rels: seq<Relationship>) {
    forall k :: 0 <= k < |rels| ==>
      && IsLabel(rels[k].from) && IsLabel(rels[k].to)
      && NoSeparator(rels[k].from) && NoSeparator(rels[k].to)
  }


  /** The labels of a node list, in order. */
  function Names(nodes: seq<Node>): seq<string> {
    seq(|nodes|, k requires 0 <= k < |nodes| => nodes[k].name)
  }

  // ---------------------------------------------------------------------
  // The guard and the trim

  /** A captured group is its own trim. */
  lemma TrimLabel(l: string)
    requires IsLabel(l)
    ensures Trim(l) == l
  {
    assert !IsSpace(l[0]) && !IsSpace(l[|l| - 1]);
  }

  /** A match whose groups are token phrases passes the guard, and
      `process` hands back its two groups unchanged. */
  lemma ProcessLabels(m: Match)
    requires IsLabel(m.from) && IsLabel(m.to)
    ensures Process(m) == Relationship(m.from, m.to) && Keeps(Process(m))
  {
    TrimLabel(m.from);
    TrimLabel(m.to);
  }

  lemma CapturesStep(ms: seq<Match>)
    requires ms != []
    ensures Captures(ms) == Captures(ms[..|ms| - 1]) + [Relationship(ms[|ms| - 1].from, ms[|ms| - 1].to)]
  {
  }

  /** So a list of such matches is pushed whole, as their groups. */
  lemma {:induction false} AcceptedCaptures(ms: seq<Match>)
    requires forall k :: 0 <= k < |ms| ==> IsLabel(ms[k].from) && IsLabel(ms[k].to)
    ensures Accepted(Process, ms) == Captures(ms)
  {
    if ms != [] {
      var n := |ms| - 1;
      AcceptedCaptures(ms[..n]);
      ProcessLabels(ms[n]);
      CapturesStep(ms);
    }
  }

  lemma CapturesLabelled(s: string, ms: seq<Match>)
    requires NoSeparator(s)
    requires forall k :: 0 <= k < |ms| ==> Found(s, ms[k].start, ms[k])
    ensures Labelled(Captures(ms))
  {
  }

  lemma ConcatLabelled(a: seq<Relationship>, b: seq<Relationship>)
    requires Labelled(a) && Labelled(b)
    ensures Labelled(a + b)
  {
    assert forall k :: |a| <= k < |a + b| ==> (a + b)[k] == b[k - |a|];
  }

  // ---------------------------------------------------------------------
  // One sentence

  /** Every match of a pattern on a sentence is pushed, as its two
      groups. */
  lemma PatternCaptures(pat: Pattern, sentence: string)
    ensures Accepted(Process, PatternMatches(pat, sentence)) == Captures(PatternMatches(pat, sentence))
  {
    var ms := PatternMatches(pat, sentence);
    assert forall k :: 0 <= k < |ms| ==> Found(sentence, ms[k].start, ms[k]);
    AcceptedCaptures(ms);
  }

  /** The pattern loop on a sentence pushes the copula matches, then the
      `связь:` matches, then the bare arrow matches. */
  lemma PatternsInOrder(sentence: string)
    ensures PatternsRelationships(sentence, |Patterns|)
         == Captures(PatternMatches(Copula, sentence))
          + Captures(PatternMatches(LabeledArrow, sentence))
          + Captures(PatternMatches(Arrow, sentence))
  {
    PatternsFirst(sentence);
    PatternsStep(sentence, 2, LabeledArrow);
    PatternsStep(sentence, 3, Arrow);
  }

  lemma PatternsFirst(sentence: string)
    ensures PatternsRelationships(sentence, 1) == Captures(PatternMatches(Copula, sentence))
  {
    assert Patterns[0] == PatternEntry(Copula, Process);
    PatternCaptures(Copula, sentence);
  }

  lemma PatternsStep(sentence: string, j: nat, pat: Pattern)
    requires 0 < j <= |Patterns| && Patterns[j - 1] == PatternEntry(pat, Process)
    ensures PatternsRelationships(sentence, j)
         == PatternsRelationships(sentence, j - 1) + Captures(PatternMatches(pat, sentence))
  {
    PatternCaptures(pat, sentence);
  }

  /** A blank sentence has no matches, so the `trim` check before the
      pattern loop changes nothing. */
  lemma BlankSentence(sentence: string)
    ensures SentenceRelationships(sentence) == PatternsRelationships(sentence, |Patterns|)
  {
    if Trim(sentence) == [] {
      PatternsInOrder(sentence);
      BlankHasNoMatches(Copula, sentence);
      BlankHasNoMatches(LabeledArrow, sentence);
      BlankHasNoMatches(Arrow, sentence);
    }
  }

  /** The relationships of one sentence: every copula match, then every
      `связь:` match, then every bare arrow match, each list in text order. */
  lemma SentenceCaptures(sentence: string)
    ensures SentenceRelationships(sentence)
         == Captures(PatternMatches(Copula, sentence))
          + Captures(PatternMatches(LabeledArrow, sentence))
          + Captures(PatternMatches(Arrow, sentence))
  {
    BlankSentence(sentence);
    PatternsInOrder(sentence);
  }

  /** The relationships of a sentence without separators are labelled. */
  lemma SentenceLabelled(sentence: string)
    requires NoSeparator(sentence)
    ensures Labelled(SentenceRelationships(sentence))
  {
    SentenceCaptures(sentence);
    var c := Captures(PatternMatches(Copula, sentence));
    var l := Captures(PatternMatches(LabeledArrow, sentence));
    var a := Captures(PatternMatches(Arrow, sentence));
    CapturesLabelled(sentence, PatternMatches(Copula, sentence));
    CapturesLabelled(sentence, PatternMatches(LabeledArrow, sentence));
    CapturesLabelled(sentence, PatternMatches(Arrow, sentence));
    ConcatLabelled(c, l);
    ConcatLabelled(c + l, a);
  }

  lemma {:induction false} SentencesLabelled(sentences: seq<string>)
    requires forall k :: 0 <= k < |sentences| ==> NoSeparator(sentences[k])
    ensures Labelled(SentencesRelationships(sentences))
  {
    if sentences != [] {
      var n := |sentences| - 1;
      SentencesLabelled(sentences[..n]);
      SentenceLabelled(sentences[n]);
      ConcatLabelled(SentencesRelationships(sentences[..n]), SentenceRelationships(sentences[n]));
    }
  }

  /** Every label the extractor reports is a trimmed, non-empty token phrase
      that lies inside one sentence. */
  lemma RelationshipsLabelled(text: string)
    ensures Labelled(Relationships(text))
  {
    if text != [] {
      SentencesLabelled(Split(text));
    }
  }

  lemma SentencesOne(sentence: string)
    ensures SentencesRelationships([sentence]) == SentenceRelationships(sentence)
  {
    assert [sentence][..0] == [];
  }

  /** A text without separators is one sentence. */
  lemma OneSentence(text: string)
    requires text != [] && NoSeparator(text)
    ensures Relationships(text)
         == Captures(PatternMatches(Copula, text))
          + Captures(PatternMatches(LabeledArrow, text))
          + Captures(PatternMatches(Arrow, text))
  {
    SplitPlain(text);
    SentencesOne(text);
    SentenceCaptures(text);
  }

  // ---------------------------------------------------------------------
  // Nodes and edges

  /** `nodes.add(from); nodes.add(to)` for each relationship, in order. */
  lemma {:induction false} EndpointsShape(rels: seq<Relationship>)
    ensures |Endpoints(rels)| == 2 * |rels|
    ensures forall k :: 0 <= k < |rels| ==>
      Endpoints(rels)[2 * k] == rels[k].from && Endpoints(rels)[2 * k + 1] == rels[k].to
  {
    if rels != [] {
      EndpointsShape(rels[..|rels| - 1]);
    }
  }

  /** The label at position `i` of the endpoint list belongs to the
      relationship at `i / 2`. */
  lemma EndpointAt(rels: seq<Relationship>, i: nat)
    requires i < |Endpoints(rels)|
    ensures i / 2 < |rels|
    ensures Endpoints(rels)[i] == rels[i / 2].from || Endpoints(rels)[i] == rels[i / 2].to
  {
    EndpointsShape(rels);
    var k := i / 2;
    assert i == 2 * k || i == 2 * k + 1;
  }

  /** A label is an endpoint exactly when some relationship has it at one
      end. */
  lemma EndpointsMembers(rels: seq<Relationship>, y: string)
    ensures y in Endpoints(rels) <==> exists k :: 0 <= k < |rels| && (rels[k].from == y || rels[k].to == y)
  {
    var e := Endpoints(rels);
    if y in e {
      var i :| 0 <= i < |e| && e[i] == y;
      EndpointAt(rels, i);
    }
    if exists k :: 0 <= k < |rels| && (rels[k].from == y || rels[k].to == y) {
      var k :| 0 <= k < |rels| && (rels[k].from == y || rels[k].to == y);
      EndpointsShape(rels);
      assert e[2 * k] == rels[k].from && e[2 * k + 1] == rels[k].to;
    }
  }

  /** Appending leaves the first occurrence of an earlier element where it
      was, and a new element first occurs at the end. */
  lemma FirstIndexAppend(xs: seq<string>, x: string, y: string)
    requires y in xs + [x]
    ensures y in xs ==> FirstIndex(xs + [x], y) == FirstIndex(xs, y)
    ensures y !in xs ==> FirstIndex(xs + [x], y) == |xs|
  {
    var f := FirstIndex(xs + [x], y);
    if y in xs {
      var g := FirstIndex(xs, y);
      assert (xs + [x])[g] == y;
      assert f <= g;
      assert xs[f] == y;
    }
  }

  /** The set's insertion order: each label appears once, in the order of
      its first occurrence. */
  lemma {:induction false} DedupFirstSeen(xs: seq<string>)
    ensures forall i, j :: 0 <= i < j < |Dedup(xs)| ==>
      FirstIndex(xs, Dedup(xs)[i]) < FirstIndex(xs, Dedup(xs)[j])
  {
    if xs != [] {
      var init := xs[..|xs| - 1];
      var x := xs[|xs| - 1];
      assert xs == init + [x];
      var d := Dedup(init);
      DedupFirstSeen(init);
      forall i, j | 0 <= i < j < |Dedup(xs)|
        ensures FirstIndex(xs, Dedup(xs)[i]) < FirstIndex(xs, Dedup(xs)[j])
      {
        var r := Dedup(xs);
        FirstIndexAppend(init, x, r[i]);
        FirstIndexAppend(init, x, r[j]);
        if j < |d| {
          assert r[i] == d[i] && r[j] == d[j];
        } else {
          assert r[i] == d[i] && r[j] == x && x !in init;
        }
      }
    }
  }

  /** The `nodes` array numbers the labels from 1 and the `edges` array
      numbers the pushed relationships from 1, in the order they were
      pushed. */
  lemma NumberIds(rels: seq<Relationship>)
    ensures var r := Number(rels);
      && |r.edges| == |rels|
      && (forall k :: 0 <= k < |rels| ==> r.edges[k] == Edge(k + 1, rels[k].from, rels[k].to))
      && (forall k :: 0 <= k < |r.nodes| ==> r.nodes[k].id == k + 1)
      && Names(r.nodes) == Dedup(Endpoints(rels))
  {
  }

  /** No label is listed twice, and there are at most two per edge. */
  lemma NumberDistinct(rels: seq<Relationship>)
    ensures var r := Number(rels);
      && (forall i, j :: 0 <= i < j < |r.nodes| ==> r.nodes[i].name != r.nodes[j].name)
      && |r.nodes| <= 2 * |r.edges|
  {
    EndpointsShape(rels);
    var labels := Dedup(Endpoints(rels));
    assert forall i :: 0 <= i < |labels| ==> Number(rels).nodes[i].name == labels[i];
  }

  /** The node labels are exactly the ends of the edges: every node is
      the end of some edge and both ends of every edge are nodes. */
  lemma NumberLabels(rels: seq<Relationship>)
    ensures forall y :: y in Names(Number(rels).nodes) <==> y in Ends(Number(rels).edges)
  {
    var r := Number(rels);
    assert Names(r.nodes) == Dedup(Endpoints(rels));
    forall y
      ensures y in Names(r.nodes) <==> y in Ends(r.edges)
    {
      EndpointsMembers(rels, y);
      if y in Ends(r.edges) {
        var e :| e in r.edges && (e.from == y || e.to == y);
        var k :| 0 <= k < |r.edges| && r.edges[k] == e;
        assert rels[k].from == y || rels[k].to == y;
      }
      if exists k :: 0 <= k < |rels| && (rels[k].from == y || rels[k].to == y) {
        var k :| 0 <= k < |rels| && (rels[k].from == y || rels[k].to == y);
        assert r.edges[k] in r.edges;
      }
    }
  }

  /** The nodes come in the order their labels were first added: the
      `from` of the first edge, then its `to`, then the next edge's labels
      and so on. */
  lemma NumberFirstSeen(rels: seq<Relationship>)
    ensures var r := Number(rels);
      forall i, j :: 0 <= i < j < |r.nodes| ==>
        FirstIndex(Endpoints(rels), r.nodes[i].name) < FirstIndex(Endpoints(rels), r.nodes[j].name)
  {
    var labels := Dedup(Endpoints(rels));
    DedupFirstSeen(Endpoints(rels));
    assert forall i :: 0 <= i < |labels| ==> Number(rels).nodes[i].name == labels[i];
  }

  /** An empty text yields no nodes and no edges. */
  lemma ExtractEmpty()
    ensures Extract("") == Extraction([], [])
  {
  }
}
