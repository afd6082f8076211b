/**
 * Worked inputs for the two services, proved against the specification
 * functions: a chain of arrows, a `связь:` sentence that both arrow
 * expressions match, a single self-loop, and an edge whose end names no
 * node.
 */
module Scenarios {
  import opened Options
  import opened Text
  import opened Scanner
  import opened Graph
  import opened Parser
  import opened ParserProperties
  import opened ParseService
  import opened Visualizer

  // ---------------------------------------------------------------------
  // Expressions that cannot match

  /** The copula expression needs `is`, so it finds nothing where no `i`
      occurs in either case. */
  lemma NoIs(s: string, p: nat)
    requires p <= |s|
    requires 'i' !in s && 'I' !in s
    ensures MatchAt(Copula, s, p).None?
  {
    forall b: nat | b + 2 <= |s|
      ensures !LiteralAt(s, b, "is")
    {
      assert s[b] in s;
      assert Lower(s[b]) != 'i' == "is"[0];
    }
  }

  lemma NoCopula(s: string)
    requires 'i' !in s && 'I' !in s
    ensures PatternMatches(Copula, s) == []
  {
    forall q: nat | q <= |s|
      ensures Compile(Copula)(s, q).None?
    {
      NoIs(s, q);
    }
    assert ExecFrom(Compile(Copula), s, 0).None?;
  }

  /** The `связь:` expression finds nothing where no `с` occurs in either
      case. */
  lemma NoKeyword(s: string, p: nat)
    requires p <= |s|
    requires 'с' !in s && 'С' !in s
    ensures MatchAt(LabeledArrow, s, p).None?
  {
    if p + 5 <= |s| {
      assert s[p] in s;
      assert Lower(s[p]) != 'с' == Keyword[0];
    }
  }

  lemma NoLabeledArrow(s: string)
    requires 'с' !in s && 'С' !in s
    ensures PatternMatches(LabeledArrow, s) == []
  {
    forall q: nat | q <= |s|
      ensures Compile(LabeledArrow)(s, q).None?
    {
      NoKeyword(s, q);
    }
    assert ExecFrom(Compile(LabeledArrow), s, 0).None?;
  }

  /** A sentence in which neither `is` nor `связь` can occur only has bare
      arrow relationships. */
  lemma ArrowsOnly(text: string)
    requires text != [] && NoSeparator(text)
    requires 'i' !in text && 'I' !in text && 'с' !in text && 'С' !in text
    ensures Relationships(text) == Captures(PatternMatches(Arrow, text))
  {
    OneSentence(text);
    NoCopula(text);
    NoLabeledArrow(text);
  }

  // ---------------------------------------------------------------------
  // Small steps

  /** `exec` from `i` returns the match at `p` when nothing matches in
      between. */
  lemma ExecFromAt(regex: Matcher, s: string, i: nat, p: nat)
    requires i <= p <= |s| && Consumes(regex, s)
    requires NoneBetween(regex, s, i, p) && regex(s, p).Some?
    ensures ExecFrom(regex, s, i) == regex(s, p)
  {
  }

  lemma CapturesOne(m: Match)
    ensures Captures([m]) == [Relationship(m.from, m.to)]
  {
  }

  lemma CapturesPair(m0: Match, m1: Match)
    ensures Captures([m0, m1]) == [Relationship(m0.from, m0.to), Relationship(m1.from, m1.to)]
  {
  }

  /** Adding labels that are all different keeps them, in order. */
  lemma {:induction false} DedupDistinct(xs: seq<string>)
    requires Distinct(xs)
    ensures Dedup(xs) == xs
  {
    if xs != [] {
      var init := xs[..|xs| - 1];
      assert Distinct(init);
      DedupDistinct(init);
      assert xs[|xs| - 1] !in init;
      assert init + [xs[|xs| - 1]] == xs;
    }
  }

  // ---------------------------------------------------------------------
  // A chain of arrows: each `exec` resumes after the previous match, so
  // `B -> C` is never seen

  const Chain: string := "A -> B -> C -> D"

  lemma ChainFirst()
    ensures MatchAt(Arrow, Chain, 0) == Some(Match(0, 6, "A", "B"))
  {
    assert TokenEnd(Chain, 1) == 1;
    assert TokenEnd(Chain, 0) == 1;
    assert SpaceEnd(Chain, 2) == 2;
    assert SpaceEnd(Chain, 1) == 2;
    assert SpaceEnd(Chain, 5) == 5;
    assert SpaceEnd(Chain, 4) == 5;
    assert TokenEnd(Chain, 6) == 6;
    assert TokenEnd(Chain, 5) == 6;
    assert Chain[0..1] == "A";
    assert Chain[5..6] == "B";
  }

  lemma ChainSecond()
    ensures MatchAt(Arrow, Chain, 10) == Some(Match(10, 16, "C", "D"))
  {
    assert TokenEnd(Chain, 11) == 11;
    assert TokenEnd(Chain, 10) == 11;
    assert SpaceEnd(Chain, 12) == 12;
    assert SpaceEnd(Chain, 11) == 12;
    assert SpaceEnd(Chain, 15) == 15;
    assert SpaceEnd(Chain, 14) == 15;
    assert TokenEnd(Chain, 16) == 16;
    assert TokenEnd(Chain, 15) == 16;
    assert Chain[10..11] == "C";
    assert Chain[15..16] == "D";
  }

  /** After the first match, nothing starts before `C`. */
  lemma ChainGap()
    ensures NoneBetween(Compile(Arrow), Chain, 6, 10)
  {
    forall q: nat | 6 <= q < 10
      ensures Compile(Arrow)(Chain, q).None?
    {
      assert !IsTokenChar(Chain[q]);
    }
  }

  lemma ChainExec()
    ensures ExecFrom(Compile(Arrow), Chain, 0) == Some(Match(0, 6, "A", "B"))
    ensures ExecFrom(Compile(Arrow), Chain, 6) == Some(Match(10, 16, "C", "D"))
    ensures ExecFrom(Compile(Arrow), Chain, 16) == None
  {
    ChainFirst();
    ChainSecond();
    ChainGap();
    ExecFromAt(Compile(Arrow), Chain, 6, 10);
  }

  lemma ChainArrows()
    ensures PatternMatches(Arrow, Chain) == [Match(0, 6, "A", "B"), Match(10, 16, "C", "D")]
  {
    var regex := Compile(Arrow);
    ChainExec();
    AllMatchesStep(regex, Chain, 0);
    AllMatchesStep(regex, Chain, 6);
    AllMatchesNone(regex, Chain, 16);
  }

  lemma ChainLetters()
    ensures Chain != [] && NoSeparator(Chain)
    ensures 'i' !in Chain && 'I' !in Chain && 'с' !in Chain && 'С' !in Chain
  {
    forall k | 0 <= k < |Chain|
      ensures !IsSeparator(Chain[k])
    {
      assert Chain[k] in Chain;
    }
  }

  /** `A -> B -> C -> D` has the relationships A→B and C→D only. */
  lemma ChainRelationships()
    ensures Relationships(Chain) == [Relationship("A", "B"), Relationship("C", "D")]
  {
    ChainLetters();
    ArrowsOnly(Chain);
    ChainArrows();
    CapturesPair(Match(0, 6, "A", "B"), Match(10, 16, "C", "D"));
  }

  lemma ChainEndpoints()
    ensures Endpoints([Relationship("A", "B"), Relationship("C", "D")]) == ["A", "B", "C", "D"]
  {
    var rels := [Relationship("A", "B"), Relationship("C", "D")];
    assert rels[..1] == [Relationship("A", "B")];
    assert Endpoints(rels[..1]) == ["A", "B"];
  }

  lemma ChainLabels()
    ensures Dedup(["A", "B", "C", "D"]) == ["A", "B", "C", "D"]
  {
    DedupDistinct(["A", "B", "C", "D"]);
  }

  lemma ChainNumber()
    ensures Number([Relationship("A", "B"), Relationship("C", "D")])
         == Extraction([Node(1, "A"), Node(2, "B"), Node(3, "C"), Node(4, "D")],
                       [Edge(1, "A", "B"), Edge(2, "C", "D")])
  {
    ChainEndpoints();
    ChainLabels();
  }

  /** The extraction of the chain: four nodes and two edges. */
  lemma ChainExtract()
    ensures Extract(Chain) == Extraction([Node(1, "A"), Node(2, "B"), Node(3, "C"), Node(4, "D")],
                                         [Edge(1, "A", "B"), Edge(2, "C", "D")])
  {
    ChainRelationships();
    ChainNumber();
  }

  // ---------------------------------------------------------------------
  // `связь: a -> b`: the `связь:` expression and the bare arrow expression
  // both match, and both relationships are kept

  const Labeled: string := "связь: a -> b"

  lemma LabeledKeyword()
    ensures MatchAt(LabeledArrow, Labeled, 0) == Some(Match(0, 13, "a", "b"))
  {
    assert LiteralAt(Labeled, 0, Keyword);
    assert SpaceEnd(Labeled, 5) == 5;
    assert SpaceEnd(Labeled, 7) == 7;
    assert SpaceEnd(Labeled, 6) == 7;
    assert KeywordHead(Labeled, 0) == Some(7);
    assert TokenEnd(Labeled, 8) == 8;
    assert TokenEnd(Labeled, 7) == 8;
    assert SpaceEnd(Labeled, 9) == 9;
    assert SpaceEnd(Labeled, 8) == 9;
    assert SpaceEnd(Labeled, 12) == 12;
    assert SpaceEnd(Labeled, 11) == 12;
    assert TokenEnd(Labeled, 13) == 13;
    assert TokenEnd(Labeled, 12) == 13;
    assert Labeled[7..8] == "a";
    assert Labeled[12..13] == "b";
  }

  lemma LabeledArrowMatches()
    ensures PatternMatches(LabeledArrow, Labeled) == [Match(0, 13, "a", "b")]
  {
    var regex := Compile(LabeledArrow);
    LabeledKeyword();
    assert ExecFrom(regex, Labeled, 0) == Some(Match(0, 13, "a", "b"));
    assert ExecFrom(regex, Labeled, 13) == None;
    AllMatchesStep(regex, Labeled, 0);
    AllMatchesNone(regex, Labeled, 13);
  }

  lemma LabeledBare()
    ensures MatchAt(Arrow, Labeled, 7) == Some(Match(7, 13, "a", "b"))
  {
    assert TokenEnd(Labeled, 8) == 8;
    assert TokenEnd(Labeled, 7) == 8;
    assert SpaceEnd(Labeled, 9) == 9;
    assert SpaceEnd(Labeled, 8) == 9;
    assert SpaceEnd(Labeled, 12) == 12;
    assert SpaceEnd(Labeled, 11) == 12;
    assert TokenEnd(Labeled, 13) == 13;
    assert TokenEnd(Labeled, 12) == 13;
    assert Labeled[7..8] == "a";
    assert Labeled[12..13] == "b";
  }

  /** The keyword is a run of token characters followed by `:`, so no bare
      arrow starts inside `связь:`. */
  lemma LabeledGap()
    ensures NoneBetween(Compile(Arrow), Labeled, 0, 7)
  {
    assert TokenEnd(Labeled, 5) == 5;
    assert SpaceEnd(Labeled, 5) == 5;
    forall q: nat | 0 <= q < 7
      ensures Compile(Arrow)(Labeled, q).None?
    {
      if q < 5 {
        assert TokenEnd(Labeled, q) == 5;
      } else {
        assert !IsTokenChar(Labeled[q]);
      }
    }
  }

  lemma LabeledArrows()
    ensures PatternMatches(Arrow, Labeled) == [Match(7, 13, "a", "b")]
  {
    var regex := Compile(Arrow);
    LabeledBare();
    LabeledGap();
    ExecFromAt(regex, Labeled, 0, 7);
    assert ExecFrom(regex, Labeled, 13) == None;
    AllMatchesStep(regex, Labeled, 0);
    AllMatchesNone(regex, Labeled, 13);
  }

  lemma LabeledLetters()
    ensures Labeled != [] && NoSeparator(Labeled)
    ensures 'i' !in Labeled && 'I' !in Labeled
  {
    forall k | 0 <= k < |Labeled|
      ensures !IsSeparator(Labeled[k])
    {
      assert Labeled[k] in Labeled;
    }
  }

  /** `связь: a -> b` has the relationship a→b twice. */
  lemma LabeledRelationships()
    ensures Relationships(Labeled) == [Relationship("a", "b"), Relationship("a", "b")]
  {
    LabeledLetters();
    OneSentence(Labeled);
    NoCopula(Labeled);
    LabeledArrowMatches();
    LabeledArrows();
    CapturesOne(Match(0, 13, "a", "b"));
    CapturesOne(Match(7, 13, "a", "b"));
  }

  lemma LabeledEndpoints()
    ensures Endpoints([Relationship("a", "b"), Relationship("a", "b")]) == ["a", "b", "a", "b"]
  {
    var rels := [Relationship("a", "b"), Relationship("a", "b")];
    assert rels[..1] == [Relationship("a", "b")];
    assert Endpoints(rels[..1]) == ["a", "b"];
  }

  /** Adding labels already in the set changes nothing. */
  lemma LabeledLabels()
    ensures Dedup(["a", "b", "a", "b"]) == ["a", "b"]
  {
    var xs := ["a", "b", "a", "b"];
    DedupDistinct(["a", "b"]);
    assert xs[..2] == ["a", "b"];
    assert xs[..3][..2] == ["a", "b"];
    assert xs[..3] == ["a", "b", "a"];
    assert Dedup(xs[..3]) == Add(["a", "b"], "a");
  }

  lemma LabeledNumber()
    ensures Number([Relationship("a", "b"), Relationship("a", "b")])
         == Extraction([Node(1, "a"), Node(2, "b")], [Edge(1, "a", "b"), Edge(2, "a", "b")])
  {
    LabeledEndpoints();
    LabeledLabels();
  }

  /** Its extraction: two nodes and two parallel edges. */
  lemma LabeledExtract()
    ensures Extract(Labeled) == Extraction([Node(1, "a"), Node(2, "b")], [Edge(1, "a", "b"), Edge(2, "a", "b")])
  {
    LabeledRelationships();
    LabeledNumber();
  }

  // ---------------------------------------------------------------------
  // `a -> a`: a self-loop, one node, one edge

  const SelfLoop: string := "a -> a"

  lemma SelfLoopArrows()
    ensures PatternMatches(Arrow, SelfLoop) == [Match(0, 6, "a", "a")]
  {
    var regex := Compile(Arrow);
    assert TokenEnd(SelfLoop, 1) == 1;
    assert TokenEnd(SelfLoop, 0) == 1;
    assert SpaceEnd(SelfLoop, 2) == 2;
    assert SpaceEnd(SelfLoop, 1) == 2;
    assert SpaceEnd(SelfLoop, 5) == 5;
    assert SpaceEnd(SelfLoop, 4) == 5;
    assert TokenEnd(SelfLoop, 6) == 6;
    assert TokenEnd(SelfLoop, 5) == 6;
    assert SelfLoop[0..1] == "a";
    assert SelfLoop[5..6] == "a";
    assert ExecFrom(regex, SelfLoop, 0) == Some(Match(0, 6, "a", "a"));
    assert ExecFrom(regex, SelfLoop, 6) == None;
    AllMatchesStep(regex, SelfLoop, 0);
    AllMatchesNone(regex, SelfLoop, 6);
  }

  lemma SelfLoopLetters()
    ensures SelfLoop != [] && NoSeparator(SelfLoop)
    ensures 'i' !in SelfLoop && 'I' !in SelfLoop && 'с' !in SelfLoop && 'С' !in SelfLoop
  {
    forall k | 0 <= k < |SelfLoop|
      ensures !IsSeparator(SelfLoop[k])
    {
      assert SelfLoop[k] in SelfLoop;
    }
  }

  lemma SelfLoopRelationships()
    ensures Relationships(SelfLoop) == [Relationship("a", "a")]
  {
    SelfLoopLetters();
    ArrowsOnly(SelfLoop);
    SelfLoopArrows();
    CapturesOne(Match(0, 6, "a", "a"));
  }

  lemma SelfLoopNumber()
    ensures Number([Relationship("a", "a")]) == Extraction([Node(1, "a")], [Edge(1, "a", "a")])
  {
    var rels := [Relationship("a", "a")];
    assert rels[..0] == [];
    assert Endpoints(rels) == ["a", "a"];
    assert ["a", "a"][..1] == ["a"];
    assert ["a"][..0] == [];
    assert Dedup(["a"]) == ["a"];
  }

  /** Its extraction: the node `a` and the edge a→a. */
  lemma SelfLoopExtract()
    ensures Extract(SelfLoop) == Extraction([Node(1, "a")], [Edge(1, "a", "a")])
  {
    SelfLoopRelationships();
    SelfLoopNumber();
  }

  /** For `a -> a` the parser's density as written divides one edge by
      `1 * 0`, and the visualizer counts the self-loop once for `a`. */
  lemma SelfLoopAnswers()
    ensures DensityAsWritten(|Extract(SelfLoop).nodes|, |Extract(SelfLoop).edges|) == Infinity
    ensures Connections(Extract(SelfLoop).edges, "a") == 1
  {
    SelfLoopExtract();
    var edges := [Edge(1, "a", "a")];
    assert edges[..0] == [];
    assert Touching(edges, "a") == [Edge(1, "a", "a")];
  }

  // ---------------------------------------------------------------------
  // A dangling edge

  lemma DanglingResolved()
    ensures ResolveEdge([Node(1, "a"), Node(2, "a")], Edge(1, "a", "b")) == None
    ensures ResolveEdge([Node(1, "a"), Node(2, "a")], Edge(2, "a", "a"))
         == Some(FlowEdge("e2", "1", "1", true, "#555", 2, "arrowclosed", "#555"))
  {
    var nodes := [Node(1, "a"), Node(2, "a")];
    assert nodes[1..][1..] == [];
    assert FindNode(nodes, "b") == None;
    assert FindNode(nodes, "a") == Some(Node(1, "a"));
    assert DigitChar(1) == '1' && DigitChar(2) == '2';
    assert NatToString(1) == "1" && NatToString(2) == "2";
    assert "e" + NatToString(2) == "e2";
  }

  /** An edge to a label with no node is dropped from the ReactFlow edges,
      and the one that resolves keeps its id and takes the first node with
      its label. */
  lemma DanglingDropped()
    ensures FlowEdges([Node(1, "a"), Node(2, "a")], [Edge(1, "a", "b"), Edge(2, "a", "a")])
         == [FlowEdge("e2", "1", "1", true, "#555", 2, "arrowclosed", "#555")]
  {
    var nodes := [Node(1, "a"), Node(2, "a")];
    var edges := [Edge(1, "a", "b"), Edge(2, "a", "a")];
    var xs := seq(|edges|, k requires 0 <= k < |edges| => ResolveEdge(nodes, edges[k]));
    DanglingResolved();
    assert xs == [None, Some(FlowEdge("e2", "1", "1", true, "#555", 2, "arrowclosed", "#555"))];
    assert xs[..1] == [None];
    assert xs[..1][..0] == [];
    assert Present(xs[..1][..0]) == [];
    assert Present(xs[..1]) == [];
    assert Present(xs) == [FlowEdge("e2", "1", "1", true, "#555", 2, "arrowclosed", "#555")];
    assert FlowEdges(nodes, edges) == Present(xs);
  }
}
