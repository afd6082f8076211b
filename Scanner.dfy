/**
 * The three regular expressions of the relationship extractor, written as
 * scanners over a character sequence, and the global (`g` flag) `exec`
 * that drives them:
 *
 *   Copula        /([tok]+)\s+is\s+connected\s+to\s+([tok]+(\s+[tok]+)*)/gi
 *   LabeledArrow  /связь\s*:\s*([tok]+)\s*->\s*([tok]+)/gi
 *   Arrow         /([tok]+)\s*->\s*([tok]+)/gi
 *
 * where [tok] is Text.IsTokenChar. `MatchAt` is what the backtracking
 * matcher finds when it is started at one position; `ExecFrom` is one call of
 * `regex.exec` from `lastIndex`; `AllMatches` is the loop of calls. The
 * `RegexMatch` predicate is the language of each expression (any way of
 * splitting the text among its parts), and the lemmas `MatchAtSound` and
 * `MatchAtComplete` connect the scanners to it.
 */
module Scanner {
  import opened Text
  import opened Options

  datatype Pattern = Copula | LabeledArrow | Arrow

  /** One `exec` result: where the match starts and ends, and its two groups. */
  datatype Match = Match(start: nat, end: nat, from: string, to: string)

  /** `связь`, matched case-insensitively. */
  const Keyword: string := "связь"

  // ---------------------------------------------------------------------
  // Runs of one character class, literals

  ghost predicate Tokens(s: string, i: int, j: int) {
    0 <= i < j <= |s| && forall k {:trigger IsTokenChar(s[k])} :: i <= k < j ==> IsTokenChar(s[k])
  }

  ghost predicate Spaces(s: string, i: int, j: int) {
    0 <= i <= j <= |s| && forall k {:trigger IsSpace(s[k])} :: i <= k < j ==> IsSpace(s[k])
  }

  /** `lit` (written in lower case) occurs at `i`, under the `i` flag. */
  predicate LiteralAt(s: string, i: nat, lit: string) {
    i + |lit| <= |s| && forall k {:trigger lit[k]} :: 0 <= k < |lit| ==> Lower(s[i + k]) == lit[k]
  }

  /** `->` occurs at `i`. */
  predicate ArrowAt(s: string, i: nat) {
    i + 2 <= |s| && s[i] == '-' && s[i + 1] == '>'
  }

  /** End of the longest run of token characters starting at `i`. */
  function TokenEnd(s: string, i: nat): (j: nat)
    requires i <= |s|
    ensures i <= j <= |s|
    ensures forall k {:trigger IsTokenChar(s[k])} :: i <= k < j ==> IsTokenChar(s[k])
    ensures j == |s| || !IsTokenChar(s[j])
    decreases |s| - i
  {
    if i < |s| && IsTokenChar(s[i]) then TokenEnd(s, i + 1) else i
  }

  /** End of the longest run of whitespace starting at `i`. */
  function SpaceEnd(s: string, i: nat): (j: nat)
    requires i <= |s|
    ensures i <= j <= |s|
    ensures forall k {:trigger IsSpace(s[k])} :: i <= k < j ==> IsSpace(s[k])
    ensures j == |s| || !IsSpace(s[j])
    decreases |s| - i
  {
    if i < |s| && IsSpace(s[i]) then SpaceEnd(s, i + 1) else i
  }

  /** Any run of token characters from `i` to `j` ends no later than the
      longest one, and is the longest one when it stops at a non-token. */
  lemma {:induction false} TokenEndCovers(s: string, i: nat, j: nat)
    requires Tokens(s, i, j)
    ensures j <= TokenEnd(s, i)
    ensures (j == |s| || !IsTokenChar(s[j])) ==> TokenEnd(s, i) == j
    decreases j - i
  {
    if i + 1 < j {
      TokenEndCovers(s, i + 1, j);
    }
  }

  lemma {:induction false} SpaceEndExact(s: string, i: nat, j: nat)
    requires Spaces(s, i, j) && (j == |s| || !IsSpace(s[j]))
    ensures SpaceEnd(s, i) == j
    decreases j - i
  {
    if i < j {
      SpaceEndExact(s, i + 1, j);
    }
  }

  // ---------------------------------------------------------------------
  // The multi-word group  [tok]+(\s+[tok]+)*

  /** `s[i..j]` is one or more tokens separated by whitespace: it starts and
      ends with a token character and holds nothing but token characters and
      whitespace. */
  ghost predicate Phrase(s: string, i: int, j: int) {
    && 0 <= i < j <= |s|
    && IsTokenChar(s[i]) && IsTokenChar(s[j - 1])
    && forall k {:trigger IsTokenChar(s[k])} {:trigger IsSpace(s[k])} :: i <= k < j ==> IsTokenChar(s[k]) || IsSpace(s[k])
  }

  /** Where the greedy `[tok]+(\s+[tok]+)*` stops: a token run, and then
      another whitespace-and-token step as long as one follows. */
  function PhraseEnd(s: string, i: nat): (j: nat)
    requires i < |s| && IsTokenChar(s[i])
    ensures i < j <= |s| && Phrase(s, i, j)
    ensures j == |s| || !IsTokenChar(s[j])
    decreases |s| - i
  {
    var e := TokenEnd(s, i);
    var f := SpaceEnd(s, e);
    if e < f < |s| && IsTokenChar(s[f]) then
      PhraseEnd(s, f)
    else e
  }

  /** The greedy group is the longest phrase starting at `i`. */
  lemma {:induction false} PhraseEndLongest(s: string, i: nat, j: nat)
    requires i < |s| && IsTokenChar(s[i])
    requires Phrase(s, i, j)
    ensures j <= PhraseEnd(s, i)
    decreases |s| - i
  {
    var e := TokenEnd(s, i);
    if j > e {
      // s[e] is inside the phrase but not a token character, so whitespace
      // follows the first token; the whitespace is followed by a token
      // character no later than j - 1.
      var f := SpaceEnd(s, e);
      assert IsSpace(s[e]);
      assert !IsSpace(s[j - 1]);
      assert f <= j - 1;
      assert IsTokenChar(s[f]);
      assert Phrase(s, f, j);
      PhraseEndLongest(s, f, j);
    }
  }

  // ---------------------------------------------------------------------
  // The scanners: what the matcher finds when started at position p

  /** `([tok]+)\s*->\s*([tok]+)` started at `r`, a token character: the
      positions where the first group ends and the second one starts and
      ends. Every choice in it is forced except the length of the second
      group, which is the longest possible. */
  function ArrowTail(s: string, r: nat): (t: Option<(nat, nat, nat)>)
    requires r < |s| && IsTokenChar(s[r])
    ensures t.Some? ==> r < t.value.0 < t.value.1 < t.value.2 <= |s|
  {
    var a := TokenEnd(s, r);
    var b := SpaceEnd(s, a);
    if ArrowAt(s, b) then
      var c := SpaceEnd(s, b + 2);
      if c < |s| && IsTokenChar(s[c]) then Some((a, c, TokenEnd(s, c))) else None
    else None
  }

  /** `\s+lit` from position `i`: whitespace from `i` up to `b`, at least one
      character of it, and then `lit` at `b`. */
  ghost predicate WordAfter(s: string, i: int, b: int, lit: string) {
    i < b && Spaces(s, i, b) && LiteralAt(s, b, lit)
  }

  /** Scans `\s+lit` from `i` and returns the position after `lit`. The
      whitespace run may not stop early, because `lit` starts with a letter. */
  function SkipWord(s: string, i: nat, lit: string): (j: Option<nat>)
    requires i <= |s|
    ensures j.Some? ==> |lit| <= j.value <= |s| && WordAfter(s, i, j.value - |lit|, lit)
  {
    var b := SpaceEnd(s, i);
    if i < b && LiteralAt(s, b, lit) then Some(b + |lit|) else None
  }

  lemma SkipWordComplete(s: string, i: nat, b: int, lit: string)
    requires i <= |s| && WordAfter(s, i, b, lit) && |lit| > 0 && IsTokenChar(lit[0])
    ensures SkipWord(s, i, lit) == Some(b + |lit|)
  {
    LiteralStartsOnToken(s, b, lit);
    SpaceEndExact(s, i, b);
  }

  /** `\s+is\s+connected\s+to` from `a`: the position after `to`. */
  function CopulaWords(s: string, a: nat): (j: Option<nat>)
    requires a <= |s|
    ensures j.Some? ==> a < j.value <= |s|
  {
    match SkipWord(s, a, "is")
    case None => None
    case Some(j1) =>
      match SkipWord(s, j1, "connected")
      case None => None
      case Some(j2) => SkipWord(s, j2, "to")
  }

  /** `([tok]+)\s+is\s+connected\s+to\s+` from `p`: where the subject ends
      and where the target starts. */
  function CopulaHead(s: string, p: nat): (h: Option<(nat, nat)>)
    requires p <= |s|
    ensures h.Some? ==> p < h.value.0 < h.value.1 < |s| && IsTokenChar(s[h.value.1])
  {
    if p < |s| && IsTokenChar(s[p]) then
      var a := TokenEnd(s, p);
      match CopulaWords(s, a)
      case None => None
      case Some(j) =>
        var e := SpaceEnd(s, j);
        if j < e < |s| && IsTokenChar(s[e]) then Some((a, e)) else None
    else None
  }

  function CopulaAt(s: string, p: nat): (m: Option<Match>)
    requires p <= |s|
    ensures m.Some? ==> Found(s, p, m.value)
  {
    match CopulaHead(s, p)
    case None => None
    case Some((a, e)) =>
      var f := PhraseEnd(s, e);
      assert Tokens(s, p, a);
      SliceIsLabel(s, p, a);
      SliceIsLabel(s, e, f);
      Some(Match(p, f, s[p..a], s[e..f]))
  }

  /** `связь\s*:\s*` from `p`, followed by a token character: where that
      token starts. */
  function KeywordHead(s: string, p: nat): (r: Option<nat>)
    requires p <= |s|
    ensures r.Some? ==> p < r.value < |s| && IsTokenChar(s[r.value]) && !IsSpace(s[p])
  {
    if LiteralAt(s, p, Keyword) then
      assert Lower(s[p]) == Keyword[0] == 'с';
      var q := SpaceEnd(s, p + 5);
      if q < |s| && s[q] == ':' then
        var r := SpaceEnd(s, q + 1);
        if r < |s| && IsTokenChar(s[r]) then Some(r) else None
      else None
    else None
  }

  function LabeledArrowAt(s: string, p: nat): (m: Option<Match>)
    requires p <= |s|
    ensures m.Some? ==> Found(s, p, m.value)
  {
    match KeywordHead(s, p)
    case None => None
    case Some(r) =>
      match ArrowTail(s, r)
      case None => None
      case Some((a, c, d)) =>
        SliceIsLabel(s, r, a);
        SliceIsLabel(s, c, d);
        Some(Match(p, d, s[r..a], s[c..d]))
  }

  function BareArrowAt(s: string, p: nat): (m: Option<Match>)
    requires p <= |s|
    ensures m.Some? ==> Found(s, p, m.value)
  {
    if p < |s| && IsTokenChar(s[p]) then
      match ArrowTail(s, p)
      case Some((a, c, d)) =>
        SliceIsLabel(s, p, a);
        SliceIsLabel(s, c, d);
        Some(Match(p, d, s[p..a], s[c..d]))
      case None => None
    else None
  }

  /** The match found when the matcher is started at `p`, if any. A match
      starts at `p`, consumes at least one character, begins with a
      non-whitespace character and has two non-empty groups that are slices
      of the input. */
  function MatchAt(pat: Pattern, s: string, p: nat): (m: Option<Match>)
    requires p <= |s|
    ensures m.Some? ==> Found(s, p, m.value)
  {
    match pat
    case Copula => CopulaAt(s, p)
    case LabeledArrow => LabeledArrowAt(s, p)
    case Arrow => BareArrowAt(s, p)
  }

  /** The facts every match found at `p` has: it starts at `p`, consumes at
      least one character, begins with a non-whitespace character, and its
      two groups are labels taken from the input (so they hold no separator
      when the input holds none). */
  ghost predicate Found(s: string, p: nat, m: Match) {
    && m.start == p < m.end <= |s| && !IsSpace(s[p])
    && IsLabel(m.from) && IsLabel(m.to)
    && (NoSeparator(s) ==> NoSeparator(m.from) && NoSeparator(m.to))
  }

  lemma SliceIsLabel(s: string, i: int, j: int)
    requires Tokens(s, i, j) || Phrase(s, i, j)
    ensures IsLabel(s[i..j])
    ensures NoSeparator(s) ==> NoSeparator(s[i..j])
  {
  }

  /** What a group can capture: a token, or tokens separated by whitespace.
      Such a string is never empty and is left unchanged by `trim`. */
  predicate IsLabel(l: string) {
    && |l| > 0
    && IsTokenChar(l[0]) && IsTokenChar(l[|l| - 1])
    && forall k {:trigger IsTokenChar(l[k])} {:trigger IsSpace(l[k])} :: 0 <= k < |l| ==> IsTokenChar(l[k]) || IsSpace(l[k])
  }

  // ---------------------------------------------------------------------
  // The language of each expression

  /** `\s+is\s+connected\s+to` spread over `s[a..d + 2]`. */
  ghost predicate CopulaWordsShape(s: string, a: int, b: int, c: int, d: int) {
    && WordAfter(s, a, b, "is")
    && WordAfter(s, b + 2, c, "connected")
    && WordAfter(s, c + 9, d, "to")
  }

  /** `([tok]+)\s+is\s+connected\s+to\s+` spread over `s[p..e]`. */
  ghost predicate CopulaHeadShape(s: string, p: int, a: int, b: int, c: int, d: int, e: int) {
    && Tokens(s, p, a)
    && CopulaWordsShape(s, a, b, c, d)
    && d + 2 < e && Spaces(s, d + 2, e)
  }

  ghost predicate CopulaShape(s: string, p: int, a: int, b: int, c: int, d: int, e: int, f: int) {
    CopulaHeadShape(s, p, a, b, c, d, e) && Phrase(s, e, f)
  }

  /** `связь\s*:\s*` spread over `s[p..r]`, the colon at `q`. */
  ghost predicate KeywordHeadShape(s: string, p: int, q: int, r: int) {
    && p >= 0 && LiteralAt(s, p, Keyword)
    && Spaces(s, p + 5, q) && q < |s| && s[q] == ':'
    && Spaces(s, q + 1, r)
  }

  ghost predicate LabeledArrowShape(s: string, p: int, q: int, r: int, a: int, b: int, c: int, d: int) {
    && KeywordHeadShape(s, p, q, r)
    && ArrowShape(s, r, a, b, c, d)
  }

  ghost predicate ArrowShape(s: string, p: int, a: int, b: int, c: int, d: int) {
    && Tokens(s, p, a)
    && Spaces(s, a, b) && ArrowAt(s, b)
    && Spaces(s, b + 2, c) && Tokens(s, c, d)
  }

  ghost predicate CopulaMatch(s: string, p: int, end: int, from: string, to: string) {
    exists a, b, c, d, e :: CopulaShape(s, p, a, b, c, d, e, end) && from == s[p..a] && to == s[e..end]
  }

  ghost predicate LabeledArrowMatch(s: string, p: int, end: int, from: string, to: string) {
    exists q, r, a, b, c :: LabeledArrowShape(s, p, q, r, a, b, c, end) && from == s[r..a] && to == s[c..end]
  }

  ghost predicate ArrowMatch(s: string, p: int, end: int, from: string, to: string) {
    exists a, b, c :: ArrowShape(s, p, a, b, c, end) && from == s[p..a] && to == s[c..end]
  }

  /** The expression `pat` can match `s[p..end]` with groups `from` and `to`
      (by some way of dividing the text among its parts). */
  ghost predicate RegexMatch(pat: Pattern, s: string, p: int, end: int, from: string, to: string) {
    match pat
    case Copula => CopulaMatch(s, p, end, from, to)
    case LabeledArrow => LabeledArrowMatch(s, p, end, from, to)
    case Arrow => ArrowMatch(s, p, end, from, to)
  }

  /** A case-insensitive literal that starts with a letter starts on a token
      character. */
  lemma LiteralStartsOnToken(s: string, i: nat, lit: string)
    requires LiteralAt(s, i, lit) && |lit| > 0 && IsTokenChar(lit[0])
    ensures IsTokenChar(s[i]) && !IsSpace(s[i])
  {
    assert Lower(s[i + 0]) == lit[0];
  }

  lemma CopulaWordsSound(s: string, a: nat)
    requires a <= |s| && CopulaWords(s, a).Some?
    ensures exists b, c, d :: d + 2 == CopulaWords(s, a).value && CopulaWordsShape(s, a, b, c, d)
  {
    var j1 := SkipWord(s, a, "is").value;
    var j2 := SkipWord(s, j1, "connected").value;
    assert CopulaWordsShape(s, a, j1 - 2, j2 - 9, CopulaWords(s, a).value - 2);
  }

  lemma CopulaHeadSound(s: string, p: nat)
    requires p <= |s| && CopulaHead(s, p).Some?
    ensures var (a, e) := CopulaHead(s, p).value;
      exists b, c, d :: CopulaHeadShape(s, p, a, b, c, d, e)
  {
    var a := TokenEnd(s, p);
    CopulaWordsSound(s, a);
    var j := CopulaWords(s, a).value;
    var b, c, d :| d + 2 == j && CopulaWordsShape(s, a, b, c, d);
    assert CopulaHeadShape(s, p, a, b, c, d, SpaceEnd(s, j));
  }

  lemma CopulaSound(s: string, p: nat)
    requires p <= |s| && CopulaAt(s, p).Some?
    ensures var m := CopulaAt(s, p).value;
      CopulaMatch(s, p, m.end, m.from, m.to)
  {
    CopulaHeadSound(s, p);
    var (a, e) := CopulaHead(s, p).value;
    var b, c, d :| CopulaHeadShape(s, p, a, b, c, d, e);
    var m := CopulaAt(s, p).value;
    assert m.end == PhraseEnd(s, e) && m.from == s[p..a] && m.to == s[e..m.end];
    assert CopulaShape(s, p, a, b, c, d, e, m.end);
  }

  /** The positions `ArrowTail` reports are a way of matching the tail. */
  lemma ArrowTailSound(s: string, r: nat)
    requires r < |s| && IsTokenChar(s[r]) && ArrowTail(s, r).Some?
    ensures var (a, c, d) := ArrowTail(s, r).value;
      ArrowShape(s, r, a, SpaceEnd(s, a), c, d)
  {
  }

  lemma LabeledArrowSound(s: string, p: nat)
    requires p <= |s| && LabeledArrowAt(s, p).Some?
    ensures var m := LabeledArrowAt(s, p).value;
      LabeledArrowMatch(s, p, m.end, m.from, m.to)
  {
    var q := SpaceEnd(s, p + 5);
    var r := KeywordHead(s, p).value;
    assert KeywordHeadShape(s, p, q, r);
    ArrowTailSound(s, r);
    var (a, c, d) := ArrowTail(s, r).value;
    var m := LabeledArrowAt(s, p).value;
    assert m == Match(p, d, s[r..a], s[c..d]);
    assert LabeledArrowShape(s, p, q, r, a, SpaceEnd(s, a), c, d);
  }

  lemma ArrowSound(s: string, p: nat)
    requires p <= |s| && BareArrowAt(s, p).Some?
    ensures var m := BareArrowAt(s, p).value;
      ArrowMatch(s, p, m.end, m.from, m.to)
  {
    ArrowTailSound(s, p);
    var (a, c, d) := ArrowTail(s, p).value;
    assert BareArrowAt(s, p).value == Match(p, d, s[p..a], s[c..d]);
    assert ArrowShape(s, p, a, SpaceEnd(s, a), c, d);
  }

  /** What the scanner returns is a match of the expression. */
  lemma MatchAtSound(pat: Pattern, s: string, p: nat)
    requires p <= |s| && MatchAt(pat, s, p).Some?
    ensures var m := MatchAt(pat, s, p).value;
      RegexMatch(pat, s, p, m.end, m.from, m.to)
  {
    match pat
    case Copula => CopulaSound(s, p);
    case LabeledArrow => LabeledArrowSound(s, p);
    case Arrow => ArrowSound(s, p);
  }

  /** The arrow tail is forced by any way the text can match it. */
  lemma ArrowTailComplete(s: string, r: nat, a: int, b: int, c: int, d: int)
    requires r < |s| && IsTokenChar(s[r])
    requires Tokens(s, r, a) && Spaces(s, a, b) && ArrowAt(s, b) && Spaces(s, b + 2, c) && Tokens(s, c, d)
    ensures ArrowTail(s, r).Some?
    ensures ArrowTail(s, r).value.0 == a && ArrowTail(s, r).value.1 == c && d <= ArrowTail(s, r).value.2
  {
    TokenEndCovers(s, r, a);
    SpaceEndExact(s, a, b);
    assert IsTokenChar(s[c]);
    SpaceEndExact(s, b + 2, c);
    TokenEndCovers(s, c, d);
  }

  lemma CopulaWordsComplete(s: string, a: nat, b: int, c: int, d: int)
    requires a <= |s| && CopulaWordsShape(s, a, b, c, d)
    ensures CopulaWords(s, a) == Some(d + 2)
  {
    SkipWordComplete(s, a, b, "is");
    SkipWordComplete(s, b + 2, c, "connected");
    SkipWordComplete(s, c + 9, d, "to");
  }

  lemma CopulaHeadComplete(s: string, p: nat, a: int, b: int, c: int, d: int, e: int)
    requires p <= |s| && CopulaHeadShape(s, p, a, b, c, d, e) && e < |s| && IsTokenChar(s[e])
    ensures CopulaHead(s, p) == Some((a, e))
  {
    assert IsTokenChar(s[p]) && IsSpace(s[a]);
    TokenEndCovers(s, p, a);
    CopulaWordsComplete(s, a, b, c, d);
    SpaceEndExact(s, d + 2, e);
    CopulaHeadSteps(s, p, a, d + 2, e);
  }

  lemma CopulaHeadSteps(s: string, p: nat, a: nat, j: nat, e: nat)
    requires p < |s| && IsTokenChar(s[p]) && TokenEnd(s, p) == a
    requires CopulaWords(s, a) == Some(j)
    requires SpaceEnd(s, j) == e && j < e < |s| && IsTokenChar(s[e])
    ensures CopulaHead(s, p) == Some((a, e))
  {
  }

  lemma CopulaComplete(s: string, p: nat, a: int, b: int, c: int, d: int, e: int, f: int)
    requires p <= |s| && CopulaShape(s, p, a, b, c, d, e, f)
    ensures CopulaAt(s, p).Some?
    ensures var m := CopulaAt(s, p).value;
      m.from == s[p..a] && f <= m.end && m.to == s[e..m.end]
  {
    CopulaHeadComplete(s, p, a, b, c, d, e);
    PhraseEndLongest(s, e, f);
  }

  lemma KeywordHeadComplete(s: string, p: nat, q: int, r: int)
    requires p <= |s| && KeywordHeadShape(s, p, q, r) && r < |s| && IsTokenChar(s[r])
    ensures KeywordHead(s, p) == Some(r)
  {
    SpaceEndExact(s, p + 5, q);
    SpaceEndExact(s, q + 1, r);
  }

  lemma LabeledArrowComplete(s: string, p: nat, q: int, r: int, a: int, b: int, c: int, d: int)
    requires p <= |s| && LabeledArrowShape(s, p, q, r, a, b, c, d)
    ensures LabeledArrowAt(s, p).Some?
    ensures var m := LabeledArrowAt(s, p).value;
      m.from == s[r..a] && d <= m.end && m.to == s[c..m.end]
  {
    assert IsTokenChar(s[r]);
    KeywordHeadComplete(s, p, q, r);
    ArrowTailComplete(s, r, a, b, c, d);
  }

  lemma ArrowComplete(s: string, p: nat, a: int, b: int, c: int, d: int)
    requires p <= |s| && ArrowShape(s, p, a, b, c, d)
    ensures BareArrowAt(s, p).Some?
    ensures var m := BareArrowAt(s, p).value;
      m.from == s[p..a] && d <= m.end && m.to == s[c..m.end]
  {
    ArrowTailComplete(s, p, a, b, c, d);
  }

  /** Whenever the expression can match at `p`, the scanner finds a match
      there with the same first group and a second group that extends the
      given one: the greedy match. */
  lemma MatchAtComplete(pat: Pattern, s: string, p: nat, end: int, from: string, to: string)
    requires p <= |s| && RegexMatch(pat, s, p, end, from, to)
    ensures MatchAt(pat, s, p).Some?
    ensures var m := MatchAt(pat, s, p).value;
      m.from == from && end <= m.end && to <= m.to
  {
    match pat
    case Copula => CopulaMatchComplete(s, p, end, from, to);
    case LabeledArrow => LabeledArrowMatchComplete(s, p, end, from, to);
    case Arrow => ArrowMatchComplete(s, p, end, from, to);
  }

  lemma CopulaMatchComplete(s: string, p: nat, end: int, from: string, to: string)
    requires p <= |s| && CopulaMatch(s, p, end, from, to)
    ensures CopulaAt(s, p).Some?
    ensures var m := CopulaAt(s, p).value;
      m.from == from && end <= m.end && to <= m.to
  {
    var a, b, c, d, e :| CopulaShape(s, p, a, b, c, d, e, end) && from == s[p..a] && to == s[e..end];
    CopulaComplete(s, p, a, b, c, d, e, end);
    SlicePrefix(s, e, end, CopulaAt(s, p).value.end);
  }

  lemma LabeledArrowMatchComplete(s: string, p: nat, end: int, from: string, to: string)
    requires p <= |s| && LabeledArrowMatch(s, p, end, from, to)
    ensures LabeledArrowAt(s, p).Some?
    ensures var m := LabeledArrowAt(s, p).value;
      m.from == from && end <= m.end && to <= m.to
  {
    var q, r, a, b, c :| LabeledArrowShape(s, p, q, r, a, b, c, end) && from == s[r..a] && to == s[c..end];
    LabeledArrowComplete(s, p, q, r, a, b, c, end);
    SlicePrefix(s, c, end, LabeledArrowAt(s, p).value.end);
  }

  lemma ArrowMatchComplete(s: string, p: nat, end: int, from: string, to: string)
    requires p <= |s| && ArrowMatch(s, p, end, from, to)
    ensures BareArrowAt(s, p).Some?
    ensures var m := BareArrowAt(s, p).value;
      m.from == from && end <= m.end && to <= m.to
  {
    var a, b, c :| ArrowShape(s, p, a, b, c, end) && from == s[p..a] && to == s[c..end];
    ArrowComplete(s, p, a, b, c, end);
    SlicePrefix(s, c, end, BareArrowAt(s, p).value.end);
  }

  lemma SlicePrefix(s: string, i: int, j: int, k: int)
    requires 0 <= i <= j <= k <= |s|
    ensures s[i..j] <= s[i..k]
  {
    assert s[i..k][..j - i] == s[i..j];
  }

  // ---------------------------------------------------------------------
  // exec and the global scan

  /** A compiled expression as `exec` uses it: the match the backtracking
      matcher finds when started at a given position of a given string. */
  type Matcher = (string, nat) -> Option<Match>

  /** `new RegExp(pattern.regex)`. */
  function Compile(pat: Pattern): (regex: Matcher)
    ensures forall s :: Consumes(regex, s)
  {
    (s: string, q: nat) => if q <= |s| then MatchAt(pat, s, q) else None
  }

  /** Every match the matcher reports in `s` starts where it was asked to and
      consumes at least one character. */
  ghost predicate Consumes(regex: Matcher, s: string) {
    forall q: nat :: q <= |s| && regex(s, q).Some? ==>
      regex(s, q).value.start == q < regex(s, q).value.end <= |s|
  }

  /** The matcher finds nothing when started anywhere in `lo..hi - 1`. */
  ghost predicate NoneBetween(regex: Matcher, s: string, lo: int, hi: int) {
    forall q: nat :: lo <= q < hi ==> regex(s, q).None?
  }

  /** `regex.exec(s)` with `regex.lastIndex == i`: the match at the
      leftmost position at or after `i` where there is one. */
  function ExecFrom(regex: Matcher, s: string, i: nat): (r: Option<Match>)
    requires i <= |s| && Consumes(regex, s)
    ensures r.Some? ==> i <= r.value.start <= |s| && regex(s, r.value.start) == r
    ensures r.Some? ==> NoneBetween(regex, s, i, r.value.start)
    ensures r.None? ==> NoneBetween(regex, s, i, |s| + 1)
    decreases |s| - i
  {
    if regex(s, i).Some? then regex(s, i)
    else if i == |s| then None
    else ExecFrom(regex, s, i + 1)
  }

  /** The matches `while ((match = regex.exec(s)) !== null)` visits when
      `lastIndex` starts at `i`: each call resumes where the previous match
      ended and the loop stops at the first failing call. The matches are
      left to right, do not overlap and each consumes at least one
      character. */
  function AllMatches(regex: Matcher, s: string, i: nat): (r: seq<Match>)
    requires i <= |s| && Consumes(regex, s)
    ensures forall k :: 0 <= k < |r| ==> i <= r[k].start < r[k].end <= |s|
    ensures forall k :: 0 <= k < |r| ==> regex(s, r[k].start) == Some(r[k])
    ensures forall k, l :: 0 <= k < l < |r| ==> r[k].end <= r[l].start
    decreases |s| - i
  {
    match ExecFrom(regex, s, i)
    case None => []
    case Some(m) =>
      var rest := AllMatches(regex, s, m.end);
      assert forall k :: 1 <= k < |[m] + rest| ==> ([m] + rest)[k] == rest[k - 1];
      [m] + rest
  }

  /** One turn of the `exec` loop: a found match is the first of the scan,
      and the rest of the scan resumes at its end. */
  lemma AllMatchesStep(regex: Matcher, s: string, i: nat)
    requires i <= |s| && Consumes(regex, s) && ExecFrom(regex, s, i).Some?
    ensures var m := ExecFrom(regex, s, i).value;
      AllMatches(regex, s, i) == [m] + AllMatches(regex, s, m.end)
  {
  }

  /** The loop stops at the first call that finds nothing. */
  lemma AllMatchesNone(regex: Matcher, s: string, i: nat)
    requires i <= |s| && Consumes(regex, s) && ExecFrom(regex, s, i).None?
    ensures AllMatches(regex, s, i) == []
  {
  }

  /** Where the `k`-th `exec` call of the scan from `i` started looking. */
  function GapStart(i: nat, r: seq<Match>, k: nat): int
    requires k <= |r|
  {
    if k == 0 then i else r[k - 1].end
  }

  /** Between two consecutive matches, before the first and after the last,
      no match starts: each `exec` call took the leftmost match. Gap `k` is
      the one in front of the `k`-th match, gap `|r|` the one after the
      last. */
  lemma {:induction false} AllMatchesLeftmost(regex: Matcher, s: string, i: nat, k: nat)
    requires i <= |s| && Consumes(regex, s)
    requires k <= |AllMatches(regex, s, i)|
    ensures var r := AllMatches(regex, s, i);
      NoneBetween(regex, s, GapStart(i, r, k), if k < |r| then r[k].start else |s| + 1)
    decreases |s| - i
  {
    match ExecFrom(regex, s, i)
    case None =>
    case Some(m) =>
      var rest := AllMatches(regex, s, m.end);
      var r := [m] + rest;
      assert AllMatches(regex, s, i) == r;
      if k > 0 {
        AllMatchesLeftmost(regex, s, m.end, k - 1);
        assert GapStart(i, r, k) == GapStart(m.end, rest, k - 1);
        assert k < |r| ==> r[k] == rest[k - 1];
      }
  }

  /** `new RegExp(pattern.regex)`: a global expression with its mutable
      `lastIndex`, which starts at 0. */
  class RegExp {
    /** The compiled expression. */
    const matcher: Matcher
    var lastIndex: nat

    constructor(pat: Pattern)
      ensures matcher == Compile(pat) && lastIndex == 0
    {
      matcher := Compile(pat);
      lastIndex := 0;
    }

    /** `regex.exec(s)`: the leftmost match at or after `lastIndex`, after
        which `lastIndex` is the end of the match; when there is none, or
        `lastIndex` is past the end of `s`, the result is null and
        `lastIndex` goes back to 0. */
    method Exec(s: string) returns (m: Option<Match>)
      requires Consumes(matcher, s)
      modifies this
      ensures old(lastIndex) <= |s| ==> m == ExecFrom(matcher, s, old(lastIndex))
      ensures old(lastIndex) > |s| ==> m == None
      ensures lastIndex == (if m.Some? then m.value.end else 0)
    {
      if lastIndex <= |s| {
        m := ExecFrom(matcher, s, lastIndex);
      } else {
        m := None;
      }
      lastIndex := if m.Some? then m.value.end else 0;
    }
  }

  /** The matches of one pattern in `s`, from the start. */
  function PatternMatches(pat: Pattern, s: string): (r: seq<Match>)
    ensures forall k :: 0 <= k < |r| ==> Found(s, r[k].start, r[k])
  {
    var r := AllMatches(Compile(pat), s, 0);
    assert forall k :: 0 <= k < |r| ==> MatchAt(pat, s, r[k].start) == Some(r[k]);
    r
  }

  /** No match can start on whitespace, so a blank string has none. */
  lemma BlankHasNoMatches(pat: Pattern, s: string)
    requires AllSpace(s)
    ensures PatternMatches(pat, s) == []
  {
    var r := PatternMatches(pat, s);
    if r != [] {
      assert false;
    }
  }
}
