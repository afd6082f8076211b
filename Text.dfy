/**
 * Characters and strings as the JavaScript runtime sees them: the character
 * classes the parser's regular expressions use, `String.prototype.trim`,
 * `String.prototype.split` on `[.;\n]`, and `String(n)` on a non-negative
 * integer below 10^21, where JavaScript prints every decimal digit.
 */
module Text {

  /** The two character classes the expressions use; no character is in
      both. */
  datatype CharClass = TokenClass | SpaceClass | OtherClass

  /** `[a-zа-я0-9_]` under the `i` flag: ASCII letters of both cases, the 32
      Cyrillic letters U+0430..U+044F and their capitals U+0410..U+042F (so
      not `ё`/`Ё`), digits and underscore. Then ECMAScript `\s`, which is
      also the set `trim` removes: WhiteSpace and LineTerminator. */
  function Classify(c: char): CharClass {
    if || ('a' <= c <= 'z')
       || ('A' <= c <= 'Z')
       || ('\U{0430}' <= c <= '\U{044F}')
       || ('\U{0410}' <= c <= '\U{042F}')
       || ('0' <= c <= '9')
       || c == '_'
    then TokenClass
    else if || c == '\t' || c == '\n' || c == '\U{000B}' || c == '\U{000C}' || c == '\r'
            || c == ' ' || c == '\U{00A0}' || c == '\U{1680}'
            || ('\U{2000}' <= c <= '\U{200A}')
            || c == '\U{2028}' || c == '\U{2029}' || c == '\U{202F}' || c == '\U{205F}'
            || c == '\U{3000}' || c == '\U{FEFF}'
    then SpaceClass
    else OtherClass
  }

  /** `[a-zа-я0-9_]` with the `i` flag. */
  predicate IsTokenChar(c: char) {
    Classify(c) == TokenClass
  }

  /** `\s`. */
  predicate IsSpace(c: char) {
    Classify(c) == SpaceClass
  }

  /** The characters of the sentence split `/[.;\n]/`. */
  predicate IsSeparator(c: char) {
    c == '.' || c == ';' || c == '\n'
  }

  predicate NoSeparator(s: string) {
    forall k :: 0 <= k < |s| ==> !IsSeparator(s[k])
  }

  predicate AllSpace(s: string) {
    forall k {:trigger IsSpace(s[k])} :: 0 <= k < |s| ==> IsSpace(s[k])
  }

  /** Folds the letters the `i` flag folds (ASCII and the Cyrillic block
      А..Я) to lower case and leaves every other character as it is. */
  function Lower(c: char): char
  {
    if 'A' <= c <= 'Z' || '\U{0410}' <= c <= '\U{042F}' then (c as int + 32) as char else c
  }

  // ---------------------------------------------------------------------
  // trim

  /** Number of leading whitespace characters. */
  function LeadingSpaces(s: string): (n: nat)
    ensures n <= |s|
    ensures forall k {:trigger IsSpace(s[k])} :: 0 <= k < n ==> IsSpace(s[k])
    ensures n == |s| || !IsSpace(s[n])
  {
    if s == [] || !IsSpace(s[0]) then 0 else 1 + LeadingSpaces(s[1..])
  }

  /** Number of trailing whitespace characters. */
  function TrailingSpaces(s: string): (n: nat)
    ensures n <= |s|
    ensures forall k {:trigger IsSpace(s[k])} :: |s| - n <= k < |s| ==> IsSpace(s[k])
    ensures n == |s| || !IsSpace(s[|s| - 1 - n])
  {
    if s == [] || !IsSpace(s[|s| - 1]) then 0 else 1 + TrailingSpaces(s[..|s| - 1])
  }

  /** `s.trim()`: the slice of `s` left after removing whitespace at both
      ends. Only whitespace is cut off, what is left neither starts nor ends
      with whitespace, it is empty exactly when `s` is all whitespace, and a
      string that neither starts nor ends with whitespace is its own trim. */
  function Trim(s: string): (r: string)
    ensures r == [] <==> AllSpace(s)
    ensures r != [] ==> !IsSpace(r[0]) && !IsSpace(r[|r| - 1])
    ensures exists a, b :: 0 <= a <= b <= |s| && r == s[a..b] && AllSpace(s[..a]) && AllSpace(s[b..])
    ensures |s| > 0 && !IsSpace(s[0]) && !IsSpace(s[|s| - 1]) ==> r == s
  {
    var a := LeadingSpaces(s);
    assert AllSpace(s[..a]) by {
      forall k | 0 <= k < a ensures IsSpace(s[..a][k]) {
        assert s[..a][k] == s[k];
      }
    }
    if a == |s| then
      assert s[a..a] == [] && s[a..] == [];
      assert AllSpace(s[a..]);
      []
    else
      var b := |s| - TrailingSpaces(s);
      assert a < b;
      assert AllSpace(s[b..]) by {
        forall k | 0 <= k < |s| - b ensures IsSpace(s[b..][k]) {
          assert s[b..][k] == s[b + k];
        }
      }
      s[a..b]
  }

  // ---------------------------------------------------------------------
  // split(/[.;\n]/)

  /** Index of the first separator, or |s| when there is none. */
  function FirstSeparator(s: string): (k: nat)
    ensures k <= |s|
    ensures forall j :: 0 <= j < k ==> !IsSeparator(s[j])
    ensures k < |s| ==> IsSeparator(s[k])
  {
    if s == [] then 0 else if IsSeparator(s[0]) then 0 else 1 + FirstSeparator(s[1..])
  }

  /** `s.split(/[.;\n]/)`: the pieces between separators, empty pieces
      included, so one more piece than there are separators. */
  function Split(s: string): (r: seq<string>)
    ensures |r| >= 1
    ensures forall k :: 0 <= k < |r| ==> NoSeparator(r[k])
    decreases |s|
  {
    var k := FirstSeparator(s);
    if k == |s| then [s] else [s[..k]] + Split(s[k + 1..])
  }

  /** A string without separators is a single piece. */
  lemma SplitPlain(s: string)
    requires NoSeparator(s)
    ensures Split(s) == [s]
  {
    assert FirstSeparator(s) == |s|;
  }

  /** The separator characters of `s`, in order. */
  function Separators(s: string): seq<char> {
    if s == [] then [] else (if IsSeparator(s[0]) then [s[0]] else []) + Separators(s[1..])
  }

  /** Puts pieces back together with the given separators between them. */
  function Join(pieces: seq<string>, seps: seq<char>): string
    requires |pieces| == |seps| + 1
  {
    if seps == [] then pieces[0] else pieces[0] + [seps[0]] + Join(pieces[1..], seps[1..])
  }

  /** The separators of `s` are those from its first separator on. */
  lemma {:induction false} SeparatorsOfPlainPrefix(s: string, k: nat)
    requires k <= |s|
    requires forall j :: 0 <= j < k ==> !IsSeparator(s[j])
    ensures Separators(s) == Separators(s[k..])
    decreases k
  {
    if k > 0 {
      assert s[1..][k - 1..] == s[k..];
      SeparatorsOfPlainPrefix(s[1..], k - 1);
    }
  }

  /** Cutting `s` at its first separator. */
  lemma SeparatorsAtFirst(s: string)
    requires FirstSeparator(s) < |s|
    ensures Separators(s) == [s[FirstSeparator(s)]] + Separators(s[FirstSeparator(s) + 1..])
  {
    var k := FirstSeparator(s);
    SeparatorsOfPlainPrefix(s, k);
    assert s[k..][1..] == s[k + 1..];
  }

  lemma JoinCons(piece: string, pieces: seq<string>, sep: char, seps: seq<char>)
    requires |pieces| == |seps| + 1
    ensures Join([piece] + pieces, [sep] + seps) == piece + [sep] + Join(pieces, seps)
  {
    assert ([piece] + pieces)[1..] == pieces;
    assert ([sep] + seps)[1..] == seps;
  }

  /** Splitting loses nothing: the pieces, rejoined with the separators that
      were cut out, give back the input. */
  lemma {:induction false} SplitJoin(s: string)
    ensures |Split(s)| == |Separators(s)| + 1
    ensures Join(Split(s), Separators(s)) == s
    decreases |s|
  {
    var k := FirstSeparator(s);
    if k == |s| {
      SeparatorsOfPlainPrefix(s, k);
      assert s[k..] == [];
    } else {
      var rest := s[k + 1..];
      SeparatorsAtFirst(s);
      SplitJoin(rest);
      JoinCons(s[..k], Split(rest), s[k], Separators(rest));
      assert s == s[..k] + [s[k]] + rest;
    }
  }

  // ---------------------------------------------------------------------
  // String(n)

  function DigitChar(d: nat): (c: char)
    requires d < 10
    ensures '0' <= c <= '9' && c as int - '0' as int == d
  {
    ('0' as int + d) as char
  }

  predicate AllDigits(s: string) {
    forall k :: 0 <= k < |s| ==> '0' <= s[k] <= '9'
  }

  /** `String(n)` for a non-negative integer: its decimal digits. JavaScript
      prints an integral number this way below 10^21; from there on it
      switches to exponent notation, which is not modelled. */
  function NatToString(n: nat): (r: string)
    ensures |r| >= 1 && AllDigits(r)
  {
    if n < 10 then [DigitChar(n)] else NatToString(n / 10) + [DigitChar(n % 10)]
  }

  /** Reads a string of decimal digits back as a number. */
  function ParseNat(s: string): nat
    requires AllDigits(s)
  {
    if s == [] then 0 else 10 * ParseNat(s[..|s| - 1]) + (s[|s| - 1] as int - '0' as int)
  }

  /** Decimal printing is undone by reading the digits back. */
  lemma {:induction false} ParseNatToString(n: nat)
    ensures ParseNat(NatToString(n)) == n
  {
    if n >= 10 {
      var s := NatToString(n);
      assert s[..|s| - 1] == NatToString(n / 10);
      ParseNatToString(n / 10);
    }
  }

  /** So distinct numbers print as distinct strings. */
  lemma NatToStringInjective(a: nat, b: nat)
    ensures NatToString(a) == NatToString(b) ==> a == b
  {
    ParseNatToString(a);
    ParseNatToString(b);
  }
}
