/** The pieces of JavaScript string semantics that formatMarkdown and the plan store rely on: the
    character classes of regular expressions (`\s`, `\d`, `\w`, `[A-Z]`, `.`), the greedy span of a
    class, and `String.prototype.trim`. Strings are `seq<char>`. */
module Text {

  /** JavaScript's WhiteSpace and LineTerminator characters: exactly what `\s` matches and what
      `trim()` removes. */
  predicate IsWs(c: char) {
    c == ' ' || c == '\t' || c == '\n' || c == '\U{B}' || c == '\U{C}' || c == '\r'
    || c == '\U{A0}' || c == '\U{1680}' || ('\U{2000}' <= c <= '\U{200A}')
    || c == '\U{2028}' || c == '\U{2029}' || c == '\U{202F}' || c == '\U{205F}'
    || c == '\U{3000}' || c == '\U{FEFF}'
  }

  /** `[A-Z]` without the `i` flag. */
  predicate IsAsciiUpper(c: char) { 'A' <= c <= 'Z' }

  /** `\d`. */
  predicate IsDigit(c: char) { '0' <= c <= '9' }

  /** `\w`, which is also what `\b` looks at when the `u` flag is absent. */
  predicate IsWordChar(c: char) { 'A' <= c <= 'Z' || 'a' <= c <= 'z' || '0' <= c <= '9' || c == '_' }

  /** The case folding used by a regular expression with the `i` flag and without `u`, restricted to the
      characters it can make equal to an ASCII letter: the ASCII letters themselves. */
  function AsciiUpper(c: char): (u: char)
    ensures IsAsciiUpper(u) ==> IsWordChar(c)
  {
    if 'a' <= c <= 'z' then (c as int - 32) as char else c
  }

  /** The character classes that the regular expressions of formatMarkdown repeat. */
  datatype CharClass =
    | Ws        // \s
    | NotNl     // .  (with `\n` as the only line terminator)
    | NotDotNl  // [^.\n]
    | Digit     // \d
    | Hash      // #
    | Newline   // \n
    | Word      // \w

  predicate InClass(c: char, k: CharClass) {
    match k
    case Ws => IsWs(c)
    case NotNl => c != '\n'
    case NotDotNl => c != '.' && c != '\n'
    case Digit => IsDigit(c)
    case Hash => c == '#'
    case Newline => c == '\n'
    case Word => IsWordChar(c)
  }

  /** Where a greedy repetition of class `k` that starts at `j` stops: the first position at or after `j`
      whose character is not in `k`, or the end of `s`. */
  function Span(s: string, j: nat, k: CharClass): (e: nat)
    requires j <= |s|
    ensures j <= e <= |s|
    ensures forall m :: j <= m < e ==> InClass(s[m], k)
    ensures e < |s| ==> !InClass(s[e], k)
    decreases |s| - j
  {
    if j == |s| || !InClass(s[j], k) then j else Span(s, j + 1, k)
  }

  /** The mirror image of Span: the first position of the run of class `k` that ends at `e`. */
  function SpanBack(s: string, e: nat, k: CharClass): (b: nat)
    requires e <= |s|
    ensures b <= e
    ensures forall m :: b <= m < e ==> InClass(s[m], k)
    ensures b > 0 ==> !InClass(s[b - 1], k)
  {
    if e == 0 || !InClass(s[e - 1], k) then e else SpanBack(s, e - 1, k)
  }

  /** The two clauses of Span's contract pin its value down. */
  lemma SpanUnique(s: string, j: nat, k: CharClass, e: nat)
    requires j <= e <= |s|
    requires forall m :: j <= m < e ==> InClass(s[m], k)
    requires e < |s| ==> !InClass(s[e], k)
    ensures Span(s, j, k) == e
  {
  }

  /** A span computed inside a slice `s[lo..hi]` is the span in `s`, cut off at `hi`. */
  lemma SpanOfSlice(s: string, lo: nat, hi: nat, j: nat, k: CharClass)
    requires lo <= j <= hi <= |s|
    ensures Span(s[lo..hi], j - lo, k) + lo == if Span(s, j, k) < hi then Span(s, j, k) else hi
  {
    var t := s[lo..hi];
    var e := if Span(s, j, k) < hi then Span(s, j, k) else hi;
    assert forall m :: j - lo <= m < e - lo ==> t[m] == s[m + lo];
    SpanUnique(t, j - lo, k, e - lo);
  }

  /** A span only looks forward: text put in front of `t` shifts it and changes nothing else. */
  lemma SliceShift(p: string, t: string, i: nat, e: nat)
    requires i <= e <= |t|
    ensures (p + t)[|p| + i..|p| + e] == t[i..e]
  {
  }

  lemma SpanShift(p: string, t: string, j: nat, k: CharClass)
    requires j <= |t|
    ensures Span(p + t, |p| + j, k) == |p| + Span(t, j, k)
  {
    var e := Span(t, j, k);
    assert forall m :: 0 <= m < |t| ==> (p + t)[|p| + m] == t[m];
    SpanUnique(p + t, |p| + j, k, |p| + e);
  }

  lemma AppendAssoc(a: string, b: string, c: string)
    ensures (a + b) + c == a + (b + c)
  {
  }

  /** `s.trim()`: the longest leading and trailing runs of whitespace removed. */
  function Trim(s: string): (r: string)
    ensures r == [] <==> forall i :: 0 <= i < |s| ==> IsWs(s[i])
    ensures r != [] ==> !IsWs(r[0]) && !IsWs(r[|r| - 1])
  {
    var a := Span(s, 0, Ws);
    if a == |s| then [] else s[a..SpanBack(s, |s|, Ws)]
  }

  /** What Trim removes: a whitespace prefix and a whitespace suffix, nothing in between. */
  lemma TrimIsInfix(s: string) returns (a: nat)
    ensures a + |Trim(s)| <= |s|
    ensures Trim(s) == s[a..a + |Trim(s)|]
    ensures forall i :: 0 <= i < a ==> IsWs(s[i])
    ensures forall i :: a + |Trim(s)| <= i < |s| ==> IsWs(s[i])
  {
    a := Span(s, 0, Ws);
    if a == |s| {
      a := 0;
    }
  }
}
