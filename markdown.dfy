/** formatMarkdown: a chain of seven global regular-expression replacements followed by `trim()`.

    Each replacement is modelled as a left-to-right scan `XFrom(s, i)` over the string `s` it is applied
    to. At position `i` the scan either finds the match that the regular expression's backtracking
    search settles on first (and emits the replacement, then resumes at the end of the match) or finds
    none (and copies `s[i]`, then resumes at `i + 1`). Anchors and look-behind (`^`, `\b`) read the whole
    of `s`, as JavaScript's `String.prototype.replace` does. `\n` is the only line terminator. */
module Markdown {
  import opened Wrappers
  import opened Text

  /** `^` under the `m` flag. */
  predicate AtLineStart(s: string, i: nat)
    requires i <= |s|
  {
    i == 0 || s[i - 1] == '\n'
  }

  /** `$` under the `m` flag. */
  predicate AtLineEnd(s: string, i: nat)
    requires i <= |s|
  {
    i == |s| || s[i] == '\n'
  }

  // ---------------------------------------------------------------------------------------------
  // `.replace(/\n\n/g, '\n\n')`

  /** Every match is replaced by itself: the step changes nothing. */
  function EnsureLineBreaksFrom(s: string, i: nat): (r: string)
    requires i <= |s|
    ensures r == s[i..]
    decreases |s| - i
  {
    if i == |s| then []
    else if i + 1 < |s| && s[i] == '\n' && s[i + 1] == '\n' then "\n\n" + EnsureLineBreaksFrom(s, i + 2)
    else [s[i]] + EnsureLineBreaksFrom(s, i + 1)
  }

  // ---------------------------------------------------------------------------------------------
  // `.replace(/^([A-Z][^.\n]*):?\s*$/gm, '## $1')`
  //
  // At a line start holding an upper-case letter, `[^.\n]*` first takes everything up to the first '.'
  // or '\n' (position q), ':' included. If s[q] is '.', no shorter choice can reach a `$` either, so
  // there is no match. Otherwise `:?` takes nothing, `\s*` takes the whitespace run after q (newlines
  // included) and gives back characters until `$` holds: the match ends at the last line end inside
  // that run. $1 is the whole line from the letter to q.

  /** The last position in `[lo, hi]` where `$` holds. */
  function LastLineEndIn(s: string, lo: nat, hi: nat): (k: nat)
    requires lo <= hi <= |s|
    requires AtLineEnd(s, lo)
    ensures lo <= k <= hi && AtLineEnd(s, k)
    ensures forall m :: k < m <= hi ==> !AtLineEnd(s, m)
    decreases hi - lo
  {
    if AtLineEnd(s, hi) then hi else LastLineEndIn(s, lo, hi - 1)
  }

  /** The regular expression matches at `i`. */
  predicate HeadingAt(s: string, i: nat)
    requires i < |s|
  {
    AtLineStart(s, i) && IsAsciiUpper(s[i]) && AtLineEnd(s, Span(s, i + 1, NotDotNl))
  }

  /** Where the match at `i` ends: `\s*` gives back characters only down to the last line end in its run. */
  function HeadingMatchEnd(s: string, i: nat): (e: nat)
    requires i < |s| && HeadingAt(s, i)
    ensures Span(s, i + 1, NotDotNl) <= e <= Span(s, Span(s, i + 1, NotDotNl), Ws) && AtLineEnd(s, e)
    ensures forall m :: e < m <= Span(s, Span(s, i + 1, NotDotNl), Ws) ==> !AtLineEnd(s, m)
  {
    var q := Span(s, i + 1, NotDotNl);
    LastLineEndIn(s, q, Span(s, q, Ws))
  }

  /** The global replace of services/aiService.js:199 from position `i` on. */
  function FormatHeadingsFrom(s: string, i: nat): string
    requires i <= |s|
    decreases |s| - i
  {
    if i == |s| then []
    else if HeadingAt(s, i) then "## " + s[i..Span(s, i + 1, NotDotNl)] + FormatHeadingsFrom(s, HeadingMatchEnd(s, i))
    else [s[i]] + FormatHeadingsFrom(s, i + 1)
  }

  // ---------------------------------------------------------------------------------------------
  // `.replace(/^[-*]\s+/gm, '- ')`: `\s+` is greedy and may run over line ends.

  /** The regular expression matches at `i`. */
  predicate BulletAt(s: string, i: nat)
    requires i < |s|
  {
    AtLineStart(s, i) && (s[i] == '-' || s[i] == '*') && i + 1 < |s| && IsWs(s[i + 1])
  }

  /** The global replace of services/aiService.js:201 from position `i` on. A match is a marker and at least one
      whitespace character, and "- " replaces it, so the text never grows. */
  function FormatBulletsFrom(s: string, i: nat): (r: string)
    requires i <= |s|
    ensures |r| <= |s| - i
    decreases |s| - i
  {
    if i == |s| then []
    else if BulletAt(s, i) then "- " + FormatBulletsFrom(s, Span(s, i + 1, Ws))
    else [s[i]] + FormatBulletsFrom(s, i + 1)
  }

  // ---------------------------------------------------------------------------------------------
  // `.replace(/^\d+\.\s+/gm, (match) => match)`

  /** The callback returns each match unchanged: the step changes nothing. */
  function FormatNumberedFrom(s: string, i: nat): (r: string)
    requires i <= |s|
    ensures r == s[i..]
    decreases |s| - i
  {
    if i == |s| then []
    else
      var d := Span(s, i, Digit);
      if AtLineStart(s, i) && d > i && d + 1 < |s| && s[d] == '.' && IsWs(s[d + 1]) then
        var e := Span(s, d + 1, Ws);
        s[i..e] + FormatNumberedFrom(s, e)
      else [s[i]] + FormatNumberedFrom(s, i + 1)
  }

  // ---------------------------------------------------------------------------------------------
  // `.replace(/\b(Goal|Objective|Important|Note|Warning)\b/gi, '**$1**')`

  const Keywords: seq<string> := ["Goal", "Objective", "Important", "Note", "Warning"]

  /** `\b`: exactly one of the characters around position `i` is a word character. */
  predicate AtWordBoundary(s: string, i: nat)
    requires i <= |s|
  {
    (i > 0 && IsWordChar(s[i - 1])) != (i < |s| && IsWordChar(s[i]))
  }

  /** Equality under the `i` flag. */
  predicate EqualsIgnoreCase(a: string, b: string) {
    |a| == |b| && forall m :: 0 <= m < |a| ==> AsciiUpper(a[m]) == AsciiUpper(b[m])
  }

  /** Alternative `w` of the group matches at `i` and the closing `\b` holds after it. */
  predicate KeywordFits(s: string, i: nat, w: string)
    requires i <= |s|
  {
    i + |w| <= |s| && EqualsIgnoreCase(s[i..i + |w|], w) && AtWordBoundary(s, i + |w|)
  }

  /** The length of the first alternative among `ks` that fits at `i`, or 0 for none. */
  function KeywordMatch(s: string, i: nat, ks: seq<string>): (n: nat)
    requires i <= |s|
    ensures i + n <= |s|
    decreases |ks|
  {
    if ks == [] then 0
    else if KeywordFits(s, i, ks[0]) then |ks[0]|
    else KeywordMatch(s, i, ks[1..])
  }

  /** The alternation finds a match exactly when some alternative fits, and then its length is that of
      an alternative that fits. */
  lemma {:induction false} KeywordMatchFinds(s: string, i: nat, ks: seq<string>)
    requires i <= |s| && forall m :: 0 <= m < |ks| ==> |ks[m]| > 0
    ensures var n := KeywordMatch(s, i, ks);
      (n == 0 <==> forall m :: 0 <= m < |ks| ==> !KeywordFits(s, i, ks[m]))
      && (n > 0 ==> exists m :: 0 <= m < |ks| && n == |ks[m]| && KeywordFits(s, i, ks[m]))
    decreases |ks|
  {
    if ks != [] {
      assert forall m :: 0 <= m < |ks[1..]| ==> ks[1..][m] == ks[m + 1];
      KeywordMatchFinds(s, i, ks[1..]);
      if !KeywordFits(s, i, ks[0]) {
        assert forall m :: 1 <= m < |ks| ==> ks[m] == ks[1..][m - 1];
      }
      if !KeywordFits(s, i, ks[0]) && KeywordMatch(s, i, ks) > 0 {
        var m :| 0 <= m < |ks[1..]| && KeywordMatch(s, i, ks) == |ks[1..][m]| && KeywordFits(s, i, ks[1..][m]);
        assert ks[1..][m] == ks[m + 1];
      }
    }
  }

  /** How long the match of `\b(ks[0]|ks[1]|…)\b` at `i` is, or 0 when it does not match there. */
  function BoldMatchLength(s: string, i: nat, ks: seq<string>): (n: nat)
    requires i <= |s|
    ensures i + n <= |s|
  {
    if AtWordBoundary(s, i) then KeywordMatch(s, i, ks) else 0
  }

  /** The replacement `'**$1**'`. */
  function Embolden(w: string): string {
    "**" + w + "**"
  }

  /** The global replace of `\b(ks[0]|ks[1]|…)\b` by `'**$1**'`, from position `i` on; services/aiService.js:205 uses
      it with `Keywords`. Every match is kept and wrapped, so the text never shrinks. */
  function FormatBoldFrom(s: string, i: nat, ks: seq<string>): (r: string)
    requires i <= |s|
    ensures |r| >= |s| - i
    decreases |s| - i
  {
    if i == |s| then []
    else
      var n := BoldMatchLength(s, i, ks);
      if n > 0 then Embolden(s[i..i + n]) + FormatBoldFrom(s, i + n, ks)
      else [s[i]] + FormatBoldFrom(s, i + 1, ks)
  }

  // ---------------------------------------------------------------------------------------------
  // `.replace(/^(#{1,6}\s+.+)$/gm, '\n$1\n')`
  //
  // `#{1,6}` can only succeed with the whole run of '#' (a shorter choice leaves a '#' where `\s+`
  // needs whitespace), so the run must be 1 to 6 long and be followed by whitespace. `\s+` takes the
  // whole whitespace run (newlines included). If a character follows the run, `.+` takes the rest of
  // that character's line and `$` holds. If the run reaches the end of the input, `\s+` gives back
  // characters until `.+` can start on one that is not '\n': the match then ends just before the
  // trailing newlines of the input, provided `\s+` keeps at least one character.

  /** The regular expression matches at `p`. */
  predicate HeaderAt(s: string, p: nat)
    requires p < |s|
  {
    AtLineStart(s, p)
    && var a := Span(s, p, Hash);
    && 1 <= a - p <= 6 && a < |s| && IsWs(s[a])
    && (Span(s, a, Ws) < |s| || SpanBack(s, |s|, Newline) >= a + 2)
  }

  /** Where the match at `p` ends. */
  function HeaderMatchEnd(s: string, p: nat): (y: nat)
    requires p < |s| && HeaderAt(s, p)
    ensures Span(s, p, Hash) < y <= |s| && AtLineEnd(s, y)
  {
    var r := Span(s, Span(s, p, Hash), Ws);
    if r < |s| then Span(s, r, NotNl) else SpanBack(s, |s|, Newline)
  }

  /** The global replace of services/aiService.js:207 from position `i` on. Every match is kept between two added
      newlines, so the text never shrinks. */
  function SpaceHeadersFrom(s: string, i: nat): (r: string)
    requires i <= |s|
    ensures |r| >= |s| - i
    decreases |s| - i
  {
    if i == |s| then []
    else if HeaderAt(s, i) then "\n" + s[i..HeaderMatchEnd(s, i)] + "\n" + SpaceHeadersFrom(s, HeaderMatchEnd(s, i))
    else [s[i]] + SpaceHeadersFrom(s, i + 1)
  }

  // ---------------------------------------------------------------------------------------------
  // `.replace(/\n{3,}/g, '\n\n')`

  /** The global replace of services/aiService.js:209 from position `i` on. A run of three or more newlines becomes two,
      so the text never grows. */
  function CollapseNewlinesFrom(s: string, i: nat): (r: string)
    requires i <= |s|
    ensures |r| <= |s| - i
    decreases |s| - i
  {
    if i == |s| then []
    else if Span(s, i, Newline) - i >= 3 then "\n\n" + CollapseNewlinesFrom(s, Span(s, i, Newline))
    else [s[i]] + CollapseNewlinesFrom(s, i + 1)
  }

  /** Three newlines in a row start at position `m` of `t`. */
  predicate TripleNewlineAt(t: string, m: nat) {
    m + 3 <= |t| && t[m] == '\n' && t[m + 1] == '\n' && t[m + 2] == '\n'
  }

  predicate NoTripleNewline(t: string) {
    forall m :: 0 <= m < |t| ==> !TripleNewlineAt(t, m)
  }

  /** The non-newline characters of `t`, in order. */
  function WithoutNewlines(t: string): string {
    if t == [] then [] else (if t[0] == '\n' then [] else [t[0]]) + WithoutNewlines(t[1..])
  }

  lemma {:induction false} WithoutNewlinesAppend(a: string, b: string)
    ensures WithoutNewlines(a + b) == WithoutNewlines(a) + WithoutNewlines(b)
    decreases |a|
  {
    if a == [] {
      assert a + b == b;
    } else {
      assert (a + b)[0] == a[0] && (a + b)[1..] == a[1..] + b;
      WithoutNewlinesAppend(a[1..], b);
    }
  }

  lemma {:induction false} WithoutNewlinesOfNewlines(t: string)
    requires forall m :: 0 <= m < |t| ==> t[m] == '\n'
    ensures WithoutNewlines(t) == []
    decreases |t|
  {
    if t != [] {
      WithoutNewlinesOfNewlines(t[1..]);
    }
  }

  /** The scan replaces the whole run of newlines that starts at `i` at once: by "\n\n" when it is three
      or more long, by itself otherwise. */
  lemma {:induction false} CollapseRun(s: string, i: nat)
    requires i <= |s|
    ensures var e := Span(s, i, Newline);
      CollapseNewlinesFrom(s, i) == (if e - i >= 3 then "\n\n" else s[i..e]) + CollapseNewlinesFrom(s, e)
    decreases |s| - i
  {
    var e := Span(s, i, Newline);
    if 0 < e - i < 3 {
      assert Span(s, i + 1, Newline) == e;
      CollapseRun(s, i + 1);
      assert s[i..e] == [s[i]] + s[i + 1..e];
    }
  }

  lemma NoTripleNewlineCons(c: char, b: string)
    requires c != '\n' && NoTripleNewline(b)
    ensures NoTripleNewline([c] + b)
  {
    var t := [c] + b;
    forall m | 0 <= m < |t| ensures !TripleNewlineAt(t, m) {
      assert m > 0 && TripleNewlineAt(t, m) ==> TripleNewlineAt(b, m - 1);
    }
  }

  lemma NoTripleNewlineAfterShortRun(a: string, b: string)
    requires |a| <= 2 && NoTripleNewline(b) && (b == [] || b[0] != '\n')
    ensures NoTripleNewline(a + b)
  {
    var t := a + b;
    forall m | 0 <= m < |t| ensures !TripleNewlineAt(t, m) {
      assert m >= |a| && TripleNewlineAt(t, m) ==> TripleNewlineAt(b, m - |a|);
      assert m < |a| && m + 3 <= |t| ==> t[|a|] == b[0];
    }
  }

  /** After the step no three newlines follow each other anywhere. */
  lemma {:induction false} CollapseLeavesNoTriple(s: string, i: nat)
    requires i <= |s|
    ensures NoTripleNewline(CollapseNewlinesFrom(s, i))
    decreases |s| - i
  {
    if i < |s| {
      var e := Span(s, i, Newline);
      if e == i {
        CollapseLeavesNoTriple(s, i + 1);
        NoTripleNewlineCons(s[i], CollapseNewlinesFrom(s, i + 1));
      } else {
        CollapseRun(s, i);
        CollapseLeavesNoTriple(s, e);
        NoTripleNewlineAfterShortRun(if e - i >= 3 then "\n\n" else s[i..e], CollapseNewlinesFrom(s, e));
      }
    }
  }

  /** The step only ever touches newlines: every other character survives, in order. */
  lemma {:induction false} CollapseKeepsText(s: string, i: nat)
    requires i <= |s|
    ensures WithoutNewlines(CollapseNewlinesFrom(s, i)) == WithoutNewlines(s[i..])
    decreases |s| - i
  {
    if i < |s| {
      var e := Span(s, i, Newline);
      if e == i {
        assert s[i..] == [s[i]] + s[i + 1..];
        calc {
          WithoutNewlines(CollapseNewlinesFrom(s, i));
          WithoutNewlines([s[i]] + CollapseNewlinesFrom(s, i + 1));
          { WithoutNewlinesAppend([s[i]], CollapseNewlinesFrom(s, i + 1)); }
          WithoutNewlines([s[i]]) + WithoutNewlines(CollapseNewlinesFrom(s, i + 1));
          { CollapseKeepsText(s, i + 1); }
          WithoutNewlines([s[i]]) + WithoutNewlines(s[i + 1..]);
          { WithoutNewlinesAppend([s[i]], s[i + 1..]); }
          WithoutNewlines(s[i..]);
        }
      } else {
        var run := if e - i >= 3 then "\n\n" else s[i..e];
        assert s[i..] == s[i..e] + s[e..];
        calc {
          WithoutNewlines(CollapseNewlinesFrom(s, i));
          { CollapseRun(s, i); }
          WithoutNewlines(run + CollapseNewlinesFrom(s, e));
          { WithoutNewlinesAppend(run, CollapseNewlinesFrom(s, e)); WithoutNewlinesOfNewlines(run); }
          WithoutNewlines(CollapseNewlinesFrom(s, e));
          { CollapseKeepsText(s, e); }
          WithoutNewlines(s[e..]);
          { WithoutNewlinesAppend(s[i..e], s[e..]); WithoutNewlinesOfNewlines(s[i..e]); }
          WithoutNewlines(s[i..]);
        }
      }
    }
  }

  /** Runs of one or two newlines are kept: text without three newlines in a row passes unchanged. */
  lemma {:induction false} CollapseKeepsShortRuns(s: string, i: nat)
    requires i <= |s| && NoTripleNewline(s)
    ensures CollapseNewlinesFrom(s, i) == s[i..]
    decreases |s| - i
  {
    if i < |s| {
      assert !TripleNewlineAt(s, i);
      CollapseKeepsShortRuns(s, i + 1);
    }
  }

  /** `trim()` cuts a piece out of the text, so it cannot create three newlines in a row. */
  lemma TrimKeepsNoTriple(t: string)
    requires NoTripleNewline(t)
    ensures NoTripleNewline(Trim(t))
  {
    var a := TrimIsInfix(t);
    var u := Trim(t);
    forall m | 0 <= m < |u| ensures !TripleNewlineAt(u, m) {
      assert TripleNewlineAt(u, m) ==> TripleNewlineAt(t, a + m);
    }
  }

  // ---------------------------------------------------------------------------------------------
  // The whole function

  function EnsureLineBreaks(s: string): string { EnsureLineBreaksFrom(s, 0) }
  function FormatHeadings(s: string): string { FormatHeadingsFrom(s, 0) }
  function FormatBullets(s: string): string { FormatBulletsFrom(s, 0) }
  function FormatNumbered(s: string): string { FormatNumberedFrom(s, 0) }
  function FormatBold(s: string): string { FormatBoldFrom(s, 0, Keywords) }
  function SpaceHeaders(s: string): string { SpaceHeadersFrom(s, 0) }
  function CollapseNewlines(s: string): string { CollapseNewlinesFrom(s, 0) }

  /** The replacements before the final `trim()`: whatever the earlier steps produce, the last one
      leaves no three newlines in a row. */
  function Replacements(text: string): (r: string)
    ensures NoTripleNewline(r)
  {
    var spaced := SpaceHeaders(FormatBold(FormatNumbered(FormatBullets(FormatHeadings(EnsureLineBreaks(text))))));
    CollapseLeavesNoTriple(spaced, 0);
    CollapseNewlines(spaced)
  }

  /** `formatMarkdown(rawText)`. `None` stands for `null`, `undefined` and any value that is not a string;
      all of them, and the empty string, give the empty string. Otherwise the result is trimmed and has
      no three newlines in a row. */
  function FormatMarkdown(rawText: Option<string>): (r: string)
    ensures rawText == None || rawText == Some([]) ==> r == []
    ensures r != [] ==> !IsWs(r[0]) && !IsWs(r[|r| - 1])
    ensures NoTripleNewline(r)
  {
    if rawText == None || rawText == Some([]) then []
    else
      var replaced := Replacements(rawText.value);
      TrimKeepsNoTriple(replaced);
      Trim(replaced)
  }
}
