/** Line-by-line reference definitions of the anchored replacements of formatMarkdown (services/aiService.js, lines 199, 201
    and 207), and the conditions under which the scans of module Markdown agree with them.

    The anchored replacements (`^...` with the `m` flag) are written with `\s`, which also matches '\n',
    so a match can run past the end of its line and swallow blank lines. Each equivalence lemma states
    the side condition on the input that rules this out; under it, the step rewrites each line on its own. */
module MarkdownLines {
  import opened Text
  import opened Markdown

  /** Applies `f` to every line of `s` from the line that starts at `i` on, keeping the '\n' between
      lines. */
  function MapLinesFrom(f: string -> string, s: string, i: nat): string
    requires i <= |s|
    decreases |s| - i
  {
    var q := Span(s, i, NotNl);
    f(s[i..q]) + if q == |s| then [] else "\n" + MapLinesFrom(f, s, q + 1)
  }

  /** The rest of the line from position `j` holds a character that is not whitespace. */
  predicate LineHasText(s: string, j: nat)
    requires j <= |s|
  {
    Span(s, j, Ws) < Span(s, j, NotNl)
  }

  /** The line of `s` that starts at `i` runs up to `q`. */
  lemma LineEndIs(s: string, i: nat, q: nat)
    requires i <= q <= |s|
    requires forall m :: i <= m < q ==> s[m] != '\n'
    requires AtLineEnd(s, q)
    ensures Span(s, i, NotNl) == q
  {
    SpanUnique(s, i, NotNl, q);
  }

  // ---------------------------------------------------------------------------------------------
  // Line 199: headings

  /** A line that starts with an ASCII upper-case letter and holds no '.'. */
  predicate IsHeadingLine(line: string) {
    |line| > 0 && IsAsciiUpper(line[0]) && '.' !in line
  }

  function PromoteLine(line: string): string {
    if IsHeadingLine(line) then "## " + line else line
  }

  /** Every heading line is the last line or is followed by a line with text: `\s*` then has no blank
      line to swallow. */
  predicate HeadingsFollowedByText(s: string) {
    forall i :: 0 <= i <= |s| && AtLineStart(s, i) && IsHeadingLine(s[i..Span(s, i, NotNl)]) && Span(s, i, NotNl) < |s|
      ==> LineHasText(s, Span(s, i, NotNl) + 1)
  }

  /** `^([A-Z][^.\n]*):?\s*$` matches exactly at the start of a line that begins with an ASCII capital
      and holds no '.': only then can `[^.\n]*` reach the end of the line, where `$` holds. */
  lemma HeadingAtIff(s: string, i: nat)
    requires i < |s|
    ensures HeadingAt(s, i) <==>
      (AtLineStart(s, i) && IsAsciiUpper(s[i]) && forall m :: i < m < Span(s, i, NotNl) ==> s[m] != '.')
  {
    var q := Span(s, i + 1, NotDotNl);
    var e := Span(s, i, NotNl);
    if AtLineStart(s, i) && IsAsciiUpper(s[i]) {
      assert s[i] != '\n';
      if AtLineEnd(s, q) {
        SpanUnique(s, i, NotNl, q);
      }
      if forall m :: i < m < e ==> s[m] != '.' {
        SpanUnique(s, i + 1, NotDotNl, e);
      }
    }
  }

  /** Where nothing matches, the scan copies. */
  lemma HeadingsCopyStep(s: string, j: nat)
    requires j < |s| && !HeadingAt(s, j)
    ensures FormatHeadingsFrom(s, j) == [s[j]] + FormatHeadingsFrom(s, j + 1)
  {
  }

  /** The scan copies a stretch where nothing matches. */
  lemma {:induction false} HeadingsCopy(s: string, j: nat, q: nat)
    requires j <= q <= |s|
    requires forall m :: j <= m < q ==> !HeadingAt(s, m)
    ensures FormatHeadingsFrom(s, j) == s[j..q] + FormatHeadingsFrom(s, q)
    decreases q - j
  {
    if j < q {
      calc {
        FormatHeadingsFrom(s, j);
        { HeadingsCopyStep(s, j); }
        [s[j]] + FormatHeadingsFrom(s, j + 1);
        { HeadingsCopy(s, j + 1, q); }
        [s[j]] + (s[j + 1..q] + FormatHeadingsFrom(s, q));
        { AppendAssoc([s[j]], s[j + 1..q], FormatHeadingsFrom(s, q)); }
        ([s[j]] + s[j + 1..q]) + FormatHeadingsFrom(s, q);
        { assert s[j..q] == [s[j]] + s[j + 1..q]; }
        s[j..q] + FormatHeadingsFrom(s, q);
      }
    }
  }

  /** A heading line: the match is the whole line, and no blank line after it. */
  lemma HeadingLineMatches(s: string, i: nat)
    requires i <= |s| && AtLineStart(s, i)
    requires IsHeadingLine(s[i..Span(s, i, NotNl)])
    requires Span(s, i, NotNl) < |s| ==> LineHasText(s, Span(s, i, NotNl) + 1)
    ensures var q := Span(s, i, NotNl);
      FormatHeadingsFrom(s, i) == PromoteLine(s[i..q]) + FormatHeadingsFrom(s, q)
  {
    var q := Span(s, i, NotNl);
    var line := s[i..q];
    assert forall m :: i <= m < q ==> s[m] == line[m - i];
    SpanUnique(s, i + 1, NotDotNl, q);
    if q < |s| {
      assert Span(s, q, Ws) == Span(s, q + 1, Ws);
    }
    assert HeadingAt(s, i) && HeadingMatchEnd(s, i) == q;
  }

  /** Any other line: no match, the line is copied. */
  lemma HeadingsPlainLine(s: string, i: nat)
    requires i <= |s| && AtLineStart(s, i)
    requires !IsHeadingLine(s[i..Span(s, i, NotNl)])
    ensures var q := Span(s, i, NotNl);
      FormatHeadingsFrom(s, i) == s[i..q] + FormatHeadingsFrom(s, q)
  {
    var q := Span(s, i, NotNl);
    var line := s[i..q];
    if i < q {
      var d := Span(s, i + 1, NotDotNl);
      assert d >= q ==> forall m :: 0 <= m < |line| ==> line[m] == s[m + i];
      assert !HeadingAt(s, i);
    }
    assert forall m :: i < m < q ==> !AtLineStart(s, m);
    HeadingsCopy(s, i, q);
  }

  /** The scan over one line: what it emits for the line that starts at `i`, before its '\n'. */
  lemma HeadingsOneLine(s: string, i: nat)
    requires i <= |s| && AtLineStart(s, i) && HeadingsFollowedByText(s)
    ensures var q := Span(s, i, NotNl);
      FormatHeadingsFrom(s, i) == PromoteLine(s[i..q]) + FormatHeadingsFrom(s, q)
  {
    if IsHeadingLine(s[i..Span(s, i, NotNl)]) {
      HeadingLineMatches(s, i);
    } else {
      HeadingsPlainLine(s, i);
    }
  }

  /** A '\n' is never part of a match, so the scan copies it. */
  lemma HeadingsNewline(s: string, q: nat)
    requires q < |s| && s[q] == '\n'
    ensures FormatHeadingsFrom(s, q) == "\n" + FormatHeadingsFrom(s, q + 1)
  {
  }

  /** Under the side condition, the scan for services/aiService.js:199 prefixes "## " to every heading line and leaves
      every other line as it is. */
  lemma {:induction false} HeadingsMatchLines(s: string, i: nat)
    requires i <= |s| && AtLineStart(s, i) && HeadingsFollowedByText(s)
    ensures FormatHeadingsFrom(s, i) == MapLinesFrom(PromoteLine, s, i)
    decreases |s| - i
  {
    var q := Span(s, i, NotNl);
    HeadingsOneLine(s, i);
    if q < |s| {
      calc {
        FormatHeadingsFrom(s, i);
        PromoteLine(s[i..q]) + FormatHeadingsFrom(s, q);
        { HeadingsNewline(s, q); }
        PromoteLine(s[i..q]) + ("\n" + FormatHeadingsFrom(s, q + 1));
        { HeadingsMatchLines(s, q + 1); }
        PromoteLine(s[i..q]) + ("\n" + MapLinesFrom(PromoteLine, s, q + 1));
      }
    }
  }


  // ---------------------------------------------------------------------------------------------
  // Line 201: bullets

  predicate IsBulletMarker(c: char) { c == '-' || c == '*' }

  /** A line that starts with '-' or '*' and whitespace gets exactly "- " in place of the marker and all
      the whitespace after it. */
  function BulletLine(line: string): string {
    if |line| >= 2 && IsBulletMarker(line[0]) && IsWs(line[1]) then "- " + line[Span(line, 1, Ws)..] else line
  }

  /** Every marker followed by whitespace, on a line that is not the last, has text after it on its
      own line: `\s+` then stops inside the line. */
  predicate BulletsHaveText(s: string) {
    forall i :: 0 <= i < |s| - 1 && AtLineStart(s, i) && IsBulletMarker(s[i]) && IsWs(s[i + 1]) && Span(s, i, NotNl) < |s|
      ==> LineHasText(s, i + 1)
  }

  /** Where nothing matches, the scan copies. */
  lemma BulletsCopyStep(s: string, j: nat)
    requires j < |s| && !BulletAt(s, j)
    ensures FormatBulletsFrom(s, j) == [s[j]] + FormatBulletsFrom(s, j + 1)
  {
  }

  /** The scan copies a stretch where nothing matches. */
  lemma {:induction false} BulletsCopy(s: string, j: nat, q: nat)
    requires j <= q <= |s|
    requires forall m :: j <= m < q ==> !BulletAt(s, m)
    ensures FormatBulletsFrom(s, j) == s[j..q] + FormatBulletsFrom(s, q)
    decreases q - j
  {
    if j < q {
      calc {
        FormatBulletsFrom(s, j);
        { BulletsCopyStep(s, j); }
        [s[j]] + FormatBulletsFrom(s, j + 1);
        { BulletsCopy(s, j + 1, q); }
        [s[j]] + (s[j + 1..q] + FormatBulletsFrom(s, q));
        { AppendAssoc([s[j]], s[j + 1..q], FormatBulletsFrom(s, q)); }
        ([s[j]] + s[j + 1..q]) + FormatBulletsFrom(s, q);
        { assert s[j..q] == [s[j]] + s[j + 1..q]; }
        s[j..q] + FormatBulletsFrom(s, q);
      }
    }
  }

  /** A bullet line: the marker and the whitespace after it become "- ". */
  lemma BulletLineMatches(s: string, i: nat)
    requires i < |s| && BulletAt(s, i)
    requires Span(s, i, NotNl) < |s| ==> LineHasText(s, i + 1)
    ensures var q := Span(s, i, NotNl);
      FormatBulletsFrom(s, i) == BulletLine(s[i..q]) + FormatBulletsFrom(s, q)
  {
    var q := Span(s, i, NotNl);
    var line := s[i..q];
    var r := Span(s, i + 1, Ws);
    assert s[i + 1] != '\n';
    if q < |s| {
      LineEndIs(s, i + 1, q);
    }
    assert i + 2 <= r <= q;
    SpanOfSlice(s, i, q, i + 1, Ws);
    assert line[0] == s[i] && line[1] == s[i + 1];
    assert line[r - i..] == s[r..q];
    assert BulletLine(line) == "- " + s[r..q];
    assert forall m :: r <= m < q ==> !AtLineStart(s, m);
    calc {
      FormatBulletsFrom(s, i);
      "- " + FormatBulletsFrom(s, r);
      { BulletsCopy(s, r, q); }
      "- " + (s[r..q] + FormatBulletsFrom(s, q));
      { AppendAssoc("- ", s[r..q], FormatBulletsFrom(s, q)); }
      BulletLine(line) + FormatBulletsFrom(s, q);
    }
  }

  lemma BulletsOneLine(s: string, i: nat)
    requires i <= |s| && AtLineStart(s, i) && BulletsHaveText(s)
    ensures var q := Span(s, i, NotNl);
      FormatBulletsFrom(s, i) == BulletLine(s[i..q]) + FormatBulletsFrom(s, q)
  {
    if i < |s| && BulletAt(s, i) {
      BulletLineMatches(s, i);
    } else {
      BulletLineIsPlain(s, i);
      BulletsCopyLine(s, i);
    }
  }

  /** Without a marker and whitespace at its start, BulletLine leaves the line alone. */
  lemma BulletLineIsPlain(s: string, i: nat)
    requires i <= |s| && AtLineStart(s, i) && (i < |s| ==> !BulletAt(s, i))
    ensures var q := Span(s, i, NotNl); BulletLine(s[i..q]) == s[i..q]
  {
    var q := Span(s, i, NotNl);
    var line := s[i..q];
    if |line| >= 2 {
      assert line[0] == s[i] && line[1] == s[i + 1];
    }
  }

  /** A line where the regular expression does not match at its start is copied. */
  lemma BulletsCopyLine(s: string, i: nat)
    requires i <= |s| && AtLineStart(s, i) && (i < |s| ==> !BulletAt(s, i))
    ensures var q := Span(s, i, NotNl);
      FormatBulletsFrom(s, i) == s[i..q] + FormatBulletsFrom(s, q)
  {
    var q := Span(s, i, NotNl);
    assert forall m :: i < m < q ==> !AtLineStart(s, m);
    BulletsCopy(s, i, q);
  }

  /** A '\n' is never part of a match, so the scan copies it. */
  lemma BulletsNewline(s: string, q: nat)
    requires q < |s| && s[q] == '\n'
    ensures FormatBulletsFrom(s, q) == "\n" + FormatBulletsFrom(s, q + 1)
  {
  }

  /** Under the side condition, the scan for services/aiService.js:201 rewrites every line as BulletLine does. */
  lemma {:induction false} BulletsMatchLines(s: string, i: nat)
    requires i <= |s| && AtLineStart(s, i) && BulletsHaveText(s)
    ensures FormatBulletsFrom(s, i) == MapLinesFrom(BulletLine, s, i)
    decreases |s| - i
  {
    var q := Span(s, i, NotNl);
    BulletsOneLine(s, i);
    if q < |s| {
      calc {
        FormatBulletsFrom(s, i);
        BulletLine(s[i..q]) + FormatBulletsFrom(s, q);
        { BulletsNewline(s, q); }
        BulletLine(s[i..q]) + ("\n" + FormatBulletsFrom(s, q + 1));
        { BulletsMatchLines(s, q + 1); }
        BulletLine(s[i..q]) + ("\n" + MapLinesFrom(BulletLine, s, q + 1));
      }
    }
  }


  // ---------------------------------------------------------------------------------------------
  // Line 207: space around headers

  /** One to six '#' followed by whitespace. */
  predicate IsAtxHeadingLine(line: string) {
    var n := Span(line, 0, Hash);
    1 <= n <= 6 && n < |line| && IsWs(line[n])
  }

  function SpaceHeaderLine(line: string): string {
    if IsAtxHeadingLine(line) then "\n" + line + "\n" else line
  }

  /** After the '#' run and the whitespace of a header line there is text on the same line: `\s+` then
      stops inside the line and `.+` takes the rest of it. */
  predicate HeadersHaveText(s: string) {
    forall i :: 0 <= i <= |s| && AtLineStart(s, i) && 1 <= Span(s, i, Hash) - i <= 6 && Span(s, i, Hash) < |s| && IsWs(s[Span(s, i, Hash)])
      ==> LineHasText(s, Span(s, i, Hash))
  }

  /** Where nothing matches, the scan copies. */
  lemma HeadersCopyStep(s: string, j: nat)
    requires j < |s| && !HeaderAt(s, j)
    ensures SpaceHeadersFrom(s, j) == [s[j]] + SpaceHeadersFrom(s, j + 1)
  {
  }

  /** The scan copies a stretch where nothing matches. */
  lemma {:induction false} HeadersCopy(s: string, j: nat, q: nat)
    requires j <= q <= |s|
    requires forall m :: j <= m < q ==> !HeaderAt(s, m)
    ensures SpaceHeadersFrom(s, j) == s[j..q] + SpaceHeadersFrom(s, q)
    decreases q - j
  {
    if j < q {
      calc {
        SpaceHeadersFrom(s, j);
        { HeadersCopyStep(s, j); }
        [s[j]] + SpaceHeadersFrom(s, j + 1);
        { HeadersCopy(s, j + 1, q); }
        [s[j]] + (s[j + 1..q] + SpaceHeadersFrom(s, q));
        { AppendAssoc([s[j]], s[j + 1..q], SpaceHeadersFrom(s, q)); }
        ([s[j]] + s[j + 1..q]) + SpaceHeadersFrom(s, q);
        { assert s[j..q] == [s[j]] + s[j + 1..q]; }
        s[j..q] + SpaceHeadersFrom(s, q);
      }
    }
  }

  /** A header line: the match is the whole line. */
  lemma HeaderLineMatches(s: string, i: nat)
    requires i < |s| && AtLineStart(s, i)
    requires var a := Span(s, i, Hash); 1 <= a - i <= 6 && a < |s| && IsWs(s[a]) && LineHasText(s, a)
    ensures HeaderAt(s, i) && HeaderMatchEnd(s, i) == Span(s, i, NotNl)
  {
    var q := Span(s, i, NotNl);
    var a := Span(s, i, Hash);
    LineEndIs(s, a, q);
    LineEndIs(s, Span(s, a, Ws), q);
  }

  /** A header line with text after its whitespace is wrapped in newlines. */
  lemma HeaderLineSpaced(s: string, i: nat)
    requires i < |s| && AtLineStart(s, i)
    requires var a := Span(s, i, Hash); 1 <= a - i <= 6 && a < |s| && IsWs(s[a]) && LineHasText(s, a)
    ensures var q := Span(s, i, NotNl);
      SpaceHeadersFrom(s, i) == SpaceHeaderLine(s[i..q]) + SpaceHeadersFrom(s, q)
  {
    var q := Span(s, i, NotNl);
    var line := s[i..q];
    var a := Span(s, i, Hash);
    HeaderLineMatches(s, i);
    SpanOfSlice(s, i, q, i, Hash);
    assert line[a - i] == s[a];
    assert IsAtxHeadingLine(line);
    calc {
      SpaceHeadersFrom(s, i);
      "\n" + s[i..q] + "\n" + SpaceHeadersFrom(s, q);
      SpaceHeaderLine(line) + SpaceHeadersFrom(s, q);
    }
  }

  /** A line that does not start with 1 to 6 '#' and whitespace is copied. */
  lemma HeadersPlainLine(s: string, i: nat)
    requires i <= |s| && AtLineStart(s, i)
    requires var a := Span(s, i, Hash); !(1 <= a - i <= 6 && a < |s| && IsWs(s[a]))
    ensures var q := Span(s, i, NotNl);
      SpaceHeadersFrom(s, i) == SpaceHeaderLine(s[i..q]) + SpaceHeadersFrom(s, q)
  {
    HeaderLineIsPlain(s, i);
    HeadersCopyLine(s, i);
  }

  /** Whether a line starts with 1 to 6 '#' and whitespace can be read off the line alone. */
  lemma HeaderLineIsPlain(s: string, i: nat)
    requires i <= |s|
    requires var a := Span(s, i, Hash); !(1 <= a - i <= 6 && a < |s| && IsWs(s[a]))
    ensures !IsAtxHeadingLine(s[i..Span(s, i, NotNl)])
  {
    var q := Span(s, i, NotNl);
    var line := s[i..q];
    var a := Span(s, i, Hash);
    assert a <= q;
    SpanOfSlice(s, i, q, i, Hash);
    assert a < q ==> line[a - i] == s[a];
  }

  /** A line where the regular expression does not match at its start is copied. */
  lemma HeadersCopyLine(s: string, i: nat)
    requires i <= |s| && AtLineStart(s, i) && (i < |s| ==> !HeaderAt(s, i))
    ensures var q := Span(s, i, NotNl);
      SpaceHeadersFrom(s, i) == s[i..q] + SpaceHeadersFrom(s, q)
  {
    var q := Span(s, i, NotNl);
    assert forall m :: i < m < q ==> !AtLineStart(s, m);
    HeadersCopy(s, i, q);
  }

  lemma HeadersOneLine(s: string, i: nat)
    requires i <= |s| && AtLineStart(s, i) && HeadersHaveText(s)
    ensures var q := Span(s, i, NotNl);
      SpaceHeadersFrom(s, i) == SpaceHeaderLine(s[i..q]) + SpaceHeadersFrom(s, q)
  {
    var a := Span(s, i, Hash);
    if i < |s| && 1 <= a - i <= 6 && a < |s| && IsWs(s[a]) {
      HeaderLineSpaced(s, i);
    } else {
      HeadersPlainLine(s, i);
    }
  }

  /** A '\n' is never part of a match, so the scan copies it. */
  lemma HeadersNewline(s: string, q: nat)
    requires q < |s| && s[q] == '\n'
    ensures SpaceHeadersFrom(s, q) == "\n" + SpaceHeadersFrom(s, q + 1)
  {
    assert Span(s, q, Hash) == q;
  }

  /** Under the side condition, the scan for services/aiService.js:207 puts a newline before and after every header line
      and leaves every other line as it is. */
  lemma {:induction false} HeadersMatchLines(s: string, i: nat)
    requires i <= |s| && AtLineStart(s, i) && HeadersHaveText(s)
    ensures SpaceHeadersFrom(s, i) == MapLinesFrom(SpaceHeaderLine, s, i)
    decreases |s| - i
  {
    var q := Span(s, i, NotNl);
    HeadersOneLine(s, i);
    if q < |s| {
      calc {
        SpaceHeadersFrom(s, i);
        SpaceHeaderLine(s[i..q]) + SpaceHeadersFrom(s, q);
        { HeadersNewline(s, q); }
        SpaceHeaderLine(s[i..q]) + ("\n" + SpaceHeadersFrom(s, q + 1));
        { HeadersMatchLines(s, q + 1); }
        SpaceHeaderLine(s[i..q]) + ("\n" + MapLinesFrom(SpaceHeaderLine, s, q + 1));
      }
    }
  }

}
