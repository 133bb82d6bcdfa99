/** Concrete inputs that pin down how the steps of formatMarkdown interact. */
module MarkdownExamples {
  import opened Wrappers
  import opened Text
  import opened Markdown
  import opened MarkdownLines
  import opened MarkdownWords

  /** The greedy capture of services/aiService.js:199 keeps the colon: `:?` never removes it. */
  lemma HeadingKeepsColon()
    ensures FormatHeadings("Goal:") == "## Goal:"
  {
  }

  /** `\s*` before `$` swallows the blank line after a heading. */
  lemma HeadingSwallowsBlankLine(s: string)
    requires s == "Goal\n\nfoo"
    ensures FormatHeadings(s) == "## Goal\nfoo"
  {
    assert Span(s, 1, NotDotNl) == 4 by {
      assert s[1] == 'o' && s[2] == 'a' && s[3] == 'l' && s[4] == '\n';
    }
    assert Span(s, 4, Ws) == 6 by {
      assert s[4] == '\n' && s[5] == '\n' && s[6] == 'f';
    }
    assert HeadingMatchEnd(s, 0) == 5;
    assert FormatHeadingsFrom(s, 0) == "## Goal" + FormatHeadingsFrom(s, 5);
    assert s[6] == 'f' && s[7] == 'o' && s[8] == 'o';
    assert FormatHeadingsFrom(s, 8) == "o";
    assert FormatHeadingsFrom(s, 7) == "oo";
    assert FormatHeadingsFrom(s, 6) == "foo";
  }

  /** A marker without whitespace after it is not a bullet. */
  lemma MarkerWithoutSpaceIsKept()
    ensures FormatBullets("-item") == "-item"
  {
  }

  /** A text made of one word is read as that word. */
  lemma OneWord(s: string, ks: seq<string>)
    requires |s| > 0 && forall m :: 0 <= m < |s| ==> IsWordChar(s[m])
    ensures MapWordsFrom(s, 0, ks) == BoldWord(s, ks)
  {
    SpanUnique(s, 0, Word, |s|);
    assert s[0..|s|] == s;
  }

  /** `\b` fails before a word character: neither a plural ... */
  lemma KeywordPluralIsKept(s: string)
    requires s == "Goals"
    ensures FormatBold(s) == s
  {
    FormatBoldIsMapWords(s);
    OneWord(s, Keywords);
    assert forall k :: 0 <= k < |Keywords| ==> |Keywords[k]| != 5;
  }

  /** ... nor a longer word that starts with a keyword is bolded. */
  lemma KeywordPrefixIsKept(s: string)
    requires s == "Notebook"
    ensures FormatBold(s) == s
  {
    FormatBoldIsMapWords(s);
    OneWord(s, Keywords);
    assert forall k :: 0 <= k < |Keywords| ==> |Keywords[k]| != 8;
  }

  /** The original spelling is kept inside the `**`. */
  lemma UpperNoteIsKeyword(w: string)
    requires w == "NOTE"
    ensures IsOneOf(w, Keywords)
  {
    var k := Keywords[3];
    assert k == "Note";
    assert w[0] == 'N' && w[1] == 'O' && w[2] == 'T' && w[3] == 'E';
    assert AsciiUpper(k[0]) == 'N' && AsciiUpper(k[1]) == 'O' && AsciiUpper(k[2]) == 'T' && AsciiUpper(k[3]) == 'E';
    assert EqualsIgnoreCase(w, k);
  }

  lemma KeywordKeepsSpelling(s: string)
    requires s == "NOTE"
    ensures FormatBold(s) == "**NOTE**"
  {
    FormatBoldIsMapWords(s);
    OneWord(s, Keywords);
    UpperNoteIsKeyword(s);
  }

  /** Bolding is not idempotent: an already bold keyword is wrapped again. */
  lemma BoldTwice(s: string)
    requires s == "**Goal**"
    ensures FormatBold(s) == "****Goal****"
  {
    FormatBoldIsMapWords(s);
    assert s[0] == '*' && s[1] == '*' && s[2] == 'G' && s[6] == '*' && s[7] == '*';
    CharStep(s, 7, Keywords);
    CharStep(s, 6, Keywords);
    assert Span(s, 2, Word) == 6;
    WordStep(s, 2, 6, Keywords);
    assert EqualsIgnoreCase(s[2..6], Keywords[0]);
    assert BoldWord(s[2..6], Keywords) == "**Goal**";
    CharStep(s, 1, Keywords);
    CharStep(s, 0, Keywords);
  }

  /** A stretch without word characters is copied. */
  lemma {:induction false} CopyNonWords(s: string, i: nat, j: nat, ks: seq<string>)
    requires i <= j <= |s|
    requires forall m :: i <= m < j ==> !IsWordChar(s[m])
    ensures MapWordsFrom(s, i, ks) == s[i..j] + MapWordsFrom(s, j, ks)
    decreases j - i
  {
    if i < j {
      CharStep(s, i, ks);
      CopyNonWords(s, i + 1, j, ks);
      assert s[i..j] == [s[i]] + s[i + 1..j];
      AppendAssoc([s[i]], s[i + 1..j], MapWordsFrom(s, j, ks));
    }
  }

  /** A line that none of the steps touches when it follows a heading: it starts with a lower-case
      letter, holds no newline, does not end in whitespace and holds no keyword. */
  predicate PlainLine(t: string) {
    |t| > 0 && 'a' <= t[0] <= 'z' && !IsWs(t[|t| - 1])
    && (forall m :: 0 <= m < |t| ==> t[m] != '\n')
    && MapWordsFrom(t, 0, Keywords) == t
  }

  lemma WeightIsPlain(t: string)
    requires t == "lose weight"
    ensures MapWordsFrom(t, 5, Keywords) == t[5..11]
  {
    assert t[4] == ' ' && t[5] == 'w' && t[10] == 't';
    assert Span(t, 5, Word) == 11;
    WordStep(t, 5, 11, Keywords);
    assert forall k :: 0 <= k < |Keywords| ==> |Keywords[k]| != 6;
  }

  lemma LoseIsPlain(t: string)
    requires t == "lose weight"
    ensures MapWordsFrom(t, 0, Keywords) == t[0..4] + MapWordsFrom(t, 4, Keywords)
  {
    assert t[0] == 'l' && t[3] == 'e' && t[4] == ' ';
    assert Span(t, 0, Word) == 4;
    WordStep(t, 0, 4, Keywords);
    assert AsciiUpper(t[0]) == 'L';
    forall k | 0 <= k < |Keywords| ensures !EqualsIgnoreCase(t[0..4], Keywords[k]) {
      assert |Keywords[k]| == 4 ==> Keywords[k][0] == 'G' || Keywords[k][0] == 'N';
    }
  }

  /** Neither "lose" nor "weight" is a keyword. */
  lemma LoseWeightReadsAsItself(t: string)
    requires t == "lose weight"
    ensures MapWordsFrom(t, 0, Keywords) == t
  {
    assert t[4] == ' ';
    WeightIsPlain(t);
    CharStep(t, 4, Keywords);
    LoseIsPlain(t);
    assert t[0..4] + ([t[4]] + t[5..11]) == t;
  }

  lemma LoseWeightIsPlain(t: string)
    requires t == "lose weight"
    ensures PlainLine(t)
  {
    LoseWeightReadsAsItself(t);
    assert t[0] == 'l' && t[10] == 't';
  }

  lemma GoalLineHeadingMatch(s: string, t: string)
    requires s == "Goal\n" + t && PlainLine(t)
    ensures HeadingAt(s, 0) && Span(s, 1, NotDotNl) == 4 && HeadingMatchEnd(s, 0) == 4
  {
    assert s[0] == 'G' && s[1] == 'o' && s[2] == 'a' && s[3] == 'l' && s[4] == '\n' && s[5] == t[0];
    assert Span(s, 1, NotDotNl) == 4;
    assert Span(s, 4, Ws) == 5;
  }

  lemma GoalLineNoHeading(s: string, t: string)
    requires s == "Goal\n" + t && PlainLine(t)
    ensures forall m :: 4 <= m < |s| ==> !HeadingAt(s, m)
  {
    assert s[3] == 'l' && s[4] == '\n' && s[5] == t[0];
    forall m | 4 <= m < |s| ensures !HeadingAt(s, m) {
      if m > 5 {
        assert s[m - 1] == t[m - 6];
      }
    }
  }

  lemma GoalLineHeadings(s: string, t: string)
    requires s == "Goal\n" + t && PlainLine(t)
    ensures FormatHeadings(s) == "## Goal\n" + t
  {
    GoalLineHeadingMatch(s, t);
    assert FormatHeadingsFrom(s, 0) == "## " + s[0..4] + FormatHeadingsFrom(s, 4);
    GoalLineNoHeading(s, t);
    HeadingsCopy(s, 4, |s|);
    assert s[0..4] == "Goal";
    assert s[4..|s|] == "\n" + t;
  }

  lemma GoalLineBullets(s: string, t: string)
    requires s == "## Goal\n" + t && PlainLine(t)
    ensures FormatBullets(s) == s
  {
    assert s[0] == '#' && s[1] == '#' && s[2] == ' ' && s[3] == 'G';
    assert s[4] == 'o' && s[5] == 'a' && s[6] == 'l' && s[7] == '\n' && s[8] == t[0];
    forall m | 0 <= m < |s| ensures !BulletAt(s, m) {
      if m > 8 {
        assert s[m - 1] == t[m - 9];
      }
    }
    BulletsCopy(s, 0, |s|);
  }

  lemma GoalLineBoldHead(s: string, t: string)
    requires s == "## Goal\n" + t
    ensures MapWordsFrom(s, 0, Keywords) == "## " + MapWordsFrom(s, 3, Keywords)
  {
    assert s[0] == '#' && s[1] == '#' && s[2] == ' ';
    CopyNonWords(s, 0, 3, Keywords);
    assert s[0..3] == "## ";
  }

  lemma GoalLineBoldTail(s: string, t: string)
    requires s == "## Goal\n" + t && PlainLine(t)
    ensures MapWordsFrom(s, 7, Keywords) == "\n" + t
  {
    assert s[7] == '\n';
    CharStep(s, 7, Keywords);
    MapWordsShift("## Goal\n", t, 0, Keywords);
  }

  lemma GoalLineGoalWord(s: string, t: string)
    requires s == "## Goal\n" + t
    ensures MapWordsFrom(s, 3, Keywords) == "**Goal**" + MapWordsFrom(s, 7, Keywords)
  {
    assert s[3] == 'G' && s[4] == 'o' && s[5] == 'a' && s[6] == 'l' && s[7] == '\n';
    assert Span(s, 3, Word) == 7;
    WordStep(s, 3, 7, Keywords);
    assert s[3..7] == "Goal";
    assert EqualsIgnoreCase(s[3..7], Keywords[0]);
  }

  lemma GoalLineBoldWord(s: string, t: string)
    requires s == "## Goal\n" + t && PlainLine(t)
    ensures MapWordsFrom(s, 3, Keywords) == "**Goal**\n" + t
  {
    GoalLineGoalWord(s, t);
    GoalLineBoldTail(s, t);
    AppendAssoc("**Goal**", "\n", t);
  }

  lemma GoalLineBold(s: string, t: string)
    requires s == "## Goal\n" + t && PlainLine(t)
    ensures FormatBold(s) == "## **Goal**\n" + t
  {
    FormatBoldIsMapWords(s);
    GoalLineBoldHead(s, t);
    GoalLineBoldWord(s, t);
    AppendAssoc("## ", "**Goal**\n", t);
  }

  lemma GoalLineHeaderSpans(s: string, t: string)
    requires s == "## **Goal**\n" + t
    ensures Span(s, 0, Hash) == 2 && Span(s, 2, Ws) == 3 && Span(s, 2, NotNl) == 11
  {
    assert s[0] == '#' && s[1] == '#' && s[2] == ' ' && s[3] == '*' && s[11] == '\n';
    assert Span(s, 0, Hash) == 2 by {
      assert Span(s, 2, Hash) == 2;
      assert Span(s, 1, Hash) == 2;
    }
    assert Span(s, 2, Ws) == 3 by {
      assert Span(s, 3, Ws) == 3;
    }
    assert forall m :: 2 <= m < 11 ==> s[m] != '\n';
    LineEndIs(s, 2, 11);
  }

  lemma GoalLineSpacingHead(s: string, t: string)
    requires s == "## **Goal**\n" + t
    ensures SpaceHeadersFrom(s, 0) == "\n" + s[0..11] + "\n" + SpaceHeadersFrom(s, 11)
  {
    GoalLineHeaderSpans(s, t);
    assert forall m :: 0 <= m < 11 ==> s[m] != '\n';
    LineEndIs(s, 0, 11);
    HeaderLineMatches(s, 0);
  }

  lemma GoalLineSpacingRest(s: string, t: string)
    requires s == "## **Goal**\n" + t && PlainLine(t)
    ensures SpaceHeadersFrom(s, 11) == "\n" + t
  {
    assert s[11] == '\n' && s[12] == t[0];
    forall m | 11 <= m < |s| ensures !HeaderAt(s, m) {
      if m > 12 {
        assert s[m - 1] == t[m - 13];
      } else if m == 12 {
        assert Span(s, 12, Hash) == 12;
      }
    }
    HeadersCopy(s, 11, |s|);
    assert s[11..|s|] == "\n" + t;
  }

  lemma GoalLineSpacing(s: string, t: string)
    requires s == "## **Goal**\n" + t && PlainLine(t)
    ensures SpaceHeaders(s) == "\n## **Goal**\n\n" + t
  {
    GoalLineSpacingHead(s, t);
    assert "\n" + s[0..11] + "\n" == "\n## **Goal**\n" by {
      assert s[0..11] == "## **Goal**";
    }
    GoalLineSpacingRest(s, t);
    AppendAssoc("\n## **Goal**\n", "\n", t);
  }

  lemma GoalLineCollapse(s: string, t: string)
    requires s == "\n## **Goal**\n\n" + t && PlainLine(t)
    ensures CollapseNewlines(s) == s
  {
    assert NoTripleNewline(s) by {
      forall m | 0 <= m < |s| ensures !TripleNewlineAt(s, m) {
        if m >= 14 {
          assert s[m] == t[m - 14];
        } else if m >= 12 {
          assert s[14] == t[0];
        } else {
          assert s[1] != '\n' && s[2] != '\n' && s[3] != '\n' && s[4] != '\n' && s[5] != '\n' && s[6] != '\n';
          assert s[7] != '\n' && s[8] != '\n' && s[9] != '\n' && s[10] != '\n' && s[11] != '\n';
        }
      }
    }
    CollapseKeepsShortRuns(s, 0);
  }

  /** Trimming a text that starts with a single newline and ends in text drops that newline. */
  lemma TrimLeadingNewline(s: string)
    requires 2 <= |s| && s[0] == '\n' && !IsWs(s[1]) && !IsWs(s[|s| - 1])
    ensures Trim(s) == s[1..]
  {
    SpanUnique(s, 0, Ws, 1);
  }

  lemma GoalLineTrim(s: string, t: string)
    requires s == "\n## **Goal**\n\n" + t && PlainLine(t)
    ensures Trim(s) == "## **Goal**\n\n" + t
  {
    var u := "## **Goal**\n\n" + t;
    assert s == "\n" + u by {
      AppendAssoc("\n", "## **Goal**\n\n", t);
    }
    assert s[1..] == u;
    assert s[0] == '\n' && s[1] == '#' && s[|s| - 1] == t[|t| - 1];
    TrimLeadingNewline(s);
  }

  /** A first line "Goal" is promoted, then bolded, then spaced from any plain second line. */
  lemma GoalLineThenPlain(t: string)
    requires PlainLine(t)
    ensures FormatMarkdown(Some("Goal\n" + t)) == "## **Goal**\n\n" + t
  {
    GoalLineHeadings("Goal\n" + t, t);
    GoalLineBullets("## Goal\n" + t, t);
    GoalLineBold("## Goal\n" + t, t);
    GoalLineSpacing("## **Goal**\n" + t, t);
    GoalLineCollapse("\n## **Goal**\n\n" + t, t);
    GoalLineTrim("\n## **Goal**\n\n" + t, t);
  }

  lemma GoalLine(t: string)
    requires t == "lose weight"
    ensures FormatMarkdown(Some("Goal\n" + t)) == "## **Goal**\n\n" + t
  {
    LoseWeightIsPlain(t);
    GoalLineThenPlain(t);
  }
}
