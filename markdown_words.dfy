/** A reference definition of the bold step of formatMarkdown that does not mention regular expressions:
    the text is read as a sequence of words (maximal runs of `\w` characters) and single other
    characters, and a word is wrapped in `**` exactly when it is one of the keywords up to ASCII case.
    `BoldMatchesWords` proves that the scan of `Markdown.FormatBoldFrom` computes it, for every input
    and every list of alternatives made of letters. */
module MarkdownWords {
  import opened Text
  import opened Markdown

  /** The word is one of `ks`, ignoring ASCII case. */
  predicate IsOneOf(w: string, ks: seq<string>) {
    exists k :: 0 <= k < |ks| && EqualsIgnoreCase(w, ks[k])
  }

  function BoldWord(w: string, ks: seq<string>): string {
    if IsOneOf(w, ks) then Embolden(w) else w
  }

  /** The word-by-word reading of `s[i..]`. */
  function MapWordsFrom(s: string, i: nat, ks: seq<string>): string
    requires i <= |s|
    decreases |s| - i
  {
    if i == |s| then []
    else if IsWordChar(s[i]) then
      var e := Span(s, i, Word);
      BoldWord(s[i..e], ks) + MapWordsFrom(s, e, ks)
    else [s[i]] + MapWordsFrom(s, i + 1, ks)
  }

  function MapWords(s: string): string { MapWordsFrom(s, 0, Keywords) }

  /** One word of the word-by-word reading. */
  lemma WordStep(s: string, i: nat, e: nat, ks: seq<string>)
    requires i < e <= |s| && IsWordChar(s[i]) && Span(s, i, Word) == e
    ensures MapWordsFrom(s, i, ks) == BoldWord(s[i..e], ks) + MapWordsFrom(s, e, ks)
  {
  }

  /** One word of the word-by-word reading, given as `w`. */
  lemma WordStepAs(s: string, i: nat, e: nat, w: string, ks: seq<string>)
    requires i < e <= |s| && IsWordChar(s[i]) && Span(s, i, Word) == e && s[i..e] == w
    ensures MapWordsFrom(s, i, ks) == BoldWord(w, ks) + MapWordsFrom(s, e, ks)
  {
    WordStep(s, i, e, ks);
  }

  /** One character that is not a word character. */
  lemma CharStep(s: string, i: nat, ks: seq<string>)
    requires i < |s| && !IsWordChar(s[i])
    ensures MapWordsFrom(s, i, ks) == [s[i]] + MapWordsFrom(s, i + 1, ks)
  {
  }

  /** A word of `t` read inside `p + t` is the same word. */
  lemma ShiftWord(p: string, t: string, i: nat, e: nat, ks: seq<string>)
    requires i < e <= |t| && IsWordChar(t[i]) && Span(t, i, Word) == e
    requires MapWordsFrom(p + t, |p| + e, ks) == MapWordsFrom(t, e, ks)
    ensures MapWordsFrom(p + t, |p| + i, ks) == MapWordsFrom(t, i, ks)
  {
    ShiftWordStep(p, t, i, e, ks);
    WordStep(t, i, e, ks);
  }

  lemma ShiftWordStep(p: string, t: string, i: nat, e: nat, ks: seq<string>)
    requires i < e <= |t| && IsWordChar(t[i]) && Span(t, i, Word) == e
    ensures MapWordsFrom(p + t, |p| + i, ks) == BoldWord(t[i..e], ks) + MapWordsFrom(p + t, |p| + e, ks)
  {
    var s := p + t;
    assert s[|p| + i] == t[i];
    SpanShift(p, t, i, Word);
    SliceShift(p, t, i, e);
    WordStepAs(s, |p| + i, |p| + e, t[i..e], ks);
  }

  /** A character of `t` read inside `p + t` is the same character. */
  lemma ShiftChar(p: string, t: string, i: nat, ks: seq<string>)
    requires i < |t| && !IsWordChar(t[i])
    requires MapWordsFrom(p + t, |p| + i + 1, ks) == MapWordsFrom(t, i + 1, ks)
    ensures MapWordsFrom(p + t, |p| + i, ks) == MapWordsFrom(t, i, ks)
  {
    var s := p + t;
    assert s[|p| + i] == t[i];
    CharStep(s, |p| + i, ks);
    CharStep(t, i, ks);
  }

  /** The reading of `s[i..]` depends on `s[i..]` alone: text put in front of `t` does not change it. */
  lemma {:induction false} MapWordsShift(p: string, t: string, i: nat, ks: seq<string>)
    requires i <= |t|
    ensures MapWordsFrom(p + t, |p| + i, ks) == MapWordsFrom(t, i, ks)
    decreases |t| - i
  {
    if i < |t| {
      if IsWordChar(t[i]) {
        var e := Span(t, i, Word);
        MapWordsShift(p, t, e, ks);
        ShiftWord(p, t, i, e, ks);
      } else {
        MapWordsShift(p, t, i + 1, ks);
        ShiftChar(p, t, i, ks);
      }
    }
  }

  /** Position `i` lies strictly between two word characters. */
  predicate InsideWord(s: string, i: nat)
    requires i <= |s|
  {
    0 < i < |s| && IsWordChar(s[i - 1]) && IsWordChar(s[i])
  }

  /** A non-empty word of letters. */
  predicate IsLetterWord(w: string) {
    |w| > 0 && forall m :: 0 <= m < |w| ==> IsAsciiUpper(AsciiUpper(w[m]))
  }

  predicate AllLetterWords(ks: seq<string>) {
    forall m :: 0 <= m < |ks| ==> IsLetterWord(ks[m])
  }

  /** Every keyword of services/aiService.js:205 is a non-empty word of letters. */
  lemma KeywordsAreLetterWords()
    ensures AllLetterWords(Keywords)
  {
  }

  /** Text equal to a word of letters up to case consists of word characters. */
  lemma LikeLetterWordIsWord(s: string, i: nat, w: string)
    requires IsLetterWord(w) && i + |w| <= |s|
    requires EqualsIgnoreCase(s[i..i + |w|], w)
    ensures forall m :: i <= m < i + |w| ==> IsWordChar(s[m])
  {
    forall m | i <= m < i + |w| ensures IsWordChar(s[m]) {
      assert s[i..i + |w|][m - i] == s[m];
      assert IsAsciiUpper(AsciiUpper(w[m - i]));
    }
  }

  /** An alternative fits at `i` exactly when the word that starts at `i` is that alternative up to case. */
  lemma KeywordFitsWholeWord(s: string, i: nat, w: string)
    requires i < |s| && IsWordChar(s[i]) && IsLetterWord(w)
    ensures var e := Span(s, i, Word);
      KeywordFits(s, i, w) <==> EqualsIgnoreCase(s[i..e], w)
  {
    var e := Span(s, i, Word);
    if KeywordFits(s, i, w) {
      LikeLetterWordIsWord(s, i, w);
      assert IsWordChar(s[i + |w| - 1]);
      assert i + |w| == e;
    }
    if EqualsIgnoreCase(s[i..e], w) {
      assert |w| == e - i;
      assert IsWordChar(s[e - 1]);
    }
  }

  /** The alternatives, tried in order, fit at a word start exactly when the word is one of them up to
      case, and they then take the whole word. */
  lemma {:induction false} KeywordMatchAtWord(s: string, i: nat, ks: seq<string>)
    requires i < |s| && IsWordChar(s[i]) && AllLetterWords(ks)
    ensures var e := Span(s, i, Word);
      var n := KeywordMatch(s, i, ks);
      (n > 0 <==> IsOneOf(s[i..e], ks)) && (n > 0 ==> n == e - i)
    decreases |ks|
  {
    var e := Span(s, i, Word);
    if ks != [] {
      assert forall m :: 0 <= m < |ks[1..]| ==> ks[1..][m] == ks[m + 1];
      KeywordFitsWholeWord(s, i, ks[0]);
      KeywordMatchAtWord(s, i, ks[1..]);
      if KeywordFits(s, i, ks[0]) {
        assert |s[i..e]| == |ks[0]|;
      } else if KeywordMatch(s, i, ks) > 0 {
        var m :| 0 <= m < |ks[1..]| && EqualsIgnoreCase(s[i..e], ks[1..][m]);
        assert EqualsIgnoreCase(s[i..e], ks[m + 1]);
      }
    }
  }

  /** At a word start the regular expression matches exactly when the word is one of the alternatives,
      and the match is the whole word. */
  lemma BoldMatchAtWordStart(s: string, i: nat, ks: seq<string>)
    requires i < |s| && IsWordChar(s[i]) && !InsideWord(s, i) && AllLetterWords(ks)
    ensures var e := Span(s, i, Word);
      var n := BoldMatchLength(s, i, ks);
      (n > 0 <==> IsOneOf(s[i..e], ks)) && (n > 0 ==> n == e - i)
  {
    assert AtWordBoundary(s, i);
    KeywordMatchAtWord(s, i, ks);
  }

  /** No alternative fits on a character that is not a word character. */
  lemma NoKeywordAtNonWord(s: string, i: nat, ks: seq<string>)
    requires i < |s| && !IsWordChar(s[i]) && AllLetterWords(ks)
    ensures BoldMatchLength(s, i, ks) == 0
  {
    KeywordMatchFinds(s, i, ks);
    forall k | 0 <= k < |ks| ensures !KeywordFits(s, i, ks[k]) {
      if KeywordFits(s, i, ks[k]) {
        LikeLetterWordIsWord(s, i, ks[k]);
      }
    }
  }

  /** One step of the bold scan where the regular expression matches; the match ends at `e`. */
  lemma BoldStep(s: string, i: nat, e: nat, ks: seq<string>)
    requires i < e <= |s| && BoldMatchLength(s, i, ks) == e - i
    ensures FormatBoldFrom(s, i, ks) == Embolden(s[i..e]) + FormatBoldFrom(s, e, ks)
  {
  }

  /** One step of the bold scan where the regular expression does not match. */
  lemma BoldCopyStep(s: string, i: nat, ks: seq<string>)
    requires i < |s| && BoldMatchLength(s, i, ks) == 0
    ensures FormatBoldFrom(s, i, ks) == [s[i]] + FormatBoldFrom(s, i + 1, ks)
  {
  }

  /** Inside a word there is no `\b`, so the scan copies the rest of the word. */
  lemma {:induction false} BoldCopyWordRest(s: string, j: nat, e: nat, ks: seq<string>)
    requires 0 < j <= e <= |s|
    requires forall m :: j - 1 <= m < e ==> IsWordChar(s[m])
    ensures FormatBoldFrom(s, j, ks) == s[j..e] + FormatBoldFrom(s, e, ks)
    decreases e - j
  {
    if j < e {
      assert !AtWordBoundary(s, j);
      BoldCopyStep(s, j, ks);
      BoldCopyWordRest(s, j + 1, e, ks);
      assert s[j..e] == [s[j]] + s[j + 1..e];
      AppendAssoc([s[j]], s[j + 1..e], FormatBoldFrom(s, e, ks));
    }
  }

  /** A word that is not one of the alternatives is copied. */
  lemma BoldPlainWord(s: string, i: nat, ks: seq<string>)
    requires i < |s| && IsWordChar(s[i]) && BoldMatchLength(s, i, ks) == 0
    ensures var e := Span(s, i, Word);
      FormatBoldFrom(s, i, ks) == s[i..e] + FormatBoldFrom(s, e, ks)
  {
    var e := Span(s, i, Word);
    calc {
      FormatBoldFrom(s, i, ks);
      { BoldCopyStep(s, i, ks); }
      [s[i]] + FormatBoldFrom(s, i + 1, ks);
      { BoldCopyWordRest(s, i + 1, e, ks); }
      [s[i]] + (s[i + 1..e] + FormatBoldFrom(s, e, ks));
      { AppendAssoc([s[i]], s[i + 1..e], FormatBoldFrom(s, e, ks)); }
      ([s[i]] + s[i + 1..e]) + FormatBoldFrom(s, e, ks);
      { assert s[i..e] == [s[i]] + s[i + 1..e]; }
      s[i..e] + FormatBoldFrom(s, e, ks);
    }
  }

  /** The bold scan, started anywhere but strictly inside a word, is the word-by-word reading. */
  lemma {:induction false} BoldMatchesWords(s: string, i: nat, ks: seq<string>)
    requires i <= |s| && !InsideWord(s, i) && AllLetterWords(ks)
    ensures FormatBoldFrom(s, i, ks) == MapWordsFrom(s, i, ks)
    decreases |s| - i
  {
    if i < |s| {
      if IsWordChar(s[i]) {
        var e := Span(s, i, Word);
        BoldMatchAtWordStart(s, i, ks);
        if IsOneOf(s[i..e], ks) {
          BoldStep(s, i, e, ks);
        } else {
          BoldPlainWord(s, i, ks);
        }
        BoldMatchesWords(s, e, ks);
      } else {
        NoKeywordAtNonWord(s, i, ks);
        BoldCopyStep(s, i, ks);
        BoldMatchesWords(s, i + 1, ks);
      }
    }
  }

  /** The bold step of formatMarkdown wraps exactly the whole words that are keywords. */
  lemma FormatBoldIsMapWords(s: string)
    ensures FormatBold(s) == MapWords(s)
  {
    KeywordsAreLetterWords();
    BoldMatchesWords(s, 0, Keywords);
  }
}
