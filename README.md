# Plan formatting and plan store

A model of two parts of a goal-planning web app:

- `formatMarkdown` turns the plan text returned by the planning service into Markdown. It is a chain of
  seven global regular-expression replacements and a final `trim()`.
- The plan store holds the user's goal text, the generated plan, a "generating" flag and a phone number.
  It has two derived queries (`hasGeneratedPlan`, `isValidPhoneNumber`) and the actions that update it,
  including `generatePlan`, which validates the input, calls the planning service and records the result.

Files:

- `wrappers.dfy` (module `Wrappers`): `Option`, `Result` and `Outcome`.
- `text.dfy` (module `Text`): the character classes of JavaScript regular expressions (`\s`, `\d`, `\w`,
  `[^.\n]`, …), the length of a run of one class (`Span`, `SpanBack`) and `String.prototype.trim`.
- `markdown.dfy` (module `Markdown`): every replacement of `formatMarkdown` as a left-to-right scan that
  follows the backtracking search of the regular expression on the whole string, so `^`, `$` and `\b` see
  the characters around a match; then the whole function and its guarantees.
- `markdown_lines.dfy` (module `MarkdownLines`): line-by-line reference definitions of the anchored
  replacements (lines 199, 201 and 207) and proofs that the scans compute them, under a side condition
  that keeps a match from running past the end of its line.
- `markdown_words.dfy` (module `MarkdownWords`): a word-by-word reference definition of the keyword bolding
  and a proof that the scan computes it for every input.
- `markdown_examples.dfy` (module `MarkdownExamples`): concrete inputs that pin down the edge cases.
- `planstore.dfy` (module `PlanStore`): the two queries as functions, the store as a class whose methods
  assign its four fields, and examples.

`formatMarkdown`'s argument is an `Option<string>`: `None` stands for `null`, `undefined` and every
value that is not a string. The planning service is not part of this model. `generatePlan` is modelled
twice. First, split at its `await`: `BeginGenerate` validates and raises the flag, and `FinishGenerate`
takes the service's outcome. Second, as one method `GeneratePlan` that takes the service as a function.

## Model

| member | source | states |
|---|---|---|
| Markdown.FormatMarkdown | services/aiService.js:189-213 | a missing, non-string or empty argument gives ""; a non-empty result neither starts nor ends with whitespace; the result never holds three newlines in a row |
| Markdown.EnsureLineBreaksFrom | services/aiService.js:197 | replacing "\n\n" by "\n\n" leaves the text exactly as it was |
| Markdown.FormatNumberedFrom | services/aiService.js:203 | the numbered-list replacement returns each match unchanged, so the text is unchanged, "1. " markers included |
| Markdown.LastLineEndIn | services/aiService.js:199 | `\s*` gives back characters to the last position inside the whitespace run where `$` holds, and `$` holds nowhere after it |
| Markdown.HeadingMatchEnd | services/aiService.js:199 | a heading match ends at a line end (`$`), no earlier than the end of the captured text and no later than the end of the whitespace run after it, and at the last line end in that run (so `\s*` swallows blank lines) |
| Markdown.HeadingAt | services/aiService.js:199 | where the regular expression matches; it has no contract of its own, and MarkdownLines.HeadingAtIff states what it means |
| MarkdownLines.HeadingAtIff | services/aiService.js:199 | the regular expression matches at a position exactly when it starts a line, that line begins with an ASCII capital, and the rest of the line holds no '.' |
| Markdown.FormatHeadingsFrom | services/aiService.js:199 | the scan for line 199; it has no contract of its own, and MarkdownLines.HeadingsCopy and MarkdownLines.HeadingsMatchLines state what it computes |
| MarkdownLines.HeadingsCopy | services/aiService.js:199 | where no match starts, the scan copies the text unchanged |
| MarkdownLines.HeadingLineMatches | services/aiService.js:199 | a line that starts with an ASCII capital and holds no '.' becomes "## " + the line, colon kept, when the next line has text |
| MarkdownLines.HeadingsPlainLine | services/aiService.js:199 | any other line is copied unchanged |
| MarkdownLines.HeadingsMatchLines | services/aiService.js:199 | when no heading line is followed by a blank line, the step is PromoteLine applied to every line |
| Markdown.BulletAt | services/aiService.js:201 | where the regular expression matches: at a line start, a '-' or '*' followed by a whitespace character, which may be '\n'; it has no contract of its own, and MarkdownLines.BulletLineMatches and MarkdownLines.BulletsCopy state what a match and its absence do |
| Markdown.FormatBulletsFrom | services/aiService.js:201 | the text never grows, since each match (a marker and at least one whitespace character) becomes "- " |
| MarkdownLines.BulletsCopy | services/aiService.js:201 | where no match starts, the scan copies the text unchanged |
| MarkdownLines.BulletLineMatches | services/aiService.js:201 | a line with '-' or '*' and whitespace at its start gets exactly "- " in place of the marker and the whitespace, when text follows on that line |
| MarkdownLines.BulletsOneLine | services/aiService.js:201 | when every marker with whitespace has text after it on its line (BulletsHaveText), every line, marker or not, is rewritten as BulletLine says, and a line without whitespace after the marker is kept |
| MarkdownLines.BulletsMatchLines | services/aiService.js:201 | when every marker with whitespace has text after it, the step is BulletLine applied to every line |
| Markdown.KeywordMatch | services/aiService.js:205 | the alternation's match stays inside the text |
| Markdown.KeywordMatchFinds | services/aiService.js:205 | the alternation matches exactly when one of its alternatives fits, and then it has that alternative's length |
| Markdown.BoldMatchLength | services/aiService.js:205 | a keyword match at a position stays inside the text |
| Markdown.FormatBoldFrom | services/aiService.js:205 | the text never shrinks, since every match is kept and wrapped in "\*\*" |
| MarkdownWords.KeywordsAreLetterWords | services/aiService.js:205 | the five keywords are non-empty words of letters |
| MarkdownWords.KeywordFitsWholeWord | services/aiService.js:205 | with the closing `\b`, an alternative fits at a word start exactly when it is the whole word up to ASCII case |
| MarkdownWords.KeywordMatchAtWord | services/aiService.js:205 | at a word start the alternation matches exactly when the word is one of the alternatives up to case, and then takes the whole word |
| MarkdownWords.BoldMatchAtWordStart | services/aiService.js:205 | at a word start the whole regular expression matches exactly when the word is a keyword up to case |
| MarkdownWords.NoKeywordAtNonWord | services/aiService.js:205 | nothing matches at a character that is not a word character |
| MarkdownWords.BoldMatchesWords | services/aiService.js:205 | the scan wraps in "**" exactly the whole words that are keywords up to ASCII case, in their original spelling, and copies everything else |
| MarkdownWords.FormatBoldIsMapWords | services/aiService.js:205 | the bold step equals the word-by-word reading for every input |
| MarkdownWords.MapWordsShift | services/aiService.js:205 | the word-by-word reading of a text is the same when other text is put in front of it |
| Markdown.HeaderAt | services/aiService.js:207 | where the regular expression matches; it has no contract of its own, and MarkdownLines.HeaderLineMatches, MarkdownLines.HeadersPlainLine and MarkdownLines.HeadersCopy state what a match and its absence do |
| Markdown.HeaderMatchEnd | services/aiService.js:207 | the match ends after the '#' run, inside the text, at a position where `$` holds |
| Markdown.SpaceHeadersFrom | services/aiService.js:207 | the text never shrinks, since every match is kept between two added newlines |
| MarkdownLines.HeadersCopy | services/aiService.js:207 | where no match starts, the scan copies the text unchanged |
| MarkdownLines.HeaderLineSpaced | services/aiService.js:207 | a line of 1 to 6 '#', whitespace and text becomes "\n" + the line + "\n" |
| MarkdownLines.HeadersPlainLine | services/aiService.js:207 | a line without 1 to 6 '#' and whitespace at its start is copied |
| MarkdownLines.HeadersMatchLines | services/aiService.js:207 | when every header line has text after its '#' run, the step is SpaceHeaderLine applied to every line |
| Markdown.CollapseNewlinesFrom | services/aiService.js:209 | the text never grows, since a run of three or more newlines becomes two |
| Markdown.CollapseRun | services/aiService.js:209 | a maximal run of three or more newlines becomes exactly "\n\n", and a shorter run is kept |
| Markdown.CollapseLeavesNoTriple | services/aiService.js:209 | after the step no three newlines follow each other |
| Markdown.CollapseKeepsText | services/aiService.js:209 | the step keeps every character that is not a newline, in order |
| Markdown.CollapseKeepsShortRuns | services/aiService.js:209 | text without three newlines in a row passes unchanged |
| Markdown.TrimKeepsNoTriple | services/aiService.js:210 | trimming cannot create three newlines in a row |
| Markdown.Replacements | services/aiService.js:195-209 | the seven replacements, applied in source order, end without three newlines in a row |
| Text.Trim | services/aiService.js:210 | the result is empty exactly when the text is all whitespace, and otherwise neither starts nor ends with whitespace |
| Text.TrimIsInfix | services/aiService.js:210 | the trimmed text is a contiguous piece of the original |
| MarkdownExamples.HeadingKeepsColon | services/aiService.js:199 | "Goal:" becomes "## Goal:" |
| MarkdownExamples.HeadingSwallowsBlankLine | services/aiService.js:199 | "Goal\n\nfoo" becomes "## Goal\nfoo": `\s*` takes the blank line |
| MarkdownExamples.MarkerWithoutSpaceIsKept | services/aiService.js:201 | "-item" is unchanged |
| MarkdownExamples.KeywordPluralIsKept | services/aiService.js:205 | "Goals" is unchanged |
| MarkdownExamples.KeywordPrefixIsKept | services/aiService.js:205 | "Notebook" is unchanged |
| MarkdownExamples.KeywordKeepsSpelling | services/aiService.js:205 | "NOTE" becomes "\*\*NOTE\*\*" |
| MarkdownExamples.BoldTwice | services/aiService.js:205 | "\*\*Goal\*\*" becomes "\*\*\*\*Goal\*\*\*\*", so bolding is not idempotent |
| MarkdownExamples.LoseWeightIsPlain | services/aiService.js:205 | "lose weight" starts with a lower-case letter, has no newline, does not end in whitespace and holds no keyword |
| MarkdownExamples.GoalLineThenPlain | services/aiService.js:195-210 | for every such plain second line t, "Goal\n" + t becomes "## \*\*Goal\*\*\n\n" + t: promoted, then bolded, then spaced, with t unchanged |
| MarkdownExamples.GoalLine | services/aiService.js:195-210 | "Goal\nlose weight" becomes "## \*\*Goal\*\*\n\nlose weight" |
| PlanStore.HasGeneratedPlan | stores/planStore.js:13-15 | true exactly when the plan holds a character that is not whitespace |
| PlanStore.StripSeparators | stores/planStore.js:21 | the result holds no whitespace, '-', '(' or ')' and is no longer than the input |
| PlanStore.StripSeparatorsCounts | stores/planStore.js:21 | every other character is kept as often as it occurs |
| PlanStore.StripSeparatorsAppend | stores/planStore.js:21 | stripping works piece by piece, so the kept characters keep their order |
| PlanStore.StripSeparatorsIdempotent | stores/planStore.js:21 | stripping twice is stripping once |
| PlanStore.MatchesPhonePattern | stores/planStore.js:20 | `phoneRegex.test`: an optional '+', a digit 1-9, then at most fifteen digits to the end; it has no contract of its own, and PlanStore.ValidPhoneIffShape and PlanStore.PhoneShapeBounds state what it admits together with the length test |
| PlanStore.IsValidPhoneNumber | stores/planStore.js:17-23 | an empty number is never valid |
| PlanStore.ValidPhoneIffShape | stores/planStore.js:17-23 | a number is valid exactly when its stripped form is an optional '+', a digit 1-9 and further digits, 10 characters or more, at most 16 digits |
| PlanStore.PhoneShapeBounds | stores/planStore.js:20-22 | a valid stripped number has 10 to 17 characters, all digits but an optional leading '+' |
| PlanStore.SeparatorIgnored | stores/planStore.js:21-22 | inserting a separator anywhere does not change the verdict |
| PlanStore.PhoneWithDashesIsValid | stores/planStore.js:17-23 | "555-123-4567" is valid |
| PlanStore.InternationalPhoneIsValid | stores/planStore.js:17-23 | "+14155552671" is valid |
| PlanStore.ShortPhoneIsInvalid | stores/planStore.js:22 | "123" is too short |
| PlanStore.EmptyPhoneIsInvalid | stores/planStore.js:18 | "" is invalid |
| PlanStore.LettersAreInvalid | stores/planStore.js:20 | "abc" is invalid |
| PlanStore.LeadingZeroIsInvalid | stores/planStore.js:20 | a number whose first digit is 0 is invalid |
| PlanStore.PlanExamples | stores/planStore.js:13-15 | "" and whitespace are no plan; " plan " is one |
| PlanStore.Message | stores/planStore.js:42-54 | each error the action throws carries its fixed, non-empty message |
| PlanStore.OrEmpty | stores/planStore.js:28 | `x \|\| ''` on a string argument is empty exactly when the argument is falsy (missing or ""), and is otherwise the argument itself (also used at lines 32 and 50) |
| PlanStore.PlanAfter | stores/planStore.js:50-53 | a plan is stored exactly when the call resolved with a non-empty one, and it is that plan; a rejected call leaves none |
| PlanStore.PlanStore.Valid | stores/planStore.js:40-57 | while the flag is up no plan is stored; the constructor establishes it, every method keeps it, and it holds at the awaited call (after BeginGenerate succeeds) and at every exit of generatePlan |
| PlanStore.PlanStore.constructor | stores/planStore.js:5-10 | all four fields start empty or false |
| PlanStore.PlanStore.SetUserInput | stores/planStore.js:27-29 | stores the input, or "" for a falsy one, and changes no other field |
| PlanStore.PlanStore.SetPhoneNumber | stores/planStore.js:31-33 | stores the number, or "" for a falsy one, and changes no other field |
| PlanStore.PlanStore.ClearPlan | stores/planStore.js:35-38 | clears the plan and the flag and keeps the input and the number |
| PlanStore.PlanStore.BeginGenerate | stores/planStore.js:40-49 | blank input fails with the input-required error and changes nothing; otherwise the flag is raised, the plan cleared and the trimmed input returned for the service |
| PlanStore.PlanStore.FinishGenerate | stores/planStore.js:48-57 | success stores the plan or ""; failure stores "" and reports the generic error; the flag is down on both paths |
| PlanStore.PlanStore.GeneratePlan | stores/planStore.js:40-58 | the whole action: blank input changes nothing; otherwise the service receives the trimmed input, the outcome decides plan and error, the flag ends down, and input and number never change |

## Left out

- The exported service `generatePlan` and `executeDreamUnderstandingAgent` (services/aiService.js:11-42) wrap a remote agent call that is not part of this model, with a delay, logging and a module-level result variable; the store's call to the service is a parameter instead.
- The commented-out mock plans and keyword classifier (services/aiService.js:44-180) are dead code.
- The store's framework plumbing (stores/planStore.js:1-4) and reactivity are not modelled.
- Logging (`console.error`, stores/planStore.js:52) is left out: it changes no state.
- Concurrency: another action can run while `generatePlan` awaits the service. `BeginGenerate` and `FinishGenerate` model the two halves, but overlapping calls, cancellation and timeouts are not modelled.
- Strings are sequences of Unicode scalar values (Dafny's `char`). A character outside the Basic Multilingual Plane is one `char` here and two UTF-16 code units in JavaScript, and a lone surrogate cannot be represented. None of the modelled regular expressions or length tests depends on this: their character classes treat both code units of such a character alike, `trim().length` is only compared with 0, and `cleanPhone.length` only matters for strings of digits and '+'.
- `\r`, `\u2028` and `\u2029` are not treated as line terminators for `^`, `$` and `.`, only `\n` is.
- `Text.IsWs` is the set of characters JavaScript's `\s` and `trim()` treat as whitespace; Unicode categories beyond that list are not modelled.
- Values that are neither a string nor falsy are outside the model of the store: `ServiceOutcome` resolves with `Option<string>`, and `SetUserInput` and `SetPhoneNumber` take `Option<string>`. In the source, `plan || ''` (stores/planStore.js:50) and `input || ''` (stores/planStore.js:28) keep such a value as it is. The service can resolve with one: its result starts as `[]` (services/aiService.js:10) and is returned unchanged when the agent fails (services/aiService.js:42). The store then holds `[]`, and `hasGeneratedPlan` throws a TypeError at `.trim()` (stores/planStore.js:14). Likewise `setUserInput(5)` followed by `generatePlan` throws a TypeError at stores/planStore.js:41, not the input-required error.
- An argument of `formatMarkdown` that is not a string (a number, an array) is folded into `None`; the code returns "" for it as for `null`.
- PlanStore.HasGeneratedPlan: returns a boolean, where the getter returns the empty plan itself (a falsy "") when there is none.
- MarkdownLines.HeadingsMatchLines: holds only when no heading line is followed by a blank line, since `\s*` then swallows that blank line; the general case is the scan itself, and `HeadingSwallowsBlankLine` shows the difference.
- MarkdownLines.BulletsMatchLines: holds only when every marker with whitespace has text after it on its line, since `\s+` otherwise runs into the next line.
- MarkdownLines.HeadersMatchLines: holds only when every header line has text after its whitespace, for the same reason.
- `formatMarkdown` is not idempotent and the model does not claim it: `BoldTwice` shows a keyword wrapped twice, and the header spacing adds newlines again on every pass.
