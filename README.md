# Study app content rendering, question screen and onboarding guard — a Dafny model

This project models the logic of a study app written in React Native. The app asks a
generative-language service for exam questions and renders the text in a web view that
typesets the mathematics. The model covers:

- **`components/MathRenderer.tsx`**
  - `HtmlEscape`: the escape chain that puts content into the page's hidden textarea, and
    the decoding the browser applies when the page script reads the textarea back.
  - `Markup`: the page script's markdown-lite pass. It turns `**x**` into
    `<strong>x</strong>`, then `*x*` into `<em>x</em>`, then each newline into `<br>`.
    Each step is a JavaScript global regular-expression replace, modelled as a leftmost,
    non-overlapping scan. `[^*]+` matches newlines too.
  - `MathRenderer`: the component. A `HeightState` class holds the `height` state and its
    `onMessage` handler. `Render` gives what is shown for a content string, and
    `PageMarkup` gives what the page then displays.
- **`services/GeminiService.ts`** (`GeminiService`): the clean-up of the model's reply before
  `JSON.parse`. It removes every "```json", then every "```", then trims.
  `IsWhitespace` is the ECMAScript white-space and line-terminator set.
- **`app/question.tsx`** (`Question`):
  - pure helpers: `formatTime`, the key-error classifier, the fallback-data choice and the
    option letters;
  - a `QuestionScreen` class holding the screen's state and the handlers that change it:
    fetching, the timer, saving, and the answer tab.
- **`app/_layout.tsx`** (`RootLayout`): the redirect decision and the `isReady` gate.
- **Shared modules.** `Navigation` holds the stored-key lookup and the routes both screens
  navigate to. `Text` holds the string operations: single-character global replace,
  `includes`, and decimal rendering. `Wrappers` holds `Option`.

Modelling choices:

- Outcomes of I/O become parameters. These are the stored key, the generation result,
  whether `initDatabase` resolved, and the parsed height payload.
- Effects become results. These are alerts, the route to replace, and records handed to
  `saveQuestion`.
- `None` stands for JavaScript's `null`/`undefined`, and for `NaN` in a height payload.
- Strings are sequences of Unicode characters. Every character the modelled code inspects,
  the whitespace set of `trim` included, is a single UTF-16 code unit, so code units matter
  only for the option letter, which is modelled as a code unit.

Behaviour of the code that the model records:

- **No math protection.** The formatter works on math spans like on any other text.
  `MathSpanNotProtected` shows a `*…*` inside `$…$` turned into italics.
- **Formatting is not idempotent.** A second pass nests italics (`FormatNotIdempotent`).
- **Height messages are applied in arrival order.** Each accepted report sets the height to
  the report plus 30, so reports 0, 240 and 238 end at 268 (`ThreeReports`).
- **Height persists.** The `height` state is kept across content changes.
- **The timer counts up.** It starts at 1 and goes up by 1 per tick. So while it is
  enabled, the answer stays locked for good (`OnShowAnswer`, `HandleShowAnswer`).
- **Key-error alerts are narrower than they look.** Errors thrown by generation are caught
  by the inner handler, which uses the elasticity example with no alert. So the key-error
  and status alerts come only from a failed secure-storage read (`FetchQuestion`).

## Model

| member | source | states |
|---|---|---|
| Text.ReplaceChar | components/MathRenderer.tsx:11-14 | every character of the result comes from the unchanged characters of the input or, when the character occurs, from the replacement, and conversely |
| Text.ReplaceCharAppend | components/MathRenderer.tsx:11-14 | a global single-character replace distributes over concatenation |
| Text.ReplaceCharAbsent | components/MathRenderer.tsx:11-14 | a string without the character is returned unchanged |
| Text.ReplaceCharAtOccurrence | components/MathRenderer.tsx:89 | each occurrence becomes exactly one copy of the replacement, with the text on both sides replaced independently |
| Text.ReplaceCharSingle | components/MathRenderer.tsx:11-14 | a one-character string becomes the replacement exactly when it is the replaced character |
| Text.CountAppend | components/MathRenderer.tsx:89 | the newlines of a concatenation are those of its parts |
| Text.CountSplit | components/MathRenderer.tsx:89 | the newlines of a string are those before and after any split point |
| Text.CountAbsent | components/MathRenderer.tsx:89 | a string without the character has none of it to count |
| Text.Contains | app/question.tsx:80-83 | `includes` holds iff the pattern occurs at some index |
| Text.OccursAtTail | app/question.tsx:80-83 | when the pattern is not a prefix, an occurrence is one in the tail, one index further on |
| Text.OccursInTail | app/question.tsx:80-83 | when the pattern is not a prefix, it occurs in the string iff it occurs in the tail |
| Text.IntToString | app/question.tsx:141-143 | an integer interpolated into a template: a minus sign before the digits of a negative value; for the non-negative counts of the timer, stated by `NatToString` and `FormatTimeReadsBack` |
| Text.NatToString | app/question.tsx:143 | `String(n)` is a non-empty digit string, one digit iff n < 10, with no leading zero unless n = 0 |
| Text.NatToStringValue | app/question.tsx:143 | reading the digits of `String(n)` back gives n |
| Text.Digit | app/question.tsx:143 | the digit character of a value below ten has that value |
| HtmlEscape.Escape | components/MathRenderer.tsx:10-14 | escaped content has no raw `<`, `>` or `"`; it has a `&` iff the input had any of the four special characters |
| HtmlEscape.EscapeIsEscapeEach | components/MathRenderer.tsx:10-14 | the chain of four replaces, `&` first, equals the single-pass per-character escape, so the inserted entities are never escaped again |
| HtmlEscape.EscapeAppend | components/MathRenderer.tsx:10-14 | escaping distributes over concatenation |
| HtmlEscape.EscapeSingle | components/MathRenderer.tsx:10-14 | the chain maps each single character to its entity or to itself |
| HtmlEscape.EscapeEntity | components/MathRenderer.tsx:12-14 | the three replaces after the first leave text without `<`, `>` and `"` unchanged, so `&amp;` is not escaped again |
| HtmlEscape.Unescape | components/MathRenderer.tsx:77 | reading the textarea's value: the four character references the escape produces decode to their characters, everything else is kept; its meaning is stated by `UnescapeEscape` |
| HtmlEscape.UnescapeEscapeChar | components/MathRenderer.tsx:77 | decoding an escaped character followed by anything yields that character first |
| HtmlEscape.UnescapeLt | components/MathRenderer.tsx:77 | text starting with `&lt;` decodes to `<` followed by the decoding of the rest |
| HtmlEscape.UnescapeGt | components/MathRenderer.tsx:77 | text starting with `&gt;` decodes to `>` followed by the decoding of the rest |
| HtmlEscape.UnescapeQuot | components/MathRenderer.tsx:77 | text starting with `&quot;` decodes to `"` followed by the decoding of the rest |
| HtmlEscape.UnescapePlain | components/MathRenderer.tsx:77 | a character other than `&` decodes to itself, followed by the decoding of the rest |
| HtmlEscape.UnescapeEscape | components/MathRenderer.tsx:10-14 | decoding the escaped content, as reading the textarea's value does, gives back exactly the original content |
| HtmlEscape.EscapeEachRoundTrip | components/MathRenderer.tsx:10-14 | the single-pass escape is inverted by the decoding |
| HtmlEscape.EscapedAmpersandsAreEntities | components/MathRenderer.tsx:10-14 | every `&` of escaped content begins one of `&amp;`, `&lt;`, `&gt;`, `&quot;` |
| HtmlEscape.EscapeEachEntities | components/MathRenderer.tsx:10-14 | the same for the single-pass escape |
| Markup.GroupLen | components/MathRenderer.tsx:83-86 | the length of what `([^*]+)` captures after d opening stars: the longest star-free run there; stated by `StarFreePrefix`, `StarFreePrefixUpTo` |
| Markup.MatchesAtStart | components/MathRenderer.tsx:83-86 | `\*{d}([^*]+)\*{d}` matches at the start: d stars, a non-empty group, d stars; stated by `DelimitedMatch` |
| Markup.Emphasis | components/MathRenderer.tsx:83-86 | one global replace of a star-free group between d-star runs, scanned left to right without overlap; its steps are stated by `EmphasisMatch` and `EmphasisUnmatched` |
| Markup.Bold | components/MathRenderer.tsx:83 | the bold pass, double-star delimiters and `strong` tags; stated by `FormatBold`, `BoldNoDoubleStar` |
| Markup.Italic | components/MathRenderer.tsx:86 | the italic pass, single-star delimiters and `em` tags; stated by `FormatItalic`, `ItalicAround` |
| Markup.Breaks | components/MathRenderer.tsx:89 | the break pass, each newline to `<br>`; stated by `FormatNewlineCount`, `BreaksAbsent` |
| Markup.StarFreePrefix | components/MathRenderer.tsx:83 | the longest star-free prefix: no star in it, and a star right after it unless the string ends |
| Markup.Stars | components/MathRenderer.tsx:83 | the delimiter `\*{d}` is d stars |
| Markup.Format | components/MathRenderer.tsx:83-89 | no newline remains in the formatted markup |
| Markup.EmphasisSkipsStarFree | components/MathRenderer.tsx:83-86 | a star-free prefix is copied unchanged by either emphasis pass |
| Markup.EmphasisStarFree | components/MathRenderer.tsx:83-86 | text without stars is unchanged by either emphasis pass |
| Markup.StarFreePrefixUpTo | components/MathRenderer.tsx:83 | the group `[^*]+` stops at the first star |
| Markup.StarsNoNewline | components/MathRenderer.tsx:83-86 | a delimiter run holds no newline |
| Markup.MatchNewlines | components/MathRenderer.tsx:83-86 | a match's newlines are its group's |
| Markup.WrappedNewlines | components/MathRenderer.tsx:83-86 | the tags add no newline |
| Markup.DelimitedMatch | components/MathRenderer.tsx:83-86 | a non-empty star-free run between two runs of d stars is a match whose group is exactly that run, with the rest following the closing stars |
| Markup.EmphasisMatch | components/MathRenderer.tsx:83-86 | a delimited non-empty star-free run at the start is wrapped in the tags and the scan resumes right after the closing delimiter |
| Markup.EmphasisMatchStep | components/MathRenderer.tsx:83-86 | at a match the group is wrapped in the tags and the scan resumes after the closing delimiter |
| Markup.EmphasisUnmatched | components/MathRenderer.tsx:83-86 | where no match starts, one character is copied and the scan moves on by one |
| Markup.EmphasisKeepsNewlines | components/MathRenderer.tsx:83-86 | the emphasis passes keep the number of newlines |
| Markup.MatchKeepsNewlines | components/MathRenderer.tsx:83-86 | wrapping a match keeps the newline count, given that the scan of the rest does |
| Markup.CopyKeepsNewlines | components/MathRenderer.tsx:83-86 | copying an unmatched character keeps the newline count, given that the scan of the rest does |
| Markup.FormatNewlineCount | components/MathRenderer.tsx:83-89 | bold and italic keep every newline, so each input newline becomes exactly one `<br>` |
| Markup.FormatPlain | components/MathRenderer.tsx:80-89 | text with no `*` and no newline, `$` included, comes out unchanged |
| Markup.FormatBold | components/MathRenderer.tsx:83 | `**X**` with X non-empty and star-free becomes `<strong>X</strong>` |
| Markup.FormatBoldAt | components/MathRenderer.tsx:83-89 | the same for a given spelling of the input and of the expected markup |
| Markup.FormatItalic | components/MathRenderer.tsx:86 | `*Y*` with Y non-empty and star-free becomes `<em>Y</em>` |
| Markup.BoldNoDoubleStar | components/MathRenderer.tsx:83 | without two adjacent stars the bold pass changes nothing |
| Markup.BreaksAbsent | components/MathRenderer.tsx:89 | text without newlines is unchanged by the break pass |
| Markup.ItalicOfInlineMath | components/MathRenderer.tsx:86 | a single-star pair between star-free text is italicised wherever it sits |
| Markup.MathSpanNotProtected | components/MathRenderer.tsx:80-89 | a `*v*` inside `$…$` becomes `<em>v</em>`: math delimiters get no protection |
| Markup.BoldOfTripleStars | components/MathRenderer.tsx:83 | in `***x***` bold takes the inner two stars of each run |
| Markup.StarAfterDelimiter | components/MathRenderer.tsx:83-86 | when a star follows the opening delimiter, no group can start and the first character is copied |
| Markup.LoneStar | components/MathRenderer.tsx:86 | a single star is left as it is |
| Markup.ItalicAround | components/MathRenderer.tsx:86 | a star-free run between single stars becomes italic |
| Markup.FormatTripleStars | components/MathRenderer.tsx:83-86 | `***x***` becomes `<em><strong>x</strong></em>` |
| Markup.FormatTripleStarsAt | components/MathRenderer.tsx:83-89 | the same for a given spelling of the input and of the bold markup |
| Markup.BoldLeavesSplitStars | components/MathRenderer.tsx:83 | `**x*y*` has no bold match |
| Markup.SplitStarsNoDoubleStar | components/MathRenderer.tsx:83 | `*x*y*` has no two adjacent stars |
| Markup.SplitStarsNoBold | components/MathRenderer.tsx:83 | in `**x*y*` no bold match starts at the first star, so it is copied |
| Markup.ItalicOfTrailingStar | components/MathRenderer.tsx:86 | a lone trailing star stays |
| Markup.ItalicOfSplitStars | components/MathRenderer.tsx:86 | `**x*y*` italicises `x`, leaving a star on each side |
| Markup.ItalicOfSplitStarsAt | components/MathRenderer.tsx:86 | the same for a given spelling of the input |
| Markup.StarOfUnmatched | components/MathRenderer.tsx:86 | a star followed by a star opens no italic match |
| Markup.FormatOfSplitStars | components/MathRenderer.tsx:83-89 | `**x*y*` formats to `*<em>x</em>y*` |
| Markup.FormatOfLeftoverStars | components/MathRenderer.tsx:83-89 | formatting that output again pairs the leftover stars |
| Markup.FormatOfStarPair | components/MathRenderer.tsx:83-89 | a single-star pair around text without stars or newlines is only italicised |
| Markup.StarPairNoDoubleStar | components/MathRenderer.tsx:83 | a star-free run between single stars has no adjacent stars |
| Markup.FormatNotIdempotent | components/MathRenderer.tsx:83-89 | formatting twice differs from formatting once: a second pass nests `<em>` |
| Markup.BoldBeforeItalic | components/MathRenderer.tsx:83-86 | bold first gives `<strong>x</strong>` for `**x**`; italic first would give `*<em>x</em>*` |
| Markup.ItalicFirst | components/MathRenderer.tsx:86 | the italic pass on `**x**` wraps `x` and leaves a star on each side |
| MathRenderer.Accepted | components/MathRenderer.tsx:130-132 | a message is used iff the component is bounded and the payload is a number above 10; stated by `NextHeightCases` and used in `OnMessage` and `LastAccepted` |
| MathRenderer.NextHeight | components/MathRenderer.tsx:130-134 | one `onMessage` call on the height; stated by `NextHeightCases` and `HeightInvariantHolds` |
| MathRenderer.HeightAfter | components/MathRenderer.tsx:129-134 | the height after a sequence of messages, in arrival order; stated by `HeightAfterIsLastAccepted` |
| MathRenderer.PageMarkup | components/MathRenderer.tsx:77-92 | what the page shows: the textarea's decoded value, formatted; stated by `RenderedPage` |
| MathRenderer.InitialHeight | components/MathRenderer.tsx:110 | the height starts undefined in full-height mode and at 150 otherwise |
| MathRenderer.LastAccepted | components/MathRenderer.tsx:130-134 | the right-to-left reference: the last report that is numeric and above 10 in bounded mode |
| MathRenderer.NextHeightCases | components/MathRenderer.tsx:130-134 | an accepted message sets height to h + 30; a rejected one leaves it unchanged |
| MathRenderer.NextHeightForgetsPast | components/MathRenderer.tsx:131-134 | an accepted message replaces the height whatever it was, and the new height exceeds 40 |
| MathRenderer.HeightInvariantHolds | components/MathRenderer.tsx:110-134 | the height is undefined in full-height mode, else 150 or above 40, initially and after every message |
| MathRenderer.LastAcceptedPrepend | components/MathRenderer.tsx:130-134 | how the reference behaves when a message is put in front |
| MathRenderer.HeightAfterIsLastAccepted | components/MathRenderer.tsx:129-134 | after any message sequence the height is the last accepted report plus 30, or unchanged if none was accepted |
| MathRenderer.FullHeightIgnoresMessages | components/MathRenderer.tsx:130 | in full-height mode the height stays undefined whatever arrives |
| MathRenderer.ThreeReports | components/MathRenderer.tsx:129-134 | reports 0, 240, 238 leave the height at 268 |
| MathRenderer.HeightState.constructor | components/MathRenderer.tsx:110 | a fresh component holds the initial height |
| MathRenderer.HeightState.OnMessage | components/MathRenderer.tsx:129-135 | the handler ignores all messages in full-height mode, applies h + 30 iff h is a number above 10, and keeps the height invariant |
| MathRenderer.HeightState.Render | components/MathRenderer.tsx:114-125 | nothing for empty content; otherwise flex 1 and scrolling in full-height mode, the state height otherwise, and a textarea holding exactly the escaped content, so no raw `<` or `>`, which reads back as the content |
| MathRenderer.HeightState.RenderedPage | components/MathRenderer.tsx:77-89 | the page formats exactly the content it was given |
| GeminiService.IsWhitespace | services/GeminiService.ts:33 | the characters `trim` removes: ECMAScript white space and line terminators |
| GeminiService.RemoveAll | services/GeminiService.ts:33 | a global replace of a literal pattern by the empty string, leftmost and non-overlapping; stated by `RemoveAllSkips`, `RemoveAllNoMatch`, `RemoveFenceNoFence` |
| GeminiService.Clean | services/GeminiService.ts:33 | the reply clean-up; stated by `CleanNoFence`, `CleanTrimmed`, `CleanIdempotent`, `CleanFencedJson` |
| GeminiService.TrimStart | services/GeminiService.ts:33 | a suffix of the input that does not start with whitespace, and everything dropped before it is whitespace |
| GeminiService.TrimEnd | services/GeminiService.ts:33 | a prefix of the input that does not end with whitespace, and everything dropped after it is whitespace |
| GeminiService.Trim | services/GeminiService.ts:33 | the result neither starts nor ends with whitespace |
| GeminiService.TrimIsSlice | services/GeminiService.ts:33 | the input is leading whitespace, then the trimmed result, then trailing whitespace |
| GeminiService.SuffixWhitespace | services/GeminiService.ts:33 | whitespace at the end of a suffix is whitespace at the same place in the whole string |
| GeminiService.RemoveFenceNoFence | services/GeminiService.ts:33 | after removing every "```" no three consecutive backticks remain |
| GeminiService.RemoveAllAbsent | services/GeminiService.ts:33 | removal changes nothing without the pattern's first character |
| GeminiService.RemoveAllNoMatch | services/GeminiService.ts:33 | removal changes nothing when the pattern occurs nowhere |
| GeminiService.NoFenceNoMatch | services/GeminiService.ts:33 | a fence-free string contains no pattern that starts with a fence |
| GeminiService.SliceNoFence | services/GeminiService.ts:33 | a piece of a fence-free string is fence-free |
| GeminiService.TrimNoFence | services/GeminiService.ts:33 | trimming a fence-free string cannot create a fence |
| GeminiService.RemoveAllSkips | services/GeminiService.ts:33 | a prefix without the pattern's first character is copied |
| GeminiService.CleanNoFence | services/GeminiService.ts:33 | the cleaned reply contains no three consecutive backticks |
| GeminiService.CleanTrimmed | services/GeminiService.ts:33 | the cleaned reply has no leading or trailing whitespace |
| GeminiService.TrimStartAbsent | services/GeminiService.ts:33 | trimming the start of a string without leading whitespace changes nothing |
| GeminiService.TrimEndAbsent | services/GeminiService.ts:33 | trimming the end of a string without trailing whitespace changes nothing |
| GeminiService.CleanFixes | services/GeminiService.ts:33 | a fence-free, trimmed string is its own clean-up |
| GeminiService.CleanIdempotent | services/GeminiService.ts:33 | cleaning twice equals cleaning once |
| GeminiService.CleanPlain | services/GeminiService.ts:33 | a reply with no backtick and no surrounding whitespace is returned unchanged |
| GeminiService.TrimNewlines | services/GeminiService.ts:33 | a trimmed body between newlines trims to the body |
| GeminiService.TrimStartStep | services/GeminiService.ts:33 | a leading whitespace character is dropped and trimming goes on |
| GeminiService.TrimEndStep | services/GeminiService.ts:33 | a trailing whitespace character is dropped and trimming goes on |
| GeminiService.TrimLoneNewline | services/GeminiService.ts:33 | a lone newline trims to the empty string |
| GeminiService.TrimBodyNewline | services/GeminiService.ts:33 | a trimmed non-empty body followed by a newline trims to the body |
| GeminiService.CleanFencedJson | services/GeminiService.ts:33 | "```json\n" + body + "\n```" cleans to the body: "```json" goes before bare "```" |
| Navigation.Path | app/_layout.tsx:41-43 | the path string passed to `router.replace` for each route, also at `app/question.tsx:47`; stated by `PathOfSegments` |
| Navigation.HasKey | app/_layout.tsx:40-43 | a key counts as present iff it was read and is not empty, as `!apiKey` treats `""` like `null` |
| Navigation.Segments | app/_layout.tsx:37 | every route reports a first segment, and it is the onboarding group exactly for the key screen |
| Navigation.PathOfSegments | app/_layout.tsx:41-43 | each route's path is built from its segments |
| Question.FormatTime | app/question.tsx:140-144 | the `m:ss` display of a second count; stated by `FormatTimeReadsBack` |
| Question.SecondsRem | app/question.tsx:142 | JavaScript's remainder by 60: below 60 in magnitude, with the dividend's sign, and congruent to it |
| Question.SecondsDigits | app/question.tsx:143 | the padded seconds are two digits, the first 0 to 5, and read back as the seconds |
| Question.FormatTimeReadsBack | app/question.tsx:140-144 | for s ≥ 0 the display is minutes without leading zero, `:`, and two digits 00 to 59, reading back as minutes·60 + seconds = s |
| Question.IsKeyError | app/question.tsx:80-83 | holds iff there is a message and it contains one of "API_KEY_INVALID", "API_KEY_EXPIRED", "forbidden", "403" |
| Question.FinalData | app/question.tsx:63-67 | generated data with question text is used as is; otherwise the default with `math` false; either way the question text is non-empty |
| Question.FinalDataIdempotent | app/question.tsx:63-67 | choosing again from a chosen question keeps it |
| Question.Chosen | app/question.tsx:51-67 | a successful key read always yields question text; a failed generation yields the elasticity example with mathematics |
| Question.OptionLabel | app/question.tsx:281 | the label is the code unit 65 + idx taken modulo 2^16 |
| Question.OptionLabels | app/question.tsx:267-281 | one label per option, by position |
| Question.FourOptionsABCD | app/question.tsx:281 | four options are labelled A, B, C, D |
| Question.LabelsDistinct | app/question.tsx:281 | labels are distinct up to 2^16 options, and the next one wraps around |
| Question.AnswerLocked | app/question.tsx:147 | the guard `timerEnabled && timeLeft > 0`, repeated at line 157; stated by `HandleShowAnswer` and `OnShowAnswer` |
| Question.QuestionScreen.Record | app/question.tsx:111-118 | the record `handleSave` hands to `saveQuestion`: the route's topic and type with the question's text, answer, `math` flag and options; stated by `HandleSave` and the `saved` clause of the screen's invariant |
| Question.QuestionScreen.constructor | app/question.tsx:20-30 | the first render: no question, loading, timer off at 1, question tab, nothing saved |
| Question.QuestionScreen.StopTimer | app/question.tsx:133-138 | the interval is cleared and the timer marked not running |
| Question.QuestionScreen.FetchQuestion | app/question.tsx:37-106 | answer and saved flags reset, the timer stopped and loading ended on every path; a missing key alerts, replaces the route with onboarding and keeps the question; a failed key read shows the GDP sample with the key-error or the status alert; otherwise the chosen question and, with the timer enabled, a restart from 1 |
| Question.QuestionScreen.Tick | app/question.tsx:125-129 | one interval firing adds exactly 1 to the count while an interval runs; the count never drops below 1 |
| Question.QuestionScreen.ToggleTimer | app/question.tsx:189-197 | the switch enables and starts, or disables and stops, the timer; the count is kept |
| Question.QuestionScreen.HandleSave | app/question.tsx:108-121 | nothing without a question or when already saved; otherwise one record with the route's topic and type is saved and `saved` becomes true |
| Question.QuestionScreen.HandleShowAnswer | app/question.tsx:146-153 | refused, changing nothing, while the timer is enabled and the count is positive, which is always while enabled; otherwise the answer is shown and the timer stops |
| Question.QuestionScreen.OnShowAnswer | app/question.tsx:156-163 | the same lock for the answer tab; otherwise the view becomes the answer and the timer stops |
| Question.QuestionScreen.ShowQuestionTab | app/question.tsx:211 | the view becomes the question |
| Question.QuestionScreen.NextQuestion | app/question.tsx:319-322 | back to the question tab, then the fetch with each of its three outcomes: the missing-key redirect, the chosen question with the timer restart, or the sample with its alert |
| Question.QuestionScreen.Unmount | app/question.tsx:34 | the timer is stopped |
| RootLayout.InOnboarding | app/_layout.tsx:37 | the first route segment is the onboarding group |
| RootLayout.Redirect | app/_layout.tsx:37-44 | the redirect decision of `checkAuth`; stated by `RedirectCases`, `RedirectSettles`, `RedirectRespectsKey` |
| RootLayout.RedirectCases | app/_layout.tsx:37-44 | to onboarding iff the key is missing outside onboarding; to the tabs iff a key is present inside onboarding; no navigation otherwise or when the read fails |
| RootLayout.RedirectSettles | app/_layout.tsx:37-44 | after a redirect, the same check on the new route asks for no further redirect |
| RootLayout.RedirectRespectsKey | app/_layout.tsx:40-43 | a user with a key is never sent to onboarding, one without never to the tabs |
| RootLayout.Layout.constructor | app/_layout.tsx:21 | the layout starts not ready |
| RootLayout.Layout.InitializeApp | app/_layout.tsx:23-29 | the layout becomes ready exactly when `initDatabase` resolves, never before the database |
| RootLayout.Layout.CheckAuth | app/_layout.tsx:31-51 | no redirect before the layout is ready; afterwards the redirect decision |
| RootLayout.Layout.Render | app/_layout.tsx:53-71 | the stack is shown iff the layout is ready, and only after the database is initialised |

## Left out

- The web view, the HTML shell and the MathJax library and its configuration
  (`components/MathRenderer.tsx:16-61`): a foreign library that receives data.
- `sendHeight`, its DOM measurement and the 500/1000/2000 ms probes
  (`components/MathRenderer.tsx:68-73, 96-98`): browser timing. The model takes the
  messages they produce as an input sequence.
- The page script's error branch (`components/MathRenderer.tsx:99-101`): none of the
  modelled replaces throws.
- MathRenderer.HeightState.OnMessage: `Number()` parsing is not modelled. The payload
  arrives already parsed as a real, or as `None` for NaN, and heights are exact reals
  rather than floating point.
- HtmlEscape.Unescape: decodes only `&amp;`, `&lt;`, `&gt;` and `&quot;`. This is all that
  can occur in escaped text (`EscapedAmpersandsAreEntities`), but it is not the general
  HTML character-reference decoder.
- The browser's textarea parsing also drops one newline right after the start tag,
  normalises carriage returns and replaces U+0000 with U+FFFD. None of these is modelled,
  so the round trip is stated for what the decoding of character references gives back.
- Question.QuestionScreen.FetchQuestion: the awaits are taken as one step. A tick, a switch
  toggle or a save that happens while a fetch is pending is not modelled, and
  `timerEnabled` is read when the step runs.
- Question.QuestionScreen.HandleSave: the await of `saveQuestion` between the guard
  (`app/question.tsx:109`) and `setSaved(true)` (`:119`) is taken as one step. The button's
  `disabled={saved}` (`:203`) changes only after the await, so a second press while the save
  is pending saves the question again; this interleaving is not modelled.
- Secure storage, the network call, `JSON.parse`, SQLite, `Alert`, `Share` and the router
  are not modelled as behaviour. Their outcomes are parameters, and their effects are
  return values or the `saves` field.
- `setInterval` scheduling is not modelled: one firing is a `Tick` call.
- The key-error alert's "Update Key" button (`app/question.tsx:91`) is not modelled: it
  navigates only when pressed.
- A thrown value without a `message` property is modelled as `None`. A thrown `null` is not
  modelled.
- The prompt text of `generateQuestion`, `DatabaseService`, the tab bar, the static
  subject and colour tables, and the how-to screen are not part of this model.
- Render-only details are not modelled: styles, colours, the loading spinner's text, and
  the choice between `MathRenderer` and plain `Text` by `math`.
