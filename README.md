# Anki Anywhere: a verified model of its scheduling, cloze and template core

This project models, in Dafny, the parts of Anki Anywhere (a self-hosted
Anki-style flashcard system with a Node/Express backend, a React editor and
iOS/Android review clients) that compute something:

- **SM-2 scheduling in four copies.** The backend's `scheduleReview`
  (`backend/src/scheduler.js`), the arithmetic inside `CardReview.reviewCard`,
  the Swift port and the Kotlin port. Each is a function from
  (quality, ease, interval, repetitions) to a new state. Lemmas relate the
  copies: where they agree, where the ease update or the rounding differs,
  and the bounds they keep.
- **Due-card selection.** `getDueCards` is a filter plus a sort by
  `next_review_date ASC NULLS FIRST`.
- **The cloze engine** (`backend/src/utils/cloze.js`). The regex
  `\{\{c(\d+)::(.*?)(?:::(.*?))?\}\}` is written out as a scanner with
  ECMAScript backtracking order: digits greedy, content and hint lazy, the hint
  group tried before it is skipped, and `.` never crossing a line terminator.
  `parseCloze` is a loop proved against the list of all matches. On top of the
  scanner sit render, create, max index, next index and has-cloze, with the
  create/parse and create/render round trips.
- **The template engine** (`backend/src/utils/templateEngine.js`):
  - `escapeHtml`, with a decoder as its inverse;
  - the three ordered passes of `renderTemplate`;
  - `generateCardsFromNote`, as a method whose loops are proved against a
    specification of the cards;
  - `injectCSS`.
- **The React editor's own logic** (`frontend/src/components/CardEditor.js`):
  the looser cloze-index scan, the name-only cloze test and the live preview.
  Each is compared with the backend's version.
- **Smaller helpers:**
  - `Note`'s field map, tag parsing and the `findDuplicates`/`findByTags` filters
    (with PostgreSQL `LIKE`);
  - the `TagInput` handlers;
  - `Card.createMany`'s placeholder and parameter lists;
  - the request validators of `backend/src/middleware/validate.js`. A request is
    a class, because `validatePagination`, `sanitizeStrings` and
    `validateQuality` write into it;
  - the fixed-window rate limiter of `backend/src/middleware/rateLimit.js`, a
    class over its module-level map.

The JavaScript built-ins the core leans on are written out once:

- `JsText`: `trim`, `split(/\s+/)`, `split(sep)`, `join`, `indexOf`, `${n}` and
  `parseInt(s, 10)`;
- `JsReplace`: `String.prototype.replace` with a replacement string, including
  its `$` patterns.

Files: `common.dfy`, `js_text.dfy`, `js_replace.dfy`, `sm2.dfy`,
`scheduler.dfy`, `card_review.dfy`, `ios_spaced_repetition.dfy`,
`android_spaced_repetition.dfy`, `cloze.dfy`, `template_engine.dfy`,
`card_editor.dfy`, `notes.dfy`, `tag_input.dfy`, `card_batch.dfy`,
`validate.dfy` and `rate_limit.dfy`. There is one module per file, and all
files verify together.

**Inputs the source reads from its environment are parameters here:**
- the clock (`Date.now()` and `new Date()`) is an integer in milliseconds or days;
- the stored review row and the database rows are parameters;
- the rate limiter's `setInterval` timer is a `Cleanup` method that the clock's
  owner calls.

**Where the code and its documentation disagree, the model follows the code:**
- `validateIds` rejects a body value that is present but falsy (`null`, `''`,
  `0`, `false`), because `parseInt` gives NaN or 0 for it. A value is skipped
  when the `||` chain of route, query and body yields `undefined`: the body
  value is undefined and the route and query values are falsy, so `?id=`
  without a body id is skipped (`Validate.FalsyBodyValueRejected`,
  `Validate.AbsentIdSkipped`).
- The header of `rateLimit.js` says "token bucket"; the code is a fixed window.

## Model

| member | source | states |
|---|---|---|
| Sm2.EaseDelta | backend/src/scheduler.js:18 | the SM-2 ease change is +0.1 for quality 5, 0 for 4, -0.14 for 3, -0.8 for 0, and negative below 3 |
| Sm2.JsRound | backend/src/scheduler.js:16 | `Math.round` gives the integer within half a unit, with halves rounded up |
| Sm2.Truncate | ios/AnkiAnywhere/AnkiAnywhere/Services/SpacedRepetitionService.swift:26 | `Int(Double)` truncates toward zero: the result lies within one unit on the side of zero |
| Sm2.TruncateBelowRound | ios/AnkiAnywhere/AnkiAnywhere/Services/SpacedRepetitionService.swift:26 | for a non-negative product, truncation is at most the rounded value and at most one below it |
| Sm2.ClampEase | backend/src/models/CardReview.js:33 | the clamp never leaves the ease below 1.3 and keeps any ease at or above it |
| Sm2.UpdatedEase | backend/src/models/CardReview.js:32-33 | the updated ease is the SM-2 sum when that is at least 1.3, and 1.3 otherwise |
| Scheduler.ScheduleReview | backend/src/scheduler.js:1-22 | a score below 3 gives interval 1, repetitions 0 and the ease unchanged. A success adds one repetition; the interval is 1 for the first, 6 for the second, then round(interval × ease) with the old ease; the new ease is exactly max(1.3, ease + EaseDelta(q) = 0.1 − (5 − q)(0.08 + (5 − q)·0.02)), so an ease of at least 1.3 stays at least 1.3 |
| Scheduler.TestsChain | backend/src/tests.js:10-20 | the chain the unit test checks (2.5/0/0 → 2.6/1/1 → 2.7/6/2), its third step (interval 16) and a lapse that keeps the ease |
| Scheduler.ReplayRepetitions | backend/src/scheduler.js:6-10 | after any history of scores, the repetition count is the number of successes since the last lapse, or the prior count plus all reviews if none lapsed |
| Scheduler.ReplayKeepsEaseFloor | backend/src/scheduler.js:18 | no history of scores brings an ease at or above 1.3 below it |
| CardReview.NextState | backend/src/models/CardReview.js:15-33 | a success branches on the prior count (0 → 1, 1 → 6, else round(interval × ease)) and adds one repetition; a lapse gives interval 1 and repetitions 0; on every review, lapse or success, the new ease is exactly max(1.3, ease + EaseDelta(q) = 0.1 − (5 − q)(0.08 + (5 − q)·0.02)) |
| CardReview.ReviewCard | backend/src/models/CardReview.js:5-36 | with no stored review the state starts at 2.5/0/0, so a first success gives interval 1 and one repetition; the next review day is today plus the interval |
| CardReview.AgreesWithSchedulerOnSuccess | backend/src/models/CardReview.js:15-33 | on a success, `reviewCard` and `scheduleReview` give the same state, though one branches on the old count and the other on the new |
| CardReview.LapseLowersEaseUnlikeScheduler | backend/src/models/CardReview.js:25-33 | on a lapse both reset the interval and the count, but `reviewCard` lowers an ease above the floor where `scheduleReview` keeps it |
| CardReview.ReviewCardAsWritten | backend/src/models/CardReview.js:9-13 | read from a stored row, the destructured `easeFactor` is undefined, so the new ease is NaN, and so is a third-or-later interval |
| CardReview.AsWrittenLosesStoredEase | backend/src/models/CardReview.js:9-22 | on a third review (2.6, 6, 2) the code as written gives NaN for ease and interval, where the corrected read of the row (`RowState`, taking `ease_factor`, `interval` and `repetitions`) gives 2.7 and 16 days |
| CardReview.AsWrittenAgreesWithoutReview | backend/src/models/CardReview.js:9-13 | without a stored review the code as written and the corrected one agree |
| CardReview.FilterDue | backend/src/models/CardReview.js:69-76 | exactly the rows never reviewed or due by now, in the deck when a deck id is given |
| CardReview.InsertByDue | backend/src/models/CardReview.js:78 | inserting into a list sorted by due date (nulls first) keeps it sorted and adds exactly that row |
| CardReview.SortByDue | backend/src/models/CardReview.js:78 | the rows sorted by due date with nulls first, as a permutation |
| CardReview.GetDueCards | backend/src/models/CardReview.js:64-82 | exactly the due rows, each as often as the join yields it, never-reviewed cards first and then ascending by due date |
| IosSpacedRepetition.CalculateNextReview | ios/AnkiAnywhere/AnkiAnywhere/Services/SpacedRepetitionService.swift:9-42 | branches on the prior count (0 → 1, 1 → 6, else the truncated interval × ease); a lapse gives 1 and 0; the ease is updated on every call and clamped at 1.3 |
| IosSpacedRepetition.TruncatedAgainstRounded | ios/AnkiAnywhere/AnkiAnywhere/Services/SpacedRepetitionService.swift:19-39 | against `reviewCard` on the same state: the same ease and count, and for a non-negative product an interval no larger and at most one day shorter |
| IosSpacedRepetition.LaterSuccessNeverShrinks | ios/AnkiAnywhere/AnkiAnywhere/Services/SpacedRepetitionService.swift:26 | with an ease of at least 1.3 and a non-negative interval, a third or later success never shortens the interval |
| IosSpacedRepetition.QualityZero | ios/AnkiAnywhere/AnkiAnywhere/Services/SpacedRepetitionService.swift:36-39 | quality 0 lowers the ease by 0.8: 2.5 becomes 1.7, and 1.5 is held at 1.3 |
| IosSpacedRepetition.IntervalNonNegative | ios/AnkiAnywhere/AnkiAnywhere/Services/SpacedRepetitionService.swift:19-33 | a non-negative interval with an ease of at least 1.3 stays non-negative |
| AndroidSpacedRepetition.CalculateNextReview | android/app/src/main/java/com/ankianywhere/services/SpacedRepetitionService.kt:11-42 | a lapse gives interval 1 and repetitions 0, a success adds one repetition, and the ease is never below 1.3 |
| AndroidSpacedRepetition.SameAsSwift | android/app/src/main/java/com/ankianywhere/services/SpacedRepetitionService.kt:11-42 | the Kotlin and Swift ports return the same ease, interval and repetitions on every input |
| AndroidSpacedRepetition.IntervalNonNegative | android/app/src/main/java/com/ankianywhere/services/SpacedRepetitionService.kt:23-33 | a non-negative interval with an ease of at least 1.3 stays non-negative |
| Common.Filter | backend/src/middleware/validate.js:12-15 | a filter keeps exactly the elements satisfying the predicate |
| Common.FilterCounts | backend/src/middleware/validate.js:12-15 | a filter keeps each passing element as often as it occurs and drops the others |
| Common.FilterConcat | backend/src/middleware/validate.js:12-15 | filtering keeps order: the filter of a concatenation is the concatenation of the filters |
| Common.Tabulate | backend/src/utils/templateEngine.js:103-125 | what a counting loop pushes: element k is f(k) |
| JsText.Trim | backend/src/models/Note.js:100-103 | `trim()` leaves no whitespace at either end, and is empty exactly for an all-whitespace text |
| JsText.TrimIdempotent | backend/src/middleware/validate.js:93 | trimming twice is trimming once |
| JsText.TrimOfTrimmed | frontend/src/components/TagInput.js:12 | a text without whitespace at either end is its own trim |
| JsText.JoinSplitOnSpaces | backend/src/models/Note.js:103 | splitting on whitespace runs and joining with single spaces collapses every run to one space |
| JsText.SplitOnSpacesTokens | backend/src/models/Note.js:103 | splitting a trimmed non-empty text on `\s+` gives non-empty, whitespace-free tokens |
| JsText.SplitOnSpaces | backend/src/models/Note.js:103 | a split on whitespace has at least one part; `SplitOnSpacesTokens` and `JoinSplitOnSpaces` characterise the tokens |
| JsText.SplitJoinSpaces | frontend/src/components/TagInput.js:12 | clean tokens joined with single spaces split back into the same tokens |
| JsText.IndexOf | backend/src/middleware/rateLimit.js:36 | `indexOf` finds the first occurrence at or after the start, and None means there is none |
| JsText.JoinSplitOn | frontend/src/components/TagInput.js:40 | joining the parts of a split with its separator restores the text |
| JsText.SplitOnPartsFree | frontend/src/components/TagInput.js:40 | no part of a split contains the separator |
| JsText.SplitOn | frontend/src/components/TagInput.js:40 | a split has at least one part; `JoinSplitOn` and `SplitOnPartsFree` characterise the parts |
| JsText.Join | frontend/src/components/TagInput.js:34 | a single part joins to itself; `JoinSplitOn` and `JoinSplitOnSpaces` tie it to the splits |
| JsText.NatToString | backend/src/utils/cloze.js:85-87 | `${n}` of a natural number is a non-empty digit string |
| JsText.IntToString | backend/src/utils/cloze.js:85-87 | `${i}` of any integer is non-empty, all digits exactly when i ≥ 0 and '-' then the digits of the magnitude otherwise; parseInt reads it back as i |
| JsText.DigitPrefix | backend/src/utils/cloze.js:11 | the maximal leading digit run: all digits, followed by a non-digit or the end |
| JsText.ParseInt | backend/src/middleware/validate.js:36 | `parseInt(s, 10)` is NaN exactly when no digit follows the leading whitespace and optional sign |
| JsText.ParseIntOfDigits | backend/src/utils/cloze.js:26 | parseInt of a digit string is its decimal value |
| JsText.ParseIntOfNatToString | backend/src/utils/cloze.js:26 | parseInt reads back what `${n}` wrote |
| JsReplace.Substitution | backend/src/utils/templateEngine.js:47 | a replacement string without `$` is inserted as it is |
| JsReplace.SubstitutionMatched | backend/src/utils/templateEngine.js:47 | `$&` inserts the matched text |
| JsReplace.ReplaceAll | backend/src/utils/templateEngine.js:47 | a global literal replacement leaves a text without the pattern unchanged |
| JsReplace.ReplaceAllFrom | backend/src/utils/templateEngine.js:47 | from any position, a replacement without `$` makes the JavaScript replacement the verbatim one |
| JsReplace.ReplaceAllVerbatim | frontend/src/components/CardEditor.js:197 | a text without the pattern is left unchanged; `ReplaceAllVerbatimIsSplitJoin` ties it to `split`/`join` |
| JsReplace.ReplaceAllWithoutDollar | frontend/src/components/CardEditor.js:197 | without `$` in the replacement, the global replacement inserts it verbatim |
| JsReplace.ReplaceAllVerbatimIsSplitJoin | frontend/src/components/CardEditor.js:197 | verbatim global replacement equals `split(pat).join(ins)` |
| JsReplace.VerbatimWhole | frontend/src/components/CardEditor.js:197 | a text that is just the pattern becomes the insertion |
| Cloze.HintClose | backend/src/utils/cloze.js:11 | the lazy hint ends at a "}}" with no line terminator before it |
| Cloze.HintCloseFirst | backend/src/utils/cloze.js:11 | the hint stops at the first "}}" and never passes one |
| Cloze.LazyContent | backend/src/utils/cloze.js:11 | the content scan yields only well-shaped matches that start where the header does |
| Cloze.LazyContentFirst | backend/src/utils/cloze.js:11 | the content is lazy: no "}}" lies in what it adds |
| Cloze.MatchAt | backend/src/utils/cloze.js:11 | the regex tried at one position yields only a well-shaped match starting there |
| Cloze.MatchAtCovers | backend/src/utils/cloze.js:11 | the groups of a match put together are exactly the text it matched |
| Cloze.Exec | backend/src/utils/cloze.js:23 | `regex.exec` finds the leftmost match at or after `lastIndex`, and None means there is none |
| Cloze.AllMatchesFrom | backend/src/utils/cloze.js:23 | the matches of the global regex lie in order and never overlap |
| Cloze.AllMatchesLeftmost | backend/src/utils/cloze.js:23 | each match is the one `exec` finds from the end of the previous match |
| Cloze.ToCloze | backend/src/utils/cloze.js:24-30 | the pushed object's `fullMatch` is the slice at `position`; `hint` is present exactly when group 3 matched something non-empty; `index` is non-negative |
| Cloze.ClozeIndexIsParseInt | backend/src/utils/cloze.js:26 | the pushed index is `parseInt(match[1], 10)` |
| Cloze.Clozes | backend/src/utils/cloze.js:18-34 | each parsed cloze's `fullMatch` is the text at its position, and clozes come in increasing position without overlap |
| Cloze.ClozesFromStep | backend/src/utils/cloze.js:23-31 | one `exec` step pushes the match found and continues from its end; no match ends the list |
| Cloze.ParseCloze | backend/src/utils/cloze.js:18-34 | the `exec` loop returns exactly the specified list of clozes |
| Cloze.ReplaceMatches | backend/src/utils/cloze.js:58 | without any match, `replace` copies the text unchanged |
| Cloze.ReplaceByMatchedText | backend/src/utils/cloze.js:58 | replacing each match by the text it covers gives the text back |
| Cloze.ReplaceByAssembleIsIdentity | backend/src/utils/cloze.js:58 | replacing each match by its groups put together gives the text back: nothing outside the matches changes |
| Cloze.ReplaceMatchesAgree | backend/src/utils/cloze.js:58 | two callbacks that agree on every match give the same result |
| Cloze.RenderOne | backend/src/utils/cloze.js:58-73 | a cloze whose index is not the ordinal renders as its bare content |
| Cloze.RenderCloze | backend/src/utils/cloze.js:57-74 | a text without clozes renders unchanged |
| Cloze.ShowAnswerIrrelevantWhenInactive | backend/src/utils/cloze.js:69-72 | when no cloze has the ordinal, revealing or hiding renders the same text |
| Cloze.CreateCloze | backend/src/utils/cloze.js:83-88 | for an index ≥ 0 and a text and hint that hold no cloze syntax, the created cloze parses back as exactly one cloze with that index, text and hint (an empty hint as none), and renders as the text for another ordinal, the revealed text on the back and a blank showing `[hint]`, or `[[...]]` without a hint, on the front |
| Cloze.ParseCreatedCloze | backend/src/utils/cloze.js:18-34 | parsing a created cloze gives exactly that cloze (index, content, hint or null, position 0), for content with no ':', '}' or line break and a hint with no '}' or line break |
| Cloze.RenderCreatedCloze | backend/src/utils/cloze.js:57-74 | a created cloze renders as its content for another ordinal, `<span class="cloze">t</span>` revealed, `[hint]` or `[[...]]` hidden |
| Cloze.RenderCreatedIsOne | backend/src/utils/cloze.js:57-74 | rendering a created cloze is the callback's value for its one match |
| Cloze.MaxIndex | backend/src/utils/cloze.js:43-44 | 0 for no clozes; otherwise the largest index, one that some cloze carries |
| Cloze.GetMaxClozeIndex | backend/src/utils/cloze.js:41-45 | 0 without clozes, else a parsed index at least every other one; never negative |
| Cloze.GetNextClozeIndex | backend/src/utils/cloze.js:95-97 | one past the maximum, so no parsed cloze has it |
| Cloze.HasCloze | backend/src/utils/cloze.js:104-108 | `hasCloze` holds exactly when `parseCloze` finds a cloze |
| Cloze.MatchNeverSpansLineBreak | backend/src/utils/cloze.js:11 | no match contains a line terminator, because the regex has no dot-all flag |
| Cloze.ThreeClozesExample | backend/src/utils/cloze.js:41-45 | c1, c3, c2 in a row parse as three clozes with maximum 3 and next index 4 |
| TemplateEngine.EscapeChar | backend/src/utils/templateEngine.js:20-27 | a special character becomes an entity `&...;`, any other stays itself, and the result is markup-inert |
| TemplateEngine.EscapeHtml | backend/src/utils/templateEngine.js:18-28 | '' for an empty text; no markup character survives; a text without specials is returned unchanged |
| TemplateEngine.UnescapeEscape | backend/src/utils/templateEngine.js:18-28 | decoding the escaped text gives the original back: escaping loses nothing |
| TemplateEngine.ClozeFieldAt | backend/src/utils/templateEngine.js:50 | a `{{cloze:F}}` match covers exactly that placeholder, and F has no line terminator |
| TemplateEngine.ClozeFieldAtFirst | backend/src/utils/templateEngine.js:50 | the lazy name stops at the first "}}" |
| TemplateEngine.NameRun | backend/src/utils/templateEngine.js:58 | the greedy `[^}:]+` run is maximal |
| TemplateEngine.PlainFieldAt | backend/src/utils/templateEngine.js:58 | a `{{F}}` match covers exactly that placeholder, with a non-empty name free of '}' and ':' |
| TemplateEngine.PlainFieldAtIff | backend/src/utils/templateEngine.js:58 | `{{N}}` is matched with name N exactly when N is non-empty and free of '}' and ':' |
| TemplateEngine.FieldAt | backend/src/utils/templateEngine.js:50-61 | a match of either placeholder pattern covers exactly a placeholder |
| TemplateEngine.ReplaceFields | backend/src/utils/templateEngine.js:50-61 | from any position, a text without placeholders of a pattern there passes that pass unchanged |
| TemplateEngine.ReplaceFieldsByPlaceholder | backend/src/utils/templateEngine.js:50-61 | putting each placeholder back as it was gives the text back |
| TemplateEngine.NoBracesNoField | backend/src/utils/templateEngine.js:50-61 | neither placeholder can occur in a text without "{{" |
| TemplateEngine.ClozePass | backend/src/utils/templateEngine.js:50-53 | the cloze pass leaves a text without "{{" alone |
| TemplateEngine.FieldPass | backend/src/utils/templateEngine.js:58-61 | the field pass leaves a text without "{{" alone |
| TemplateEngine.RenderTemplate | backend/src/utils/templateEngine.js:41-64 | a template without "{{" renders unchanged; the front content is inserted literally, and `RenderSingleCloze`, `RenderSingleField` and `FrontSideThenFields` state each pass on its own placeholder |
| TemplateEngine.FrontSideThenFields | backend/src/utils/templateEngine.js:42-47 | `{{FrontSide}}` renders as the front content passed through the later passes, and as '' on a front render |
| TemplateEngine.NoFrontSideIn | backend/src/utils/templateEngine.js:47-58 | no other plain placeholder contains `{{FrontSide}}` |
| TemplateEngine.RenderSingleField | backend/src/utils/templateEngine.js:58-61 | a template `{{N}}` renders as field N: raw, or escaped when HTML is not allowed, and '' for an unknown field (`fieldsMap[name] \|\| ''`) |
| TemplateEngine.RenderSingleCloze | backend/src/utils/templateEngine.js:50-53 | a template `{{cloze:F}}` renders as `renderCloze` of field F (or of '') for the card's ordinal and side, then the field pass |
| TemplateEngine.RenderSingleClozeText | backend/src/utils/templateEngine.js:50-53 | when that rendered cloze text holds no "{{", the template renders as exactly `renderCloze(fieldsMap[F] \|\| '', ordinal, isBack)` |
| TemplateEngine.RenderTemplateAsWritten | backend/src/utils/templateEngine.js:47 | the first pass as written expands `$` patterns, so it differs from the corrected render only when the front content has a `$` |
| TemplateEngine.DollarsHalved | backend/src/utils/templateEngine.js:47 | the replacement string `$$x$$` is substituted as `$x$` |
| TemplateEngine.FrontSideDollarLost | backend/src/utils/templateEngine.js:47 | a front of display math `$$x$$` comes back as `$x$` on a back `{{FrontSide}}` |
| TemplateEngine.FrontSideDollarKept | backend/src/utils/templateEngine.js:47 | inserted verbatim, the same front stays `$$x$$` |
| TemplateEngine.ClozeCards | backend/src/utils/templateEngine.js:103-125 | the cloze loop pushes cards for ordinals 1..n from one template, card k made for ord k |
| TemplateEngine.TemplateCards | backend/src/utils/templateEngine.js:129-149 | the `forEach` pushes one card per template, card k from template k |
| TemplateEngine.IsClozeType | backend/src/utils/templateEngine.js:94-95 | a type named Cloze, or one whose template front holds a `{{cloze:F}}` placeholder, is a cloze type |
| TemplateEngine.MakeCard | backend/src/utils/templateEngine.js:106-124 | the card carries the ord, note id, deck and source_url; a front without "{{" is the template as it is; a back `{{FrontSide}}` is the rendered front passed through the later passes |
| TemplateEngine.DefaultClozeCards | backend/src/utils/templateEngine.js:97-125 | a Cloze type without templates renders card k from `{{cloze:Text}}` on both sides: its front is the Text field rendered as cloze k+1 unrevealed, its back revealed, each then through the field pass |
| TemplateEngine.GeneratedCards | backend/src/utils/templateEngine.js:73-153 | a cloze type gives as many cards as the first field's largest cloze index, all from the first template; any other type one card per template. Card k has ord k, the note's id and source_url and the deck, and its back is rendered with that card's front, inserted verbatim for `{{FrontSide}}` |
| TemplateEngine.GenerateCardsFromNote | backend/src/utils/templateEngine.js:73-153 | the loops return exactly the specified cards, rendered (like them) with the verbatim `{{FrontSide}}` pass |
| TemplateEngine.InjectCSS | backend/src/utils/templateEngine.js:161-163 | the style element holding the CSS, then the card HTML inside `<div class="card">`, laid out piece by piece |
| CardEditor.HeaderAt | frontend/src/components/CardEditor.js:139 | a match of `\{\{c(\d+)::` starts at the given position and spans at least six characters |
| CardEditor.ExecHeader | frontend/src/components/CardEditor.js:142 | `exec` finds the leftmost header at or after `lastIndex`, and None means there is none |
| CardEditor.LooseNextClozeIndex | frontend/src/components/CardEditor.js:139-145 | the editor's next index is at least 1 |
| CardEditor.ScanNextClozeIndex | frontend/src/components/CardEditor.js:139-145 | the `exec` loop computes one past the largest header index |
| CardEditor.ClozeIndexEffect | frontend/src/components/CardEditor.js:137-147 | the index is recomputed only for a cloze type with a non-empty first field, and kept otherwise |
| CardEditor.MaxHeaderBound | frontend/src/components/CardEditor.js:142-144 | every header after the scan's start is counted by it |
| CardEditor.MaxHeaderFrom | frontend/src/components/CardEditor.js:142-144 | 0 when no header is left, and any other value is the index of a header at or after the start |
| CardEditor.ClozeHeaderCounted | frontend/src/components/CardEditor.js:139-145 | every cloze the backend parses has its index counted by the editor's scan |
| CardEditor.MatchHasHeader | frontend/src/components/CardEditor.js:139 | where the backend's cloze regex matches, the editor's matches too, with the same index |
| CardEditor.LooseIndexAtLeastBackend | frontend/src/components/CardEditor.js:137-147 | the editor never offers an index below the backend's `getNextClozeIndex` |
| CardEditor.UnclosedClozeCounted | frontend/src/components/CardEditor.js:139 | an unclosed "{{c2::" moves the editor to 3 while the backend still offers 1 |
| CardEditor.EditorIsClozeType | frontend/src/components/CardEditor.js:83-86 | a type the editor treats as cloze is cloze for the backend too |
| CardEditor.BackendClozeNotEditorCloze | frontend/src/components/CardEditor.js:83-86 | a type with another name whose template uses `{{cloze:` is cloze only for the backend |
| CardEditor.FrontBlank | frontend/src/components/CardEditor.js:181-186 | on the front, a cloze of another index than 1 shows its content |
| CardEditor.EntryOrder | frontend/src/components/CardEditor.js:169-171 | `Object.entries` lists each field name once, and only field names, ordered by the position where `forEach` first assigns each name |
| CardEditor.PreviewOf | frontend/src/components/CardEditor.js:155-207 | nothing without a note type; the first two fields without templates |
| CardEditor.ReplaceEntries | frontend/src/components/CardEditor.js:200-204 | the `forEach` over the entries replaces each field on both sides in turn |
| CardEditor.PreviewContent | frontend/src/components/CardEditor.js:155-207 | the preview with its loops is exactly the specified preview, over the field names `config.fields` (or Front and Back) |
| CardEditor.ReplaceEach | frontend/src/components/CardEditor.js:200-204 | the field pass leaves a text without "{{" alone; `ReplaceEachStep` states each step |
| CardEditor.ReplaceEachStep | frontend/src/components/CardEditor.js:200-204 | one more entry replaces `{{name}}` globally with the field's value in the text so far |
| CardEditor.FrontSidePass | frontend/src/components/CardEditor.js:197 | a front without `$` is inserted verbatim in place of each `{{FrontSide}}`; a back without it is left alone |
| CardEditor.TemplatePreview | frontend/src/components/CardEditor.js:167-206 | a template without "{{" on either side is previewed as it is |
| CardEditor.PreviewWithoutBraces | frontend/src/components/CardEditor.js:167-206 | a template without "{{" is previewed unchanged on both sides |
| CardEditor.FrontSideHasNoCloze | frontend/src/components/CardEditor.js:189-194 | the back's cloze pass leaves `{{FrontSide}}` alone |
| CardEditor.FrontSideBackIsFront | frontend/src/components/CardEditor.js:189-204 | a back that is just `{{FrontSide}}` previews exactly as the front when the cloze-rendered front has no `$` |
| CardEditor.FrontBlankVersusCardOne | frontend/src/components/CardEditor.js:181-186 | the editor's front blank equals the backend's card 1 when a hint is given; without one it shows `[...]` where the backend shows `[[...]]` |
| CardEditor.BackReveal | frontend/src/components/CardEditor.js:191-193 | the editor reveals every cloze the way the backend reveals a card's own |
| CardEditor.FrontFieldAsCardOne | frontend/src/components/CardEditor.js:178-187 | a field whose index-1 clozes all have hints previews on the front as the backend's card 1 |
| CardEditor.BackFieldAsCard | frontend/src/components/CardEditor.js:189-194 | a field whose clozes all share index k previews on the back as the backend's card k |
| Notes.ZipFields | backend/src/models/Note.js:89-92 | the dictionary's keys are exactly the field names |
| Notes.ZipFieldsLastWins | backend/src/models/Note.js:90-92 | a repeated name maps to the value at its last position |
| Notes.ZipFieldsIgnoresExtra | backend/src/models/Note.js:90-92 | values past the last name are never read |
| Notes.GetFieldsObject | backend/src/models/Note.js:84-94 | the loop gives every name as a key, each mapped to the value at its last position, or '' past the end of the values (`fields[i] \|\| ''`) |
| Notes.GetTagsArray | backend/src/models/Note.js:99-104 | no tags for a missing or blank column; otherwise non-empty, whitespace-free tokens that join to the trimmed text with runs collapsed |
| Notes.TagsRoundTrip | backend/src/models/Note.js:99-104 | clean tags written as one space-separated string read back as the same tags |
| Notes.FindDuplicates | backend/src/models/Note.js:49-64 | exactly the rows of the note type whose first field is the value, never the excluded note, each as often as it occurs |
| Notes.IsDuplicate | backend/src/models/Note.js:50-60 | a duplicate's first field is the value; the excluded note is never one; without an exclusion, a row is one exactly when it has the type and that first field |
| Notes.LikeAnything | backend/src/models/Note.js:74 | `LIKE '%'` matches every text |
| Notes.LikePlainPrefix | backend/src/models/Note.js:74 | a plain pattern prefix must be a prefix of the text |
| Notes.LikeLeadingPercent | backend/src/models/Note.js:74 | a leading `%` lets the rest match from any position |
| Notes.LikeContains | backend/src/models/Note.js:74-77 | with a plain pattern, `LIKE '%p%'` is exactly the substring test |
| Notes.Like | backend/src/models/Note.js:74 | a pattern without `%`, `_` or `\` matches exactly the equal text |
| Notes.FindByTags | backend/src/models/Note.js:71-79 | exactly the rows whose tags match the pattern (a substring test for a plain one), each as often as it occurs |
| Notes.TagsMatch | backend/src/models/Note.js:74-77 | a null tags column never matches; a plain pattern matches a non-null column exactly when it is a substring |
| Notes.SegmentMatches | backend/src/models/Note.js:77 | a middle segment of a hierarchical tag finds the whole tag |
| TagInput.ParseTags | frontend/src/components/TagInput.js:11-13 | every parsed tag is non-empty and whitespace-free |
| TagInput.ParseTagsAgreesWithBackend | frontend/src/components/TagInput.js:11-13 | the editor parses tags exactly as `Note.getTagsArray` does |
| TagInput.ParseJoined | frontend/src/components/TagInput.js:11-13 | clean tags joined with spaces parse back to the same tags |
| TagInput.HandleKeyDown | frontend/src/components/TagInput.js:15-31 | Enter with a non-blank input clears it and appends the trimmed input unless it is already a tag; Backspace in an empty input drops the last tag; any other key changes nothing |
| TagInput.EnterAppendsTag | frontend/src/components/TagInput.js:16-25 | a new one-word tag is appended at the end, and a list without duplicates stays without |
| TagInput.EnterSplitsSpacedInput | frontend/src/components/TagInput.js:18-22 | an input with inner whitespace is added whole and re-parses as several tags, so `x y` on top of `x` gives `x x y` |
| TagInput.BackspaceRemovesLast | frontend/src/components/TagInput.js:26-29 | Backspace removes exactly the last tag and keeps the others in order |
| TagInput.RemoveTag | frontend/src/components/TagInput.js:33-36 | every occurrence of the tag is gone; the others keep their order and multiplicity |
| TagInput.RenderTagLabel | frontend/src/components/TagInput.js:39-54 | a tag with "::" is shown as parts (more than one, none containing "::") that join back to the tag; any other tag as it is |
| CardBatch.CardParams | backend/src/models/Card.js:28-35 | a card's six parameters follow the column list; an empty source_url and a zero note_id become NULL; a missing ord becomes 0 |
| CardBatch.Params | backend/src/models/Card.js:28-35 | the flat list has 6n parameters, parameter k being column k mod 6 of card k div 6 |
| CardBatch.GroupNumbers | backend/src/models/Card.js:23-26 | group i holds the numbers 6i+1 to 6i+6 |
| CardBatch.AllNumbers | backend/src/models/Card.js:23-26 | the placeholders of n groups are 1 to 6n in order |
| CardBatch.Dollars | backend/src/models/Card.js:25 | each number is written as `$` and its decimal digits |
| CardBatch.CreateMany | backend/src/models/Card.js:20-45 | no query for an empty list; otherwise the text joins one group per card, slot k mod 6 of group k div 6 reads `$k+1`, and that placeholder is bound to parameter k, column k mod 6 of card k div 6 |
| CardBatch.PlaceholderSlots | backend/src/models/Card.js:23-26 | slot k mod 6 of group k div 6 is the placeholder `$k+1` |
| CardBatch.GroupsListAllNumbers | backend/src/models/Card.js:23-26 | the groups of the VALUES text list the numbers 1 to 6n, group by group |
| CardBatch.FirstGroups | backend/src/models/Card.js:4 | one card uses `$1` to `$6`, and a second continues at `$7` |
| RateLimit.CeilDiv | backend/src/middleware/rateLimit.js:53 | `Math.ceil(x / d)` is the least r with x ≤ r·d |
| RateLimit.FirstHop | backend/src/middleware/rateLimit.js:36 | the trimmed text before the first comma of x-forwarded-for |
| RateLimit.ClientKey | backend/src/middleware/rateLimit.js:35-38 | the first non-empty of `req.ip`, the first forwarded hop, remoteAddress and 'unknown' |
| RateLimit.RateLimitStep | backend/src/middleware/rateLimit.js:41-62 | a missing or expired entry opens a window of one; below the maximum the count rises by one; at the maximum the request is refused with the message and the seconds left, and the entry stays |
| RateLimit.OnlyKeyChanges | backend/src/middleware/rateLimit.js:41-62 | only the requesting key's entry can change |
| RateLimit.StepKeepsCountsBounded | backend/src/middleware/rateLimit.js:43-62 | a single limiter with a maximum of at least 1 keeps every count between 1 and the maximum |
| RateLimit.RetryAfterBounds | backend/src/middleware/rateLimit.js:53 | the Retry-After wait lies between 0 and the window in whole seconds |
| RateLimit.SharedMapAcrossLimiters | backend/src/middleware/rateLimit.js:7-82 | the API limiter's twentieth request in a minute makes the authentication limiter refuse the next one |
| RateLimit.Survivors | backend/src/middleware/rateLimit.js:12-16 | the cleanup keeps exactly the entries at most 60000 ms old, unchanged |
| RateLimit.CleanupKeepsCountsBounded | backend/src/middleware/rateLimit.js:10-17 | the cleanup keeps the counts bounded |
| RateLimit.CleanupCutsAuthWindowShort | backend/src/middleware/rateLimit.js:10-73 | the cleanup ignores the limiter's window: an authentication key refused 60001 ms into its window is allowed again after the cleanup |
| RateLimit.RequestCounts.constructor | backend/src/middleware/rateLimit.js:7 | the map starts empty |
| RateLimit.RequestCounts.Handle | backend/src/middleware/rateLimit.js:33-63 | one request updates the shared map and returns the verdict of the step for the client's key |
| RateLimit.RequestCounts.Cleanup | backend/src/middleware/rateLimit.js:10-17 | the timer's callback leaves exactly the surviving entries |
| Validate.ParseIntOfNonNumbers | backend/src/middleware/validate.js:36 | undefined, null and booleans parse to NaN |
| Validate.JsParseIntIsParseInt | backend/src/middleware/validate.js:36 | `JsParseInt` is `parseInt(String(v), 10)`: a number comes back unchanged, undefined, null and booleans give NaN, and a string is parsed |
| Validate.RequireFields | backend/src/middleware/validate.js:10-25 | passes exactly when no listed field is undefined, null or ''; otherwise names exactly the missing fields, in list order, ", " apart |
| Validate.IdLookup | backend/src/middleware/validate.js:34 | route parameter first, then query, then body, each falling through when falsy |
| Validate.IdsOutcome | backend/src/middleware/validate.js:31-46 | passes exactly when every id is undefined or parses to a positive integer; otherwise names the first that does not |
| Validate.FalsyBodyValueRejected | backend/src/middleware/validate.js:34-41 | a falsy body value that is present is rejected, not skipped |
| Validate.AbsentIdSkipped | backend/src/middleware/validate.js:34-35 | an id is skipped whenever the `||` chain yields undefined: falsy in the route and query and undefined in the body, so `?id=` without a body id is skipped too |
| Validate.WithDefaults | backend/src/middleware/validate.js:77-80 | page and limit default to 1 and 50, and the offset is (page − 1) × limit |
| Validate.WithDefaultsInOrder | backend/src/middleware/validate.js:77-80 | writing page, limit and offset one after another gives those defaults |
| Validate.Pagination | backend/src/middleware/validate.js:51-83 | passes exactly when page and limit are acceptable; a bad page leaves the request's pagination alone, a bad limit answers 400, and a pass stores page, limit and offset |
| Validate.PaginationOfFreshRequest | backend/src/middleware/validate.js:54-80 | on a fresh request an accepted page is at least 1, a limit within 1..100, and the offset never negative |
| Validate.PaginationDefaults | backend/src/middleware/validate.js:77-80 | without page or limit, the request gets page 1, limit 50 and offset 0 |
| Validate.SanitizeField | backend/src/middleware/validate.js:92-94 | one field holding a string is trimmed; the keys and every other entry stay |
| Validate.Sanitize | backend/src/middleware/validate.js:91-95 | the loop keeps the body's keys |
| Validate.SanitizeNext | backend/src/middleware/validate.js:91-95 | one more turn of the loop handles one more field |
| Validate.SanitizeEntries | backend/src/middleware/validate.js:91-95 | after a prefix of the fields, each listed string entry is trimmed and the rest are untouched |
| Validate.SanitizeAll | backend/src/middleware/validate.js:89-98 | the listed string fields are trimmed, and every other entry and the keys stay |
| Validate.SanitizeIdempotent | backend/src/middleware/validate.js:89-98 | sanitizing twice is sanitizing once |
| Validate.JsTrimIdempotent | backend/src/middleware/validate.js:93 | `trim` is idempotent |
| Validate.SanitizeStringsTrims | backend/src/middleware/validate.js:89-98 | `sanitizeStrings` with `trim` trims the listed string fields, changes nothing else, and changes nothing when run again |
| Validate.SanitizeLoop | backend/src/middleware/validate.js:91-95 | the `for` loop computes the sanitized body |
| Validate.Quality | backend/src/middleware/validate.js:103-121 | a missing or null quality, or one that is NaN or outside 0..5, answers 400 and leaves the body alone; otherwise only the quality changes, to the parsed integer in 0..5 |
| Validate.ParseIntStopsAtDot | backend/src/middleware/validate.js:112 | parseInt of "4.9" is 4 |
| Validate.QualityTruncates | backend/src/middleware/validate.js:112-119 | a quality of "4.9" is stored as 4 |
| Validate.QualityOfNumbers | backend/src/middleware/validate.js:106-117 | an in-range number is kept; false and '' are invalid rather than missing |
| Validate.Request.constructor | backend/src/middleware/validate.js:51 | a request carries its parameters, query and body, and no pagination yet |
| Validate.Request.ValidateIds | backend/src/middleware/validate.js:31-46 | the loop stops at the first rejected id and gives the specified outcome |
| Validate.Request.ValidatePagination | backend/src/middleware/validate.js:51-83 | the outcome and the new `req.pagination` are the specified step, and nothing else in the request changes |
| Validate.Request.SanitizeStrings | backend/src/middleware/validate.js:89-98 | the body becomes the sanitized body, and nothing else in the request changes |
| Validate.Request.ValidateQuality | backend/src/middleware/validate.js:103-121 | the outcome and the new body are the specified step, and nothing else in the request changes |

## Left out

- HTTP plumbing is not modelled: Express, `res.status(...).json(...)`, the `Retry-After` header and `next()`. A validator's result is `Next` or `BadRequest(message)`; the rate limiter's is `Allow` or `TooMany(message, retryAfter)`.
- SQL is not modelled: `pool.query`, the upsert and `getReview` in `CardReview.js`, the rows `createMany` returns, and the `ORDER BY created_at DESC` of `findByTags`. Rows are Dafny sequences: the filters keep their order, and `getDueCards` is sorted by due date.
- IEEE doubles are not modelled. Ease factors are exact reals, so rounding at .5 boundaries and the 32-bit `REAL` column are not captured. Validator numbers are integers.
- Dates and clocks are not modelled: `new Date()`, `setDate`, `Date.now()` and the five-minute `setInterval`. Days and milliseconds are integer parameters, and the timer is the `RateLimit.RequestCounts.Cleanup` method called by the clock's owner.
- `JSON.parse` of a note's fields and of a note type's config is not modelled. Fields are a sequence of strings; the config is a record whose missing keys are `None`, and a template always has a front and a back.
- Object keys are plain strings. Prototype keys such as `__proto__` or `constructor` are not modelled.
- `createPreviewHtml` is not modelled. It is a fixed HTML document around its arguments, with nothing to state beyond its text.
- `escapeHtml(null)` and other non-string inputs are not modelled. The model takes a string, so only the empty-string case of `if (!text)` is modelled.
- CardEditor.ReplaceEach: each field name is taken as literal text, whereas the source builds `new RegExp` from it. For a name with regex metacharacters the model and the source differ.
- CardEditor.EntryOrder: states that `Object.entries` lists every name once, ordered by first assignment. JavaScript's rule that integer-like keys come first is not modelled.
- The editor's `{{FrontSide}}` and field replacements (`frontend/src/components/CardEditor.js:197,202`) are modelled as written, with `$` patterns expanded. `CardEditor.FrontSideBackIsFront` therefore holds only for fronts without `$`.
- TemplateEngine.GeneratedCards and TemplateEngine.GenerateCardsFromNote render with the corrected `{{FrontSide}}` pass (the `backend/src/utils/templateEngine.js:47` row under Findings). For a front containing `$$`, `$&`, `` $` `` or `$'`, their backs differ from the source's; `TemplateEngine.RenderTemplateAsWritten` gives the source's back.
- Strings are sequences of Unicode scalar values, whereas JavaScript strings are UTF-16 code units. Outside the Basic Multilingual Plane, positions and lengths differ from the source's, for example the position `Cloze.ToCloze` records for a cloze.
- Integers are unbounded. `parseInt` and JavaScript numbers lose precision above 2^53; the model does not. So `JsText.ParseInt` and `Validate.JsParseInt` are exact for every length of digit string, and the cloze index compared with the ordinal and the ids the validators check are never rounded.
- React state and hooks are not modelled. `TagInput` and `CardEditor` handlers take the current values and return what they pass on.
- CardReview.GetDueCards: rows with equal due dates are put in a fixed order. SQL leaves the order of ties unspecified, so the model promises only sortedness and the exact multiset.
- Notes.Like: a pattern ending in a lone backslash is an error in PostgreSQL; the model makes it match nothing. `findByTags` only builds `%...%` patterns, which never end that way.
- Validate.Sanitize: the loop is stated for any trimming function. The lemmas apply it to `String.prototype.trim`, and `Validate.Request.SanitizeStrings` uses that one.
- Validate.Request.ValidatePagination: the object is built in a local variable and stored on every exit. This is the same observable state as writing `req.pagination` field by field, including the page stored before a bad limit.
- Validate.Pagination: an existing `req.pagination` is a map over page, limit and offset only. Other keys a caller may have put there are not modelled.
- Only the core is modelled. These are not part of this model:
  - the controllers, routes, `db.js` and `logger.js`;
  - the browser extensions;
  - the API clients;
  - the Android and iOS views;
  - the other React components.

## Findings

| source | as written | input that shows it | evidently intended | confidence | as-written member | corrected member |
|---|---|---|---|---|---|---|
| backend/src/models/CardReview.js:9-13 | `let { easeFactor, interval, repetitions } = review \|\| {...}` reads `easeFactor` from a `card_reviews` row, whose column is `ease_factor` (line 39); the ease is undefined and the new ease is NaN | a card with stored state ease 2.6, interval 6, repetitions 2, reviewed with quality 5: ease and interval NaN | read the stored ease (2.6), giving ease 2.7 and interval 16 | not executed; the database pool module is not part of this model, and the column names come from the INSERT in the same function | CardReview.ReviewCardAsWritten, CardReview.AsWrittenLosesStoredEase | CardReview.ReviewCard |
| backend/src/utils/templateEngine.js:47 | `result.replace(/\{\{FrontSide\}\}/g, frontContent)` passes the front as a replacement string, so `$$`, `$&`, `` $` `` and `$'` in it are expanded | a front rendered as `$$x$$` (display math) on a back template `{{FrontSide}}` comes out as `$x$` | insert the front content verbatim | not executed | TemplateEngine.RenderTemplateAsWritten, TemplateEngine.FrontSideDollarLost | TemplateEngine.RenderTemplate, TemplateEngine.FrontSideDollarKept |
