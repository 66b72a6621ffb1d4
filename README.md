# Emotional-test engine and pet-persona quiz, in Dafny

This project models the deterministic core of a small browser application. The
application runs two configurable self-assessment tests and a pet-persona MBTI quiz:

- **Template renderer** (`template.dfy`, `jsvalue.dfy`, `text.dfy`). `getByPath` resolves a
  dotted path such as `a.b[0]` against a JavaScript value; every failure gives `""`.
  `renderTemplate` replaces every `{{ path }}` placeholder; `renderTemplateArray` renders a
  list, an absent list giving `[]`.
- **Scorer** (`scoring.dfy`). `scoreAnswer`, the weighted per-dimension sums and the
  unclamped normalisation `Math.round((raw - floor) / range * 100)` (floor 3 and range 12 for
  the relationship test, 4 and 16 for the emotional test), shared by both tests. The
  per-dimension table is built by loops (`BuildDims`) proved equal to a specification
  (`DimsSpec`).
- **Ranked/mix classifier** (`relationship.dfy`, `ranking.dfy`). `computeRelationship` sorts
  the dimensions by raw score (a stable sort), then classifies: a `single` result keyed by
  the leading dimension, or a `mix` result rendered from templates when the lead is within
  the inclusive mix threshold (default 2). It then builds the caption and the share payload.
- **Archetype/index classifier** (`emotional.dfy`). `pickTier`, `evalCondition`,
  `matchArchetype`, the exhaustion/protection means, the ELI index, driver and weak
  dimensions with earliest-code tie-break, and the first-match archetype scan with its two
  fallbacks. Then the personalisation chips and the share payload.
- **Share codec** (`base64url.dfy`, `utf8.dfy`). Base64url (section 5 of RFC 4648) with the
  padding of section 3.2 removed, applied to the UTF-8 form (RFC 3629) of the text; decoding
  is the forgiving `atob` followed by strict UTF-8 decoding.
- **Reconstruction** (`share.dfy`). `loadFromShare` rebuilds a displayed result from a
  payload alone, as a class `App` holding the application state it writes.
- **MBTI quiz** (`quiz.dfy`). The quiz `state` is a class whose `Choose` increments one
  counter and advances the cursor, and whose `FinishQuiz` reads one letter off each pair.
- **Report** (`report.dfy`). `normalizeScore`, the profile fallback to `INFP`, the metric bar
  width and the default name.

JavaScript values are the datatype `JValue`; numbers in the model are integers, which every
number in this core is. `Math.round` is modelled exactly as "halves go up":
`Round(n, d) = floor((2n + d) / 2d)`. A thrown `TypeError` is the `TypeError` case of
`Outcome`. `JSON.stringify`/`JSON.parse` are passed in as functions. The clock (`nowISO`)
and the nickname in the application state are parameters.

In a few places the code does something other than its purpose suggests. There the model follows the code:

- `loadFromShare` does not look at the payload's version field `v`: any version is accepted.
- A reversed answer scores `6 - answer`, a constant scale, whatever the test declares.
- A `single` result whose code has no authored entry throws a `TypeError`, both in
  `computeRelationship` and in `loadFromShare` (where the catch turns it into `false`).
- Reconstruction looks a dimension up with `find`, the first definition of a code. The
  scoring table keeps the last definition. Reconstructed mix content therefore equals the
  original only when no two dimensions share a code; the lemmas state this condition.

## Model

| member | source | states |
|---|---|---|
| Template.GetByPath | app.js:105-121 | the loop that walks the path segments returns exactly the specification `GetByPathSpec` |
| Template.NullIntermediate | app.js:108-109 | a null or undefined value before any later segment makes the result `""` |
| Template.MalformedSegment | app.js:110-111 | a segment not of the form `word` or `word[digits]` makes the result `""` |
| Template.IndexOnNonArray | app.js:114-117 | an index applied, in the last segment, to something that is not an array makes the result `""` |
| Template.IndexOnNonArrayGoesOn | app.js:114-117 | an index applied, before the last segment, to something that is not an array does not stop the walk: the remaining segments are read from `""` |
| Template.LengthAfterNonArrayIndex | app.js:112-120 | so `key[i].length` on a key that holds no array gives `"0"` |
| Template.ResolvedValue | app.js:119-120 | a resolved null or undefined gives `""`, any other value gives `String(value)` |
| Template.ParseSegment | app.js:110-116 | a segment parses exactly when it matches `^[A-Za-z0-9_]+(\[\d+\])?$`, into its key and index |
| Template.RenderPlaceholder | app.js:123-125 | a `{{expr}}` at the front renders as `getByPath(ctx, expr.trim())` followed by the rendered rest |
| Template.RenderPlain | app.js:123-125 | a string without `{{` renders to itself |
| Template.RenderLiteralPrefix | app.js:123-125 | text before the first `{` is copied through unchanged |
| Template.MissingKey | app.js:112-113 | a key the object does not have gives `""` |
| Template.RenderMissingKey | app.js:123-124 | `{{key}}` for a key the context does not have renders as nothing, and the rest is rendered on |
| Template.RenderStringKey | app.js:123-124 | `{{key}}` for a key holding a string renders as that string, and the rest is rendered on |
| Template.RenderTwoSlots | app.js:123-124 | literal text around two placeholders whose keys hold strings renders as the text with the two strings put in |
| Template.RenderThreeSlots | app.js:123-124 | the same with three placeholders |
| Template.IndexedSegment | app.js:110-115 | `key[digits]` parses into the key and the number the digits spell |
| Template.KeyIndex | app.js:112-117 | `key[i]` on an array gives element `i` as text, or `""` when there is no such element or it is null or undefined |
| Template.ResolveKeys | app.js:105-121 | a path of plain keys that are all present leads to the value nested there |
| Template.ResolveAppend | app.js:108-118 | walking a path in two pieces is walking the first piece and then the second from where the first ended |
| Text.JoinSplitDots | app.js:106 | splitting at the dots loses nothing: joining the pieces with dots gives the path back |
| Template.RenderAll | app.js:126-128 | an absent list renders to `[]`; otherwise the result has the same length and each element is that element rendered |
| Base64Url.Encode | app.js:83-86 | the token contains no `+`, `/` or `=`: every character is in the URL-safe alphabet |
| Base64Url.DecodeEncode | app.js:83-92 | decoding the encoding of any text gives that text back |
| Base64Url.Decode | app.js:87-92 | the padding loop and the decoding steps return exactly `DecodeSpec` |
| Base64Url.EncodeNonEmpty | app.js:83-86 | a non-empty text never encodes to the empty token |
| Utf8.DecodeEncode | app.js:84 | UTF-8 decoding of the UTF-8 encoding of any text gives the text back |
| Utf8.StrayByteRejected | app.js:91 | text starting with a continuation byte, or with a byte that never starts a UTF-8 sequence (C0, C1, F5-FF), fails to decode, so the share link is rejected |
| Scoring.ScoreAnswerFacts | app.js:165-169 | no answer scores 0; a reversed answer is `6 - ans`, so reversed and plain scores add up to 6; answers 1..5 score 1..5 |
| Scoring.DimSumOwnQuestions | app.js:175-180 | a dimension's raw sum depends only on its own questions and their answers |
| Scoring.DimSumBounds | app.js:175-180 | with unit weights and answers in 1..5, a raw sum lies between its question count and five times it |
| Scoring.BuildDims | app.js:172-185 | the table-building loops give exactly `DimsSpec`: one entry per code in first-definition order, the last definition's metadata, and a `TypeError` when a question names an unknown dimension |
| Scoring.UnclampedExample | app.js:184 | normalised scores are not clamped: raw 0 gives -25 in both tests |
| Scoring.RoundHalves | app.js:184 | `Math.round` takes halves up on both sides of zero |
| Scoring.LastDefIsLast | app.js:173 | a code's table entry holds the last definition with that code |
| Scoring.Dim100MapAt | app.js:305-311 | with distinct codes, `dim100` maps every code to its own normalised score |
| Ranking.SortDescPermutation | app.js:187 | sorting keeps exactly the same elements, as many times each |
| Ranking.SortDescSorted | app.js:187 | the sorted sequence is in descending order of raw score |
| Ranking.SortDescHead | app.js:187-189 | the first two elements are the earliest maximum, then the earliest maximum of the rest (stable ties) |
| Relationship.Leaders | app.js:187-189 | `sorted[0]` and `sorted[1]` are the primary and the runner-up as defined by first maxima |
| Relationship.Classify | app.js:187-260 | fewer than two dimensions, or a single result without an authored entry, is a `TypeError`; `diff >= 0`; the kind is `mix` exactly when `diff <= threshold`; the mix code is `primary + "x" + secondary`; content, dims, hashtags, payload and the caption (rendered with the single entry's poster title or name, or the rendered mix title) are stated field by field |
| Relationship.ComputeRelationship | app.js:171-263 | the scoring loops followed by classification return exactly `RelationshipSpec` |
| Relationship.RelationshipScores | app.js:172-185 | a relationship result lists every defined code in order, with its weighted raw sum and `Math.round((raw - 3) / 12 * 100)` |
| Relationship.MixBoundary | app.js:191 | a lead of exactly the threshold is a mix; one more is a single result |
| Relationship.RenderMix | app.js:209-225 | the mix body has as many lines as the template body, and a poster exists exactly when the template has one |
| Relationship.DefaultCaptionText | app.js:238-246 | without an authored caption template the caption is `我的结果：`, the result title without its `安全感密码：` prefix, a line break and the hashtags joined by spaces |
| Relationship.NeedLineCaption | app.js:240-245 | a caption template `{{needLine}}` gives the core need of the first dimension defined with the primary code, or `""` when none is |
| Emotional.TierOf | app.js:265-270 | the label of the first tier whose inclusive range holds the index; `未知` when none does |
| Emotional.PickTier | app.js:265-270 | the loop with its early return gives exactly `TierOf` |
| Emotional.EvalCondition | app.js:272-283 | a missing dimension or an unknown operator is false; `>=`, `<=`, `>`, `<` and `==` each compare the score with the value as stated |
| Emotional.Every | app.js:289 | `every` holds exactly when each condition holds (vacuously for none) |
| Emotional.Some_ | app.js:290 | `some` holds exactly when one condition holds |
| Emotional.MatchArchetype | app.js:285-292 | all `all` conditions hold, and some `any` condition holds unless the `any` list is empty |
| Emotional.FirstMatch | app.js:326-328 | the index of the first matching archetype, and none exactly when no archetype matches |
| Emotional.FindArchetype | app.js:332 | `find` by code: the archetype found has that code and is the first in the list with it; none exactly when no code matches |
| Emotional.SelectedArchetype | app.js:325-333 | none exactly when the list is empty; otherwise an archetype from the list: the first match, else the mapped archetype, else the first |
| Emotional.SelectArchetype | app.js:324-333 | the scan with `break` and the fallback give exactly `SelectedArchetype` |
| Emotional.FirstMatchWins | app.js:326-328 | of two matching archetypes the earlier is found first |
| Emotional.Eli | app.js:315 | ELI is the integer nearest `0.7 * exhaustion + 0.3 * (100 - protection)`, halves up |
| Emotional.EliRange | app.js:313-315 | scores on 0..100 give an index on 0..100, rising with exhaustion and falling with protection |
| Emotional.Driver | app.js:319-320 | the driver is a cost dimension with the highest score, the earliest of OUT, MASK, FIX on a tie |
| Emotional.Weak | app.js:321-322 | the weak dimension is a protective dimension with the lowest score, the earliest of BND, REC, EXP on a tie |
| Emotional.Classify | app.js:313-392 | an empty archetype list is a `TypeError`; otherwise the means, ELI, tier, driver, weak, archetype, chips, caption, hashtags and payload are stated field by field |
| Emotional.ComputeEmotional | app.js:294-395 | the loops, the tier loop and the archetype scan return exactly `EmotionalSpec` |
| Emotional.DefaultCaptionText | app.js:352-364 | without an authored caption template the caption is `我的情绪劳动指数：`, the index in decimal, the tier in full-width brackets, a line break and the hashtags joined by spaces |
| Emotional.OneActionCaption | app.js:354-362 | a caption template `{{oneAction}}` gives the archetype's first repair step, or the weak dimension's fix when it lists none |
| Emotional.DimsHoldCodes | app.js:305-311 | when the test defines the six index codes, `dim100` holds all six |
| Emotional.FallbackCompleteness | app.js:325-333 | whenever the catalog is non-empty, the computation succeeds and its archetype is from the catalog |
| Share.TokenRoundTrip | app.js:398-411 | a payload survives the token unchanged, and the token is URL-safe |
| Share.LoadOwnToken | app.js:404-411 | opening the token of a payload shows what that payload reconstructs to |
| Share.ViewDims | app.js:431 | the rebuilt `dims` table keeps each code and score in order, with raw 0 |
| Share.ReconstructRanked | app.js:413-465 | a mix when the payload says so or its diff (99 if absent) is within the threshold; a single result without an authored entry throws |
| Share.ReconstructIndex | app.js:476-513 | ELI, tier, driver and weak are copied; the archetype is found by code, else the first one, else none |
| Share.App.LoadFromShare | app.js:404-529 | returns true exactly when `LoadOutcome` shows something; the test key and nickname are stored once the payload's test is known, even if the reconstruction then throws; the displayed result, screen and share flag change only on success |
| Share.RankedReconstruction | app.js:250-260 | rebuilding a relationship result from its own payload gives the same kind, codes, diff, scores and single entry, and the same mix content when dimension codes are distinct |
| Share.RelationshipRoundTrip | app.js:413-465 | a relationship result opened from its own share link shows the same classification |
| Share.IndexReconstruction | app.js:481-498 | rebuilding an emotional result from its own payload gives the same index, tier, driver, weak, chips and `dim100`, and the same archetype when archetype codes are distinct |
| Share.EmotionalRoundTrip | app.js:381-392 | an emotional result opened from its own share link shows the same classification and chip lines |
| Quiz.QuestionPair | script.js:1-114 | question `q` carries the two letters of pair `q % 4` |
| Quiz.AskedBlocks | script.js:1-121 | every block of four questions asks about each pair once |
| Quiz.CountAnswer | script.js:159-160 | counting one answer keeps the counters consistent with the cursor |
| Quiz.CountersTotal | script.js:123-135 | consistent counters add up to the number of questions answered |
| Quiz.QuizState.Choose | script.js:156-166 | exactly one counter, the picked option's letter, goes up by one; the cursor advances by one; the result is stored exactly when the last question is answered; the counter invariant is kept |
| Quiz.QuizState.FinishQuiz | script.js:168-186 | stores the trimmed name, the four-letter code and the counters |
| Quiz.QuizState.constructor | script.js:123-135 | the quiz starts at the first question with all eight counters at zero |
| Quiz.Counted | script.js:157-159 | the picked letter's counter is one higher and every other counter is unchanged |
| Quiz.Letters | script.js:171-173 | one letter per pair, in pair order; the first letter of a pair exactly when its count is at least the second's |
| Quiz.Mbti | script.js:116-121 | a four-letter code whose k-th letter comes from the k-th pair, ties going to E, S, T, J |
| Quiz.FullQuizPairs | script.js:1-121 | after all sixteen answers each pair's counters add up to four and all eight to sixteen |
| Report.ProfileKey | report.js:221 | the profile shown is always an authored one: the code's own when authored, otherwise INFP |
| Report.QuizCodesHaveProfiles | report.js:1-178 | every code the quiz can produce has its own profile, so the fallback never applies to a quiz result |
| Report.NormalizeScore | report.js:180-193 | the eight keys; a zero counter gives 0; a zero total is replaced by one; otherwise each value is the rounded percentage of the total |
| Report.PercentNearest | report.js:184-191 | a percentage is the integer nearest `100 * x / total`, halves up |
| Report.NormalizeBounds | report.js:180-193 | with non-negative counters every value lies in 0..100 and larger counters never get smaller values |
| Report.FinishedQuizPercentages | report.js:180-193 | after a finished quiz the two sides of each pair add up to 25 (26 on a 2-2 tie), since the percentages are over all sixteen answers |
| Report.BarWidth | report.js:195-197 | the bar width is the larger of the left percentage and 6, so never below 6 |
| Report.DisplayName | report.js:223 | the heading name is never blank: the stored nickname when it is non-empty, `你` when it is empty |
| Report.Report | report.js:205-223 | nothing stored shows no report; otherwise the stored code, its profile with the INFP fallback, the nickname or `你`, and the normalised percentages of the stored counters |
| Report.ReportOfFinishedQuiz | report.js:219-223 | the report of a finished quiz shows that quiz's own code and profile, with percentages in 0..100 |

## Left out

- DOM rendering, navigation, touch gestures, modal, toast and the canvas, SVG and poster
  drawing: presentation with no decisions of the core in it.
- Persistence (`localStorage`), `location.hash`, `URLSearchParams` and `decodeURIComponent`:
  `LoadFromShare` takes the already extracted `share` parameter ("" when absent), and the
  report takes the stored result as a value.
- JSON text: `JSON.stringify` and `JSON.parse` are function parameters. The round-trip lemmas
  assume parsing reads back what stringifying wrote.
- Timestamps (`nowISO`, `Date.now`): a string parameter, or left out of the quiz result.
- Floating point: every quotient is computed exactly. For the report this changes nothing: the
  quiz's totals are sixteen, which makes every quotient a short binary fraction. For the ELI it
  does change results; see the next line.
- Emotional.Eli: computes `0.7 * exhaustion + 0.3 * (100 - protection)` exactly, as
  `(7 * exhaustion + 3 * (100 - protection)) / 10`, and rounds halves up. The source
  (app.js:315) computes it in IEEE doubles, where an exact half often lands just below it and
  `Math.round` goes down. Example: exhaustion 2 and protection 13 give the double
  `27.499999999999996`, so the source shows 27, while `Eli(2, 13)` is 28. Such ties are
  reachable from real answers. Where this happens, the model's ELI is one higher than the
  source's, and so is everything derived from it: the tier, the caption's `{{ELI}}` and the
  share payload (`Emotional.Classify`, `Emotional.EmotionalSpec`).
- Payload fields of the wrong JSON type, and `nickname` values other than strings: the
  payload is a datatype with typed fields.
- Emotional.EmotionalSpec: requires the test to define the six codes OUT, MASK, FIX, BND, REC
  and EXP. Without them the source computes with `undefined`, which is not modelled.
- Share.EmotionalRoundTrip: states no caption equality. The reconstruction sets the caption
  to `""` on purpose, and a single relationship result uses `t.shareCopy` in place of the
  computed caption.
- Dimension codes that look like array indices (such as `"1"`): `Object.keys` would list
  them first, in numeric order. The model keeps definition order.
- The quiz's question texts and the profiles' prose: presentation only. The model keeps each
  option's letter and the set of profile codes.
- `state.scores` values read back from storage that are not the eight integer counters: the
  report requires the eight keys.
- JsValue.Get: a string is a sequence of Unicode scalar values, so its `length` and `s[i]`
  count characters. JavaScript counts UTF-16 code units: an emoji has `length` 2 in the source
  and 1 in the model, and `s[0]` of an emoji is a lone surrogate in the source. Lone surrogates
  cannot occur in the model at all. So the `URIError` that `encodeURIComponent` throws on one
  (app.js:84, 401) is not modelled.
- `JsValue.Get` reads own properties only. Inherited properties such as `constructor` or
  `toString`, which `cur[key]` would also find, are not modelled.
- Template strings that are absent from the configuration: the model gives every template
  field a string value, "" when absent. The same holds for a dimension's `meaning` and
  `coreNeed` (`""`) and its `microFix` (`[]`) as templates see them (`Config.DimValue`).
  So `{{primary.microFix.length}}` for an absent `microFix` gives `"0"` in the model and `""`
  in the source. In the source an absent mix `title` renders as
  `"undefined"` through `String(str)` (app.js:123, 221). A single entry with neither a poster
  title nor a name throws at `resultTitle.replace` (app.js:198, 243). The model gives `""` and
  no error in both cases.
- Quiz.QuizState.Choose: requires a question under the cursor. A click after the last answer
  reads `questions[state.current]` as `undefined` and throws a `TypeError` (script.js:157-158);
  that error is not modelled.
