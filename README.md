# Thalassemia quiz — a verified model of its core

The application is a Next.js quiz about thalassemia. A player answers three random questions,
one card at a time, and gets a score, a grade and a message. Attempts are stored and ranked on
a leaderboard. A "spin the wheel" page teaches one topic per spin and asks one question about it.

This project models the logic behind those screens and routes, and proves properties of it:

- `quiz_service.dfy` (module `QuizService`): the scoring service. It covers the meta score
  (accuracy plus a time bonus), the grade ladder, the personalised message, the result record,
  `formatTime` and the Fisher–Yates `shuffleArray`.
- `leaderboard.dfy` (module `Leaderboard`): the leaderboard endpoint. It reads the
  `leaderboard` view, or falls back to grouping raw attempts by user when that relation is
  missing. The fallback keeps each user's best row, sorts by best score and truncates to the
  limit.
- `quiz_api.dfy` (module `QuizApi`): the quiz endpoint.
  - `GET` picks question ids in shuffled order and fetches their questions.
  - `POST` checks the attempt field by field and then inserts it.
- `quiz_card.dfy` (module `QuizCard`): the question card, as the class `Card`. It toggles
  options of multi-select questions, judges the selection, and submits once.
- `quiz_page.dfy` (module `QuizPage`): the quiz page. It loads a session, records answers
  through the class `Page` until the last question, and shows a progress value.
- `wheel.dfy` (module `Wheel`): the wheel page as a state machine, the class `WheelPage`.
  It also covers the segment draw, the wheel rotation and which screen is rendered.
- `progress_bar.dfy` (module `ProgressBar`): the progress bar's clamped fill.
- `js.dfy` (module `Js`): the JavaScript semantics the rest relies on: `slice` with a negative
  end, `includes`, template rendering of NULL, and query results.
- `quiz_types.dfy` (module `QuizTypes`): the question, selection and answer records.

**What the model makes explicit:**

- JavaScript numbers are modelled as `real`, and elapsed times as whole seconds.
- `%` truncates toward zero.
- Division by a zero maximum yields an infinity or NaN.
- An empty array is truthy.
- A missing property compared with `<` gives `false`.

**Inputs passed in as parameters:**

- Randomness: `Math.random()`, and the order a random `sort` produces.
- Clocks: elapsed seconds.
- Database replies: query results.
- Browser storage: the stored strings.

## Model

| member | source | states |
|---|---|---|
| Js.SliceTo | src/app/api/quiz/route.ts:25 | `slice(0, end)` is a prefix of the input. Its length is `min(end, n)` for a non-negative end, and `max(n + end, 0)` counting back from the end for a negative one. |
| Js.Includes | src/app/api/leaderboard/route.ts:37 | `includes` is true exactly when the substring occurs at some position. |
| Js.IncludesInside | src/app/api/leaderboard/route.ts:37 | A string that contains the substring, whatever surrounds it, is found. |
| Js.Interpolate | src/app/api/leaderboard/route.ts:61 | A template renders a string as itself, and gives the text "null" exactly for NULL or the string "null". |
| QuizService.Accuracy | src/lib/quiz.ts:30 | Accuracy times the question count is 100 times the correct count. It lies in [0, 100] when 0 ≤ correct ≤ total: 0 for no correct answers, 100 for all. |
| QuizService.CalculateMetaScore | src/lib/quiz.ts:24-39 | The time bonus is `30 - t` up to 30 seconds and 0 after, so never negative and at most 30. The meta score is accuracy plus bonus, within [0, 130] for sensible inputs. |
| QuizService.GetGrade | src/lib/quiz.ts:41-50 | The grade's threshold is reached, and no higher-ranked grade's threshold is reached: the grade is the best one the score earns. |
| QuizService.GradeMonotone | src/lib/quiz.ts:41-50 | A higher score never earns a lower grade. |
| QuizService.Messages | src/lib/quiz.ts:55-96 | Every grade has exactly three messages. |
| QuizService.PickIndex | src/lib/quiz.ts:99 | `Math.floor(random * n)` is a valid index for every random number in [0, 1), and it is the floor: `k ≤ random·n < k + 1`. |
| QuizService.EveryIndexReachable | src/lib/quiz.ts:99 | Every index can be drawn: `random = k / n` draws index k. |
| QuizService.GetPersonalizedMessage | src/lib/quiz.ts:52-100 | The message is one of the grade's own messages. |
| QuizService.GenerateQuizResult | src/lib/quiz.ts:102-126 | The result echoes the counts and time. Its accuracy, bonus and meta score agree with the scoring rules, its grade is the grade of its meta score, and its message belongs to that grade. |
| QuizService.PerfectQuickQuiz | src/lib/quiz.ts:102-126 | All answers correct within 10 seconds earns A+. |
| QuizService.NatToString | src/lib/quiz.ts:131 | `toString` of a natural number is a non-empty string of digits, one digit long exactly below 10. |
| QuizService.PadStart2 | src/lib/quiz.ts:131 | `padStart(2, '0')` leaves a string of 2 or more characters as it is, and puts '0's in front of a shorter one until it has 2. |
| QuizService.JsRemainder | src/lib/quiz.ts:130 | `%` is `a - trunc(a / b)·b`, with the quotient truncated toward zero. So it takes the sign of the dividend: it lies in [0, b) for a ≥ 0 and in (-b, 0] for a < 0. |
| QuizService.FormatTime | src/lib/quiz.ts:128-132 | For non-negative seconds the text is at least 4 characters, with ':' before the last two. For negative seconds the minutes, floored, are negative and the text starts with '-'. |
| QuizService.ParseNatToString | src/lib/quiz.ts:131 | Reading back a rendered natural number gives the number. |
| QuizService.TwoDigits | src/lib/quiz.ts:130-131 | A remainder below 60, padded, is exactly its two decimal digits. |
| QuizService.FormatTimeShape | src/lib/quiz.ts:128-132 | For non-negative seconds the text is the decimal minutes, ':' and the two digits of the remaining seconds. |
| QuizService.FormatTimeRoundTrip | src/lib/quiz.ts:128-132 | `m:ss` parses back to the seconds it was made from. |
| QuizService.FormatTimeInjective | src/lib/quiz.ts:128-132 | Different non-negative durations are shown differently. |
| QuizService.ShuffleArray | src/lib/quiz.ts:134-141 | The swap loop returns a permutation of the input, of the same length. The input array is not written. |
| Leaderboard.ToEntry | src/app/api/leaderboard/route.ts:63-70 | The stored entry has the same grouping key as the row it came from. |
| Leaderboard.Key | src/app/api/leaderboard/route.ts:61 | The key is the three rendered fields joined by two dashes: its length is theirs plus 2. |
| Leaderboard.SplitAtDash | src/app/api/leaderboard/route.ts:61 | Joining a dash-free text, a dash and a rest can be split back: equal joins have equal parts. |
| Leaderboard.KeyDeterminesFields | src/app/api/leaderboard/route.ts:61 | When the rendered mobile and email hold no dash, equal keys mean equal rendered fields. |
| Leaderboard.KeysCanCollide | src/app/api/leaderboard/route.ts:61 | The dash-joined key merges different users: a dash inside a field, or NULL against the text "null". |
| Leaderboard.KeysOf | src/app/api/leaderboard/route.ts:61 | One key per row. |
| Leaderboard.DistinctKeysSpec | src/app/api/leaderboard/route.ts:59-74 | The keys in first-seen order (the Map's order) repeat none. They are exactly the keys of the rows. |
| Leaderboard.FirstIndexSpec | src/app/api/leaderboard/route.ts:62 | The first index of a key is found exactly when the key occurs, and no earlier row has it. |
| Leaderboard.BestIndexSpec | src/app/api/leaderboard/route.ts:62 | The kept row for a key is the earliest row with the highest meta score for that key. It is found exactly when the key occurs. |
| Leaderboard.GroupedKeys | src/app/api/leaderboard/route.ts:59-74 | The grouped entries come in first-seen key order, one per key. |
| Leaderboard.GroupedBest | src/app/api/leaderboard/route.ts:59-74 | Every grouped entry is its user's best row: no row of that user scores higher, and on a tie the earliest row is kept. |
| Leaderboard.GroupedOnePerUser | src/app/api/leaderboard/route.ts:59-74 | No two grouped entries share a key, and every row's user has an entry. |
| Leaderboard.FirstSeenMatchesBestWhenSorted | src/app/api/leaderboard/route.ts:50-72 | When rows arrive in descending meta score, keeping the first row per user is the same as keeping the best one. |
| Leaderboard.FirstSeenLosesBestScore | src/app/api/leaderboard/route.ts:62 | For one user with rows scoring 80 then 95, keeping the first-seen row keeps 80 while the best is 95. |
| Leaderboard.Property | src/app/api/leaderboard/route.ts:62-70 | A stored entry has `best_score` and `best_time` but no `meta_score`, which reads as `undefined`. |
| Leaderboard.ValuesInOrder | src/app/api/leaderboard/route.ts:74 | `Array.from(userMap.values())` lists exactly one value for each key of the insertion order. |
| Leaderboard.GroupFinal | src/app/api/leaderboard/route.ts:59-74 | When the loop ends, the Map's values in insertion order are the best (or first) row per key. |
| Leaderboard.KeyAt | src/app/api/leaderboard/route.ts:61 | The key computed in the loop is the row's grouping key. |
| Leaderboard.GroupByUserAsWritten | src/app/api/leaderboard/route.ts:59-74 | The loop as written, comparing the stored object's missing `meta_score`, returns the first-seen row per user. |
| Leaderboard.GroupByUser | src/app/api/leaderboard/route.ts:59-74 | The corrected loop, comparing the stored `best_score`, returns each user's best row, in first-seen order. |
| Leaderboard.Insert | src/app/api/leaderboard/route.ts:75 | Inserting adds exactly that entry to the multiset. |
| Leaderboard.SortByBestScore | src/app/api/leaderboard/route.ts:75 | The sort returns a permutation of its input. |
| Leaderboard.SortProperties | src/app/api/leaderboard/route.ts:75 | The sort orders by descending best score, and is stable: the entries with any one score keep their relative order. |
| Leaderboard.FallbackProperties | src/app/api/leaderboard/route.ts:58-76 | The fallback reply is sorted by descending best score and has at most one entry per user. Every entry is that user's best row. There are `min(limit, users)` entries for a non-negative limit. |
| Leaderboard.Fallback | src/app/api/leaderboard/route.ts:58-76 | The corrected fallback: best row per user, sorted, truncated to at most `limit` entries. |
| Leaderboard.FallbackAsWritten | src/app/api/leaderboard/route.ts:58-76 | The fallback as written, keeping the first row per user, has at most `limit` entries, and equals the corrected fallback when the rows come in descending meta score. |
| Leaderboard.LimitOf | src/app/api/leaderboard/route.ts:7 | The limit is the parameter, or 50 without one. |
| Leaderboard.Get | src/app/api/leaderboard/route.ts:4-82 | View rows are returned as they are. On a "relation does not exist" error the fallback is run as written, limited by the parameter or 50, or its query error comes back as a 500. Any other view error is a 500 with the message. When the fallback rows come in descending meta score, as the query orders them, the reply is the best row per user. |
| Leaderboard.MissingViewSelectsFallback | src/app/api/leaderboard/route.ts:37 | Both missing-relation messages select the fallback, whatever text surrounds them. |
| QuizApi.SelectIdsFromList | src/app/api/quiz/route.ts:24-25 | For any shuffled order, the chosen ids come from the fetched list, repeating none more often than the list does. There are `min(limit, n)` of them for a non-negative limit. |
| QuizApi.LimitOf | src/app/api/quiz/route.ts:7 | The limit is the parameter, or 3 without one. |
| QuizApi.SelectIds | src/app/api/quiz/route.ts:25 | The chosen ids are a prefix of the shuffled list, `min(limit, n)` long for a non-negative limit. |
| QuizApi.DefaultLimitIsThree | src/app/api/quiz/route.ts:7 | Without a limit parameter, three ids (or all, if fewer) are asked for. |
| QuizApi.NegativeLimitDropsFromEnd | src/app/api/quiz/route.ts:25 | A limit of -1 asks for all ids but the last. |
| QuizApi.Get | src/app/api/quiz/route.ts:4-51 | An id query error, or an error fetching the chosen questions, gives the fixed 500 text. No ids gives an empty list. Otherwise the questions for the chosen ids are returned. |
| QuizApi.Validate | src/app/api/quiz/route.ts:57-105 | An accepted body is an object with an `answers` array. A body without a user name is rejected for it. |
| QuizApi.ValidateFollowsTable | src/app/api/quiz/route.ts:57-105 | The chain of checks accepts a body exactly when it passes all seven field checks. When it rejects one, the error is that of the first check it fails. |
| QuizApi.CountsAreNotCompared | src/app/api/quiz/route.ts:72-98 | 7 correct out of 3, a negative time and a score of 999 are all accepted: only types are checked. |
| QuizApi.EmptyAnswersAccepted | src/app/api/quiz/route.ts:100 | An empty answers array passes the last check. |
| QuizApi.EmptyBodyReportsUserName | src/app/api/quiz/route.ts:58-63 | An empty object is rejected for its user name first. |
| QuizApi.Post | src/app/api/quiz/route.ts:53-128 | The insert happens exactly for a parsed, non-null, valid body, and stores that body. A 400 comes exactly for a non-null invalid body, with the first failing check's message. A body that does not parse is a 500 with the parse error's message, and a null body a 500 with the `TypeError` text. After an insert, stored rows are returned, a store error is a 500 with "Database error: " and its message, and a thrown error is a 500 with its message. |
| QuizApi.StoreErrorReported | src/app/api/quiz/route.ts:112-118 | A store error after a valid body is a 500 with "Database error: " and its message. |
| QuizApi.ValidBodySaved | src/app/api/quiz/route.ts:107-120 | A valid non-null body whose insert returns rows is stored and answered with those rows. |
| QuizCard.Without | src/components/quiz/QuizCard.tsx:36 | `filter(i => i !== x)` keeps exactly the other elements, and never grows the list. |
| QuizCard.WithoutNoRepeats | src/components/quiz/QuizCard.tsx:36 | Filtering a list without repeats leaves a list without repeats. |
| QuizCard.Toggle | src/components/quiz/QuizCard.tsx:31-38 | A toggle flips the toggled option's membership and leaves every other option as it was. A newly chosen option is appended to the end of the list. |
| QuizCard.ToggleNoRepeats | src/components/quiz/QuizCard.tsx:31-38 | Toggling never introduces a repeated option. |
| QuizCard.ToggleTwice | src/components/quiz/QuizCard.tsx:35-37 | Toggling the same option twice restores the chosen set. When the option was not chosen, it restores the exact list. |
| QuizCard.IsCorrect | src/components/quiz/QuizCard.tsx:56-60 | A single choice is judged correct exactly when the correct list is that one index. A list judged correct contains every correct index. |
| QuizCard.IsCorrectIsSetEquality | src/components/quiz/QuizCard.tsx:56-60 | With no repeats on either side, a list selection is judged correct exactly when it names the same set of options as the correct answer. |
| QuizCard.RepeatedCorrectIndexAcceptsWrongChoice | src/components/quiz/QuizCard.tsx:56-58 | The length-and-every check is not set equality once the correct list repeats an index: [1, 1] accepts [1, 3]. |
| QuizCard.CanSubmit | src/components/quiz/QuizCard.tsx:73-76 | The button is always enabled for other question types. For a multi-select question, enabled means a list that the handler does not ignore. |
| QuizCard.MultiSelectSubmitGuardsAgree | src/components/quiz/QuizCard.tsx:45-76 | For a multi-select question, the button is enabled exactly when the handler goes ahead. |
| QuizCard.EnabledButIgnored | src/components/quiz/QuizCard.tsx:45-76 | For other question types, the button is enabled on the initial empty list, but the handler ignores the press. |
| QuizCard.Card.constructor | src/components/quiz/QuizCard.tsx:25-26 | A new card has an empty selection, is unanswered, has emitted nothing, and satisfies the card invariant. |
| QuizCard.Card.SelectAnswer | src/components/quiz/QuizCard.tsx:28-42 | An answered card ignores the press. Otherwise a multi-select question toggles the option and other questions select it. The invariant is kept. |
| QuizCard.Card.SubmitAnswer | src/components/quiz/QuizCard.tsx:44-71 | An empty list is ignored. Otherwise the card becomes answered and emits one answer, carrying its question id, the selection, its correctness and the seconds since the quiz started. Submitting through the enabled button keeps "at most one answer per card". |
| ProgressBar.Percentage | src/components/ui/Progress.tsx:21 | A finite fill is at most 100. A zero maximum fills the bar for a positive value, and gives minus infinity exactly for a negative value and NaN exactly for a zero value. |
| ProgressBar.PercentageAtMostHundred | src/components/ui/Progress.tsx:21 | For a non-zero maximum the fill is finite and at most 100. It equals the scaled value exactly when that is at most 100, and is 100 when the scaled value is larger. |
| ProgressBar.FullBar | src/components/ui/Progress.tsx:21 | A value at or above a positive maximum fills the bar. |
| ProgressBar.DefaultMaxIsValue | src/components/ui/Progress.tsx:16-21 | With the default maximum 100 the fill is the value, capped at 100. |
| ProgressBar.NegativeValueNegativeFill | src/components/ui/Progress.tsx:21 | There is no lower clamp: a negative value gives a negative fill. |
| QuizPage.InitializeQuiz | src/app/quiz/page.tsx:22-62 | Missing or empty stored name or language redirects home, and nothing else does. A rejected fetch or a reply that does not parse fails with its own message. A reply that is not ok fails with "Failed to load questions". Otherwise the quiz loads exactly when the reply holds a non-empty question list. A loaded session holds the fetched questions, the stored name and language, index 0 and no answers. |
| QuizPage.LoadedInProgress | src/app/quiz/page.tsx:46-54 | A loaded session is in progress at its first question. |
| QuizPage.NoQuestionsMessage | src/app/quiz/page.tsx:34-58 | "No questions available" is shown exactly when the reply is ok but its questions are missing or empty, or when a rejected fetch or a parse error carries that very text. |
| QuizPage.CountCorrect | src/app/quiz/page.tsx:93 | The correct count never exceeds the number of answers. |
| QuizPage.CountCorrectIsSize | src/app/quiz/page.tsx:93 | `filter(a => a.is_correct).length` is the number of positions holding a correct answer. |
| QuizPage.Progress | src/app/quiz/page.tsx:171-172 | While a question is shown, progress lies in (0, 100]. |
| QuizPage.ProgressBounds | src/app/quiz/page.tsx:171-172 | While a question is shown, progress lies in (0, 100] and is 100 exactly on the last question. |
| QuizPage.ProgressBarShowsProgress | src/app/quiz/page.tsx:171-215 | The bar with its default maximum shows the progress unchanged. |
| QuizPage.Page.constructor | src/app/quiz/page.tsx:17-56 | The page holds the loaded session, if any, and no stored result. |
| QuizPage.Page.HandleAnswer | src/app/quiz/page.tsx:82-118 | Without a session nothing changes. After the last question the result is stored: every question, the correct count, the time, all answers, name, language. Otherwise the next question is current with the answer appended. From a session in progress, either the next question is in progress or the result has one answer per question. |
| Wheel.SegmentIndex | src/app/wheel/page.tsx:210 | `Math.floor(random * 6)` is a valid segment index, the floor of the scaled random number. |
| Wheel.EverySegmentReachable | src/app/wheel/page.tsx:210 | Every segment can be drawn. |
| Wheel.FindIndex | src/app/wheel/page.tsx:255-257 | `findIndex` gives the first position with the id, or -1 exactly when none has it. |
| Wheel.Rotation | src/app/wheel/page.tsx:253-259 | No segment gives no turn. A wheel segment turns it between 0 and 300 degrees, to the position that holds the segment's id. |
| Wheel.IsCorrect | src/app/wheel/page.tsx:237 | An answer is judged correct only when there is an answer and a segment. For a wheel segment the answer is then one of its four options. |
| Wheel.RotationOfSegment | src/app/wheel/page.tsx:253-259 | Segment i turns the wheel 60·i degrees, between 0 and 300. |
| Wheel.ViewOf | src/app/wheel/page.tsx:280-551 | Each of the five screens shows exactly under its own condition, tested in the page's order. The wheel needs no segment selected. Learning needs a segment and the learning flag. The question screen needs a segment, learning off and the question flag on. The result screen needs, in addition, the question flag off and the result flag on. The segment screen shows when all three flags are off. |
| Wheel.WheelPage.constructor | src/app/wheel/page.tsx:187-196 | The initial state: nothing selected, every flag off, score and spins 0. It is reachable. |
| Wheel.WheelPage.SpinWheel | src/app/wheel/page.tsx:199-219 | A spin while spinning does nothing. Otherwise it clears the screen and answer, and schedules the drawn segment. |
| Wheel.WheelPage.TimerComplete | src/app/wheel/page.tsx:214-218 | The timeout shows the drawn segment, stops spinning, and counts one spin. |
| Wheel.WheelPage.LearnMore | src/app/wheel/page.tsx:221-223 | Only the learning flag is set. |
| Wheel.WheelPage.StartQuiz | src/app/wheel/page.tsx:225-228 | The learning flag is cleared and the question flag set, nothing else. |
| Wheel.WheelPage.AnswerSelect | src/app/wheel/page.tsx:230-232 | Only the selected answer changes. |
| Wheel.WheelPage.SubmitAnswer | src/app/wheel/page.tsx:234-243 | As written: without an answer nothing changes. Otherwise a correct answer adds one point, and the result flag is set while the question flag stays on. |
| Wheel.WheelPage.SubmitAnswerIntended | src/app/wheel/page.tsx:234-243 | As intended: the same, and the question flag cleared. |
| Wheel.WheelPage.NextSpin | src/app/wheel/page.tsx:245-251 | Back to the wheel with the answer cleared, keeping score and spins. |
| Wheel.WheelPage.Step | src/app/wheel/page.tsx:199-251 | With the intended submit, every enabled button or timer keeps the page in a reachable state. The score never exceeds the spins, a submit shows the result, and only the timer counts a spin. |
| Wheel.WheelPage.StepAsWritten | src/app/wheel/page.tsx:199-251 | As written, every enabled event keeps the page reachable and the result screen never shows. A submit leaves the question screen up. |
| Wheel.SubmitTwiceAsWritten | src/app/wheel/page.tsx:234-243 | As written, after one spin a correct answer submitted twice scores 2 points, and the question screen is still shown. |

## Left out

- **Floating point**
  - JavaScript numbers are exact `real`s and integers here. Rounding in `(correct / total) * 100` and in the progress bar is not modelled.
  - NaN and infinities are modelled only where a zero divisor is possible: `Progress.tsx`'s `max`.
- **Clocks**
  - `new Date()` and the elapsed-time arithmetic become an `elapsedSeconds` or `timeTaken` parameter.
  - The session's `startTime` is not stored.
- **Randomness**
  - `Math.random()` is a `real` parameter in [0, 1).
  - `allQuestions.sort(() => 0.5 - Math.random())` is an arbitrary permutation, given as `shuffled` with the requirement that its multiset equal the fetched ids'.
- **Queries to the store**
  - Query results are parameters.
  - The store applies `.order(...)`, `.limit(...)`, `.in('id', ...)` and the `difficulty` filter, which are not modelled. The fallback receives the rows the store returned.
  - `QuizApi.Get` passes the fetch of chosen questions in as a function of the id list.
- **Parsing the request**
  - `parseInt` of a non-numeric `limit` (NaN) is not modelled. The limit is a number or absent.
  - `request.json()` failures are given as an abstract message.
  - The message for a null body is V8's `TypeError` text.
- **The environment and logging**
  - The environment-variable checks of the leaderboard route are not modelled: they throw before any query.
  - `console` logging is not modelled.
  - The `details` object of the 500 reply is not modelled: it holds a time stamp and a stack trace in development mode only.
- **The leaderboard view**
  - A null `data` without an error (`data \|\| []`) is not modelled: the view's rows are always a list.
  - The thrown error's message is kept as `cause` rather than sent, which matches the reply the source sends outside development.
- **Browser and React**
  - `sessionStorage`, `router.push`, `onAnswer` and the `beforeunload` and confirm dialogs are left out. The stored strings and the stored result are values, and the result page is not part of this model.
  - React's batched state updates and re-render timing are left out. So are stale closures: two clicks before a re-render would see the old state. Each handler is modelled as acting on the current state.
- **The card's selection**
  - `QuizCard`'s null selection is not modelled: it is never set to null, so the `=== null` tests are always false.
  - `correct_answer` is always a list, as the store keeps it.
- **Rendering only**
  - Animations, icons, styling, the learning texts, the question texts and translations are not modelled. Only the segment ids and correct options of the wheel are kept.
  - `Progress.tsx`'s `Math.round` for the label is not modelled.
- QuizService.Accuracy: requires a non-zero question count. With zero questions the source computes NaN, which is not modelled. The same holds for QuizService.CalculateMetaScore and QuizService.GenerateQuizResult.
- QuizService.FormatTime: for a negative duration the contract says only that the text starts with '-'. The text is computed as the source computes it, with the floored minute count and a remainder that keeps the sign of the seconds, but its layout is not specified.
- Leaderboard.Get: the descending `meta_score` order of the fallback query is not assumed of the rows passed in. The best-row-per-user reply is promised only for rows in that order. For other rows the reply is the first-seen row per user, as written.
- QuizService.ShuffleArray: takes one random number per swap as a parameter, so it requires at least as many as there are swaps. It returns the shuffled copy as a sequence rather than a new array.

## Findings

| source | as written | input that shows it | evidently intended | confidence | as-written member | corrected member |
|---|---|---|---|---|---|---|
| src/app/api/leaderboard/route.ts:62 | The fallback compares `userMap.get(key).meta_score`, but the stored object only has `best_score`. `undefined < x` is false, so the first row per user is kept. | Two rows of one user scoring 80 then 95, in that order: the leaderboard shows 80. The query's descending order on `meta_score` masks this. | Keep each user's highest-scoring row, comparing `best_score`. | not executed | Leaderboard.GroupByUserAsWritten, Leaderboard.FallbackAsWritten, Leaderboard.FirstSeenLosesBestScore | Leaderboard.GroupByUser, Leaderboard.Fallback, Leaderboard.GroupedBest |
| src/app/wheel/page.tsx:234-243 | Submitting sets `showResult` but leaves `showQuestion` on. The question screen is tested first, so the result screen (and its "Spin Again" button) never shows, and the submit button stays enabled. | Spin, learn more, start the quiz, choose the correct option, submit twice: the score is 2 after 1 spin, still on the question screen. | Close the question screen on submit, so the result shows and a spin earns at most one point. | not executed | Wheel.SubmitTwiceAsWritten, Wheel.WheelPage.StepAsWritten | Wheel.WheelPage.SubmitAnswerIntended, Wheel.WheelPage.Step |
