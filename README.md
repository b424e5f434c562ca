# Lesson-progress state model of the rational-numbers lesson widget

The widget is a single-page lesson: teaching screens, a practice ladder, three
tests, an adaptive-revision screen and a parent report.
Beneath its display code sits one mutable session record, `appState`.
It holds the unlock flag, the taught-unit counter, the practice counters, the
three tests and the revision queue with its attempt counters.
The display code derives everything it shows from that record.

This project models that state and the logic over it in Dafny:

- `App.AppState` is a class whose fields are the session record. Its methods
  are the handlers `app.js` defines: adding a missed question to the revision
  queue, recomputing progress and the parent report, rendering the revision
  list, and tab navigation.
- `Revision` holds the revision queue. Items are deduplicated by question text
  and appended in the order questions were first missed. It also holds the
  view of the revision screen: numbered rows, the empty message and the
  accuracy line.
- `Progress` holds the finished-test count and the overall percentage. It also
  holds the rounded percentages, computed exactly in integers and proved equal
  to the rounded real-valued expressions of the source.
- `Report` holds the parent report's summary lines and the threshold choice of
  the advisory note.
- `Navigation` holds the lock-gating rule for tab clicks and which screens and
  tabs are marked active by a selection.
- `Text` holds the decimal rendering of counters (with its inverse) and list
  joining.

Display output is modelled as the values that would be written. These are
the chosen screen id, the active flags, the row records and the summary
strings. I/O is not modelled: the module functions take the element ids as
parameters.

Two behaviours of app.js are easy to misread, and the model follows the code
in both. First, selectScreen marks active every element whose id equals the
selected id. An unknown id marks none, so "exactly one screen is active" is
not guaranteed. `Navigation.ActiveCount` proves that exactly one screen
is active when the element ids are distinct and the id exists. Second, the
advisory note compares `practiceCorrect / max(1, practiceTotal)` with 0.7.
With no practice that ratio is 0, so the remedial note is chosen even when
tests are finished.

## Model

| member | source | states |
|---|---|---|
| `App.InitialTests` | app.js:8-12 | three tests, none finished, none with a correct answer yet, each with at most its total correct |
| `App.AppState.constructor` | app.js:3-16 | the load-time state: locked, all counters zero, the initial tests, empty revision queue; the session invariant holds |
| `App.AppState.AddRevisionItem` | app.js:57-61 | queue unchanged when the text is already queued, otherwise exactly the new item appended; only the queue changes; no-duplicate-texts invariant preserved |
| `App.AppState.UpdateProgress` | app.js:35-55 | the overall percentage is the rounded progress formula over the finished-test count and lies in [0,100]; the refreshed report is the one the state determines |
| `App.AppState.UpdateParentReport` | app.js:96-148 | the five report lines are the teach, practice, tests and revision summaries and the sentence of the note that the current counters select |
| `App.AppState.RenderRevisionList` | app.js:64-94 | row i carries number i+1 with item i's source and text, in queue order; empty message shown iff the queue is empty; accuracy line from the attempt counters |
| `App.AppState.Navigate` | app.js:160-170 | the shown screen is the gated target, and exactly the screens and tabs whose id equals it are active |
| `App.RepeatedMissScenario` | app.js:57-61 | missing the same question twice from a fresh state queues it once, under the first source tag |
| `Revision.ContainsText` | app.js:59 | the duplicate scan answers true iff some queued item has the text |
| `Revision.EnqueueShape` | app.js:59-60 | enqueueing keeps the old queue as a prefix; with a queued text it changes nothing, otherwise it grows by one with the new item last; afterwards the text is queued |
| `Revision.EnqueueIdempotent` | app.js:59 | adding the same text again, with any source tag, leaves the queue as it was |
| `Revision.EnqueuePreservesDistinct` | app.js:57-61 | no two queued items share a text, before and after enqueueing |
| `Revision.EnqueueAllSpec` | app.js:13 | from the empty initial queue, any sequence of additions yields distinct texts, exactly the texts added, each entry one of the calls |
| `Revision.EnqueueAllKeepsFirst` | app.js:59-60 | each queued entry is the earliest addition with its text, so the first source tag is the one kept |
| `Revision.RenderLines` | app.js:76-83 | one row per item, row i numbered i+1 with that item's source and text |
| `Revision.AccuracyTextSpec` | app.js:86-93 | "No revision attempts yet." iff there were no attempts |
| `Progress.FinishedCount` | app.js:42-45 | the finished-test count is at most the number of tests |
| `Progress.FinishedCountIsSize` | app.js:42-45 | the counter equals the number of distinct finished test ids |
| `Progress.NoneFinished` | app.js:42-45 | the counter is 0 iff no test is finished |
| `Progress.CountFinished` | app.js:42-45 | the counting loop yields the finished-test count |
| `Progress.OverallPercentRounds` | app.js:37-48 | the integer formula equals teach/9·60 + finished/3·40 rounded to nearest, halves up |
| `Progress.ProgressNeverHalfway` | app.js:40-48 | the exact progress value is never an integer plus one half, so rounding is never ambiguous |
| `Progress.OverallPercentBounds` | app.js:37-48 | with at most 9 taught units and 3 finished tests, progress lies in [0,100] |
| `Progress.OverallPercentMonotone` | app.js:37-48 | progress is non-decreasing in taught units and in finished tests |
| `Progress.OverallPercentScenarios` | app.js:37-48 | progress is 60 at (9,0), 40 at (0,3), 100 at (9,3) and 0 at (0,0) |
| `Progress.RoundedPercentRounds` | app.js:89-91 | the integer percentage equals part/max(1,whole)·100 rounded to nearest, halves up |
| `Progress.RoundedPercentBounds` | app.js:110-112 | a part no larger than the whole gives at most 100%, and exactly 100% when equal |
| `Report.FinishedScoresLength` | app.js:116-123 | one score per finished test |
| `Report.FinishedScoresSound` | app.js:118-122 | each score names a finished test and carries that test's correct and total counts |
| `Report.FinishedScoresAscending` | app.js:118-122 | scores are listed in strictly ascending test id |
| `Report.FinishedScoresComplete` | app.js:118-122 | every finished test has a score |
| `Report.CollectScores` | app.js:116-123 | the loop's counter and score list are the finished-test count and the finished scores |
| `Report.TestsSummarySpec` | app.js:125-129 | "No tests taken yet" iff no test is finished; otherwise the line starts with the lowest finished test's score |
| `Report.TestsSummarySnoc` | app.js:116-129 | visiting one more test leaves the line unchanged if it is unfinished; if it is finished, its score replaces "No tests taken yet" or is appended after the separator |
| `Report.TestsSummarySkip` | app.js:119 | an unfinished test adds nothing to the line |
| `Report.TestsSummaryFirst` | app.js:119-128 | the first finished test's score alone is the whole line |
| `Report.TestsSummaryAppend` | app.js:119-128 | a later finished test extends the line by the separator and its score |
| `Report.ScoreTextIdentifiesTest` | app.js:121 | equal score texts come from the same test id |
| `Report.ScoreTextsDistinct` | app.js:118-128 | no score text appears twice among the scores joined into the tests line |
| `Report.FinishedScoresSnoc` | app.js:118-122 | one more test adds its score, with its id, exactly when it is finished, and adds one to the counter |
| `Report.PracticeSummarySpec` | app.js:107-114 | "Not started" iff the practice total is zero |
| `Report.RevisionSummarySpec` | app.js:131-135 | "No revision yet" iff the queue is empty; otherwise the line starts with the queue length |
| `Report.ParentNoteSpec` | app.js:138-147 | prompt iff no test is finished; otherwise strong-basics iff the real ratio correct/max(1,total) exceeds 0.7, remedial iff it does not |
| `Report.RatioAbove` | app.js:141 | the integer test 10·correct > 7·max(1,total) is equivalent to the real ratio test > 0.7 |
| `Report.NoteTextInjective` | app.js:139-146 | the three note sentences are pairwise distinct, so the sentence shown identifies the note chosen |
| `Report.ReportNoteSpec` | app.js:138-147 | the report's note line is the prompt iff no test is finished, otherwise the strong-basics sentence iff the practice ratio exceeds 0.7 and the remedial sentence iff it does not |
| `Report.ParentNoteScenario` | app.js:138-147 | 8/10 practice with a finished test gives strong basics; no finished test gives the prompt; 7/10 gives the remedial note |
| `Navigation.GatingRule` | app.js:164-169 | locked plus a locked target gives the paywall; otherwise the target is shown; a locked session never sees a locked screen |
| `Navigation.UnlockChangesExactlyLocked` | app.js:164-169 | unlocking changes what a click shows for exactly the locked targets |
| `Navigation.MarkedAt` | app.js:21-24 | an element is active iff its key equals the selected id |
| `Navigation.ActiveCount` | app.js:21-24 | with distinct ids, one element is active when the id exists and none otherwise |
| `Navigation.MarkActive` | app.js:22-24 | the toggling loop yields the active flags |
| `Navigation.SelectScreen` | app.js:20-33 | screens and tabs are active exactly where their id or target equals the selected id |
| `Text.NatToString` | app.js:113 | a counter renders as a non-empty string of decimal digits with no leading zero |
| `Text.NatToStringRoundTrip` | app.js:113 | reading back the decimal text gives the counter |
| `Text.NatToStringInjective` | app.js:121 | distinct counters render as distinct texts, so a score text's digits name one test id |
| `Text.Join` | app.js:128 | joining no parts gives the empty string and one part gives that part; otherwise the first part, then the separator if more follow, starts the result |
| `Text.JoinSnoc` | app.js:121-128 | joining one more part appends the separator and that part, so the tests line is the scores in order with the separator between neighbours |

## Left out

- Display mechanics are not modelled: element lookup, class toggling, `innerHTML`, `style`, element creation and appending. The model yields the values they would write.
- The guards that return silently when a display element is missing (app.js:68, app.js:103) are not modelled.
- Event wiring and page-load bootstrap (app.js:152-188) are not modelled, except the tab-click branch, which `App.AppState.Navigate` models.
- The parent-report button (app.js:174-179) is a plain, ungated `SelectScreen` with `"parent-report"`.
- setupOptionButtons, setupPreviewQuestions, setupPaywallDemo, setupPracticeHandlers, setupTests and setupTeachCompletion are not part of this model. Their definitions are not in app.js, so answer checking, per-question scoring guards, test finishing, demo unlock and the taught-unit counter's updates are absent. No method changes those counters.
- `App.AppState.Valid` asserts that at most 9 units are taught and that each test's correct count is at most its total. No code in app.js changes those counters, so app.js neither breaks nor enforces these bounds. They are assumed of the handlers listed above. The constructor establishes them.
- JavaScript numbers are exact integers only up to 2^53, and `${n}` switches to exponent notation from 10^21. The model's counters are unbounded `nat`s with plain decimal text. This matters only for counters far beyond what a lesson session reaches.
- Floating-point division and `Math.round` are modelled by exact rational arithmetic with round-half-up. This is exact for the overall percentage, whose true value is never halfway (`Progress.ProgressNeverHalfway`). For the practice and revision percentages, IEEE-754 effects near an exact half are not modelled.
- `AddRevisionItem` does not return the re-rendered revision list that app.js:61 draws. That list is `RenderRevisionList` applied to the new state.
- Raw question text written into the list markup (app.js:79-81) is not modelled. Each row keeps its number, source tag and text as separate fields, without the bold markup.
- A step tab without a `data-screen-target` attribute (a null target) is not modelled: tab targets are strings.
- `Report.TeachSummary` is a plain rendering of the taught-unit counter as `<n> / 9`; no property is stated about it beyond its use in the report.
