/** The lesson's session state, `appState`, and the handlers over it that
    app.js defines: adding to the revision queue, recomputing progress and
    the parent report, rendering the revision list, and tab navigation. */
module App {
  import opened Text
  import opened Progress
  import opened Revision
  import opened Report
  import opened Navigation

  /** Tests 1, 2 and 3 with 3, 2 and 2 questions, none finished. */
  function InitialTests(): (tests: seq<TestRecord>)
    ensures |tests| == 3 && FinishedCount(tests) == 0
    ensures forall i :: 0 <= i < |tests| ==> tests[i].correct == 0 && tests[i].correct <= tests[i].total
  {
    [TestRecord(0, 3, false), TestRecord(0, 2, false), TestRecord(0, 2, false)]
  }

  class AppState {
    var unlocked: bool
    var teachCompleted: nat
    var practiceCorrect: nat
    var practiceTotal: nat
    var tests: seq<TestRecord>
    var revisionItems: seq<RevisionItem>
    var revisionAttempts: nat
    var revisionCorrect: nat

    /** The session invariants: three tests, each with at most its total
        right, at most nine taught units, and no question text queued twice. */
    ghost predicate Valid()
      reads this
    {
      && |tests| == 3
      && (forall i :: 0 <= i < |tests| ==> tests[i].correct <= tests[i].total)
      && teachCompleted <= 9
      && DistinctTexts(revisionItems)
    }

    /** The state at page load. */
    constructor ()
      ensures Valid()
      ensures !unlocked && teachCompleted == 0
      ensures practiceCorrect == 0 && practiceTotal == 0
      ensures tests == InitialTests()
      ensures revisionItems == [] && revisionAttempts == 0 && revisionCorrect == 0
    {
      unlocked := false;
      teachCompleted := 0;
      practiceCorrect, practiceTotal := 0, 0;
      tests := InitialTests();
      revisionItems := [];
      revisionAttempts, revisionCorrect := 0, 0;
    }

    /** `addRevisionItem(source, text)`: append unless the text is queued;
        nothing else in the state changes. */
    method AddRevisionItem(source: string, text: string)
      requires Valid()
      modifies this`revisionItems
      ensures Valid()
      ensures revisionItems == Enqueue(old(revisionItems), source, text)
      ensures HasText(old(revisionItems), text) ==> revisionItems == old(revisionItems)
      ensures !HasText(old(revisionItems), text) ==>
                revisionItems == old(revisionItems) + [RevisionItem(source, text)]
    {
      var found := ContainsText(revisionItems, text);
      if found {
        return;
      }
      EnqueuePreservesDistinct(revisionItems, source, text);
      revisionItems := revisionItems + [RevisionItem(source, text)];
    }

    /** `updateProgress()`: the overall percentage for the progress bar, and
        the parent report it refreshes. */
    method UpdateProgress() returns (overall: nat, report: ParentReport)
      requires Valid()
      ensures overall == OverallPercent(teachCompleted, FinishedCount(tests))
      ensures overall <= 100
      ensures report == ReportOf(teachCompleted, practiceCorrect, practiceTotal, tests, |revisionItems|)
    {
      var finishedTests := CountFinished(tests);
      overall := (40 * teachCompleted + 80 * finishedTests + 3) / 6;
      OverallPercentBounds(teachCompleted, finishedTests);
      report := UpdateParentReport();
    }

    /** `updateParentReport()`: the five report lines. */
    method UpdateParentReport() returns (report: ParentReport)
      ensures report == ReportOf(teachCompleted, practiceCorrect, practiceTotal, tests, |revisionItems|)
    {
      var practice := PracticeSummary(practiceCorrect, practiceTotal);
      var finishedTests, scores := CollectScores(tests);
      var testsLine: string;
      if finishedTests == 0 {
        testsLine := NoTestsText;
      } else {
        testsLine := Join(ScoreTexts(scores), ScoreSeparator);
      }
      var note: Note;
      if finishedTests == 0 {
        note := AwaitingTests;
      } else if 10 * practiceCorrect > 7 * AtLeastOne(practiceTotal) {
        note := StrongBasics;
      } else {
        note := NeedsPractice;
      }
      report := ParentReport(TeachSummary(teachCompleted), practice, testsLine,
                             RevisionSummary(|revisionItems|), NoteText(note));
    }

    /** `renderRevisionList()`: the numbered rows, the empty message and the
        accuracy line. */
    method RenderRevisionList() returns (view: RevisionView)
      ensures |view.lines| == |revisionItems|
      ensures forall i :: 0 <= i < |revisionItems| ==>
                view.lines[i] == RevisionLine(i + 1, revisionItems[i].source, revisionItems[i].text)
      ensures view.showEmptyMessage <==> revisionItems == []
      ensures view.accuracy == AccuracyText(revisionAttempts, revisionCorrect)
    {
      var lines := RenderLines(revisionItems);
      view := RevisionView(lines, |revisionItems| == 0, AccuracyText(revisionAttempts, revisionCorrect));
    }

    /** A click on a tab whose `data-screen-target` is `target`: the screen
        shown and the resulting active flags of screens and tabs. */
    method Navigate(screenIds: seq<string>, tabTargets: seq<string>, target: string)
      returns (shown: string, screens: seq<bool>, tabs: seq<bool>)
      ensures shown == ShownScreen(unlocked, target)
      ensures |screens| == |screenIds| && |tabs| == |tabTargets|
      ensures forall i :: 0 <= i < |screenIds| ==> (screens[i] <==> screenIds[i] == shown)
      ensures forall i :: 0 <= i < |tabTargets| ==> (tabs[i] <==> tabTargets[i] == shown)
    {
      if !unlocked && target in LockedScreens {
        shown := Paywall;
      } else {
        shown := target;
      }
      screens, tabs := SelectScreen(screenIds, tabTargets, shown);
    }
  }

  /** A session that misses the same question twice, first in practice and
      then in a test, queues it once, under the first source tag. */
  method RepeatedMissScenario() returns (queue: seq<RevisionItem>)
    ensures queue == [RevisionItem("practice", "What is 3/4 + 1/4?")]
  {
    var state := new AppState();
    state.AddRevisionItem("practice", "What is 3/4 + 1/4?");
    assert state.revisionItems[0].text == "What is 3/4 + 1/4?";
    state.AddRevisionItem("test 1", "What is 3/4 + 1/4?");
    queue := state.revisionItems;
  }
}
