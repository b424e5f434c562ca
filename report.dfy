/** The parent-facing report: one summary line per area of the lesson and
    a canned advisory note chosen by thresholds (app.js, updateParentReport). */
module Report {
  import opened Text
  import opened Progress

  /** The score of one finished test, as the report lists it. */
  datatype Score = Score(id: nat, correct: nat, total: nat)

  /** The scores updateParentReport's loop over the tests collects: one per
      finished test, in ascending test id. */
  function FinishedScores(tests: seq<TestRecord>): seq<Score> {
    if tests == [] then []
    else
      var last := tests[|tests| - 1];
      FinishedScores(tests[..|tests| - 1])
        + (if last.finished then [Score(|tests|, last.correct, last.total)] else [])
  }

  /** `s` is the score of a finished test of `tests`, with that test's counts. */
  predicate IsScoreOf(tests: seq<TestRecord>, s: Score) {
    1 <= s.id <= |tests| && tests[s.id - 1].finished &&
    s.correct == tests[s.id - 1].correct && s.total == tests[s.id - 1].total
  }

  /** There are as many scores as finished tests. */
  lemma {:induction false} FinishedScoresLength(tests: seq<TestRecord>)
    ensures |FinishedScores(tests)| == FinishedCount(tests)
  {
    if tests != [] {
      FinishedScoresLength(tests[..|tests| - 1]);
    }
  }

  /** Every score is that of a finished test, with its counts. */
  lemma {:induction false} FinishedScoresSound(tests: seq<TestRecord>)
    ensures forall k :: 0 <= k < |FinishedScores(tests)| ==> IsScoreOf(tests, FinishedScores(tests)[k])
  {
    if tests != [] {
      var prefix := tests[..|tests| - 1];
      FinishedScoresSound(prefix);
      var ps := FinishedScores(prefix);
      var all := FinishedScores(tests);
      forall k | 0 <= k < |all| ensures IsScoreOf(tests, all[k]) {
        if k < |ps| {
          assert all[k] == ps[k];
          assert IsScoreOf(prefix, ps[k]);
          assert tests[ps[k].id - 1] == prefix[ps[k].id - 1];
        }
      }
    }
  }

  /** The scores are listed in strictly ascending test id. */
  lemma {:induction false} FinishedScoresAscending(tests: seq<TestRecord>)
    ensures forall j, k :: 0 <= j < k < |FinishedScores(tests)| ==>
              FinishedScores(tests)[j].id < FinishedScores(tests)[k].id
  {
    if tests != [] {
      var prefix := tests[..|tests| - 1];
      FinishedScoresAscending(prefix);
      FinishedScoresSound(prefix);
      var ps := FinishedScores(prefix);
      var all := FinishedScores(tests);
      forall j, k | 0 <= j < k < |all| ensures all[j].id < all[k].id {
        assert all[j] == ps[j];
        if k < |ps| {
          assert all[k] == ps[k];
        } else {
          assert IsScoreOf(prefix, ps[j]);
        }
      }
    }
  }

  /** Every finished test has a score. */
  lemma {:induction false} FinishedScoresComplete(tests: seq<TestRecord>)
    ensures forall i :: 0 <= i < |tests| && tests[i].finished ==>
              exists k :: 0 <= k < |FinishedScores(tests)| && FinishedScores(tests)[k].id == i + 1
  {
    if tests != [] {
      var prefix := tests[..|tests| - 1];
      FinishedScoresComplete(prefix);
      var ps := FinishedScores(prefix);
      var all := FinishedScores(tests);
      forall i | 0 <= i < |tests| && tests[i].finished
        ensures exists k :: 0 <= k < |all| && all[k].id == i + 1
      {
        if i < |prefix| {
          assert tests[i] == prefix[i];
          var k :| 0 <= k < |ps| && ps[k].id == i + 1;
          assert all[k] == ps[k];
          assert 0 <= k < |all| && all[k].id == i + 1;
        } else {
          assert all[|all| - 1].id == i + 1;
        }
      }
      assert forall i :: 0 <= i < |tests| && tests[i].finished ==>
              exists k :: 0 <= k < |all| && all[k].id == i + 1;
      assert all == FinishedScores(tests);
      forall i | 0 <= i < |tests| && tests[i].finished
        ensures exists k :: 0 <= k < |FinishedScores(tests)| && FinishedScores(tests)[k].id == i + 1
      {
        var k :| 0 <= k < |all| && all[k].id == i + 1;
        assert FinishedScores(tests)[k].id == i + 1;
      }
    }
  }

  /** `Test <id>: <correct>/<total>`. */
  function ScoreText(s: Score): string {
    "Test " + NatToString(s.id) + ": " + NatToString(s.correct) + "/" + NatToString(s.total)
  }

  /** The digits of a counter end where a non-digit follows them, so two
      texts that agree must start with the same digit run. */
  lemma DigitRunUnique(da: string, ra: string, db: string, rb: string)
    requires AllDigits(da) && AllDigits(db)
    requires |ra| > 0 && !IsDigit(ra[0]) && |rb| > 0 && !IsDigit(rb[0])
    requires da + ra == db + rb
    ensures da == db
  {
    var whole := da + ra;
    assert whole == db + rb;
    assert !IsDigit(whole[|da|]) && !IsDigit(whole[|db|]);
    assert forall i :: 0 <= i < |da| ==> IsDigit(whole[i]);
    assert forall i :: 0 <= i < |db| ==> IsDigit(whole[i]);
    assert |da| == |db|;
    assert da == whole[..|da|] == db;
  }

  lemma PrefixCancel(p: string, x: string, y: string)
    requires p + x == p + y
    ensures x == y
  {
    assert x == (p + x)[|p|..];
    assert y == (p + y)[|p|..];
  }

  /** A score text is "Test ", the id's digits, then text opening with ':'. */
  lemma ScoreTextSplit(s: Score) returns (rest: string)
    ensures ScoreText(s) == "Test " + (NatToString(s.id) + rest)
    ensures |rest| > 0 && rest[0] == ':'
  {
    rest := ": " + NatToString(s.correct) + "/" + NatToString(s.total);
  }

  /** A score text names its test: equal texts come from the same test id. */
  lemma ScoreTextIdentifiesTest(a: Score, b: Score)
    ensures ScoreText(a) == ScoreText(b) ==> a.id == b.id
  {
    if ScoreText(a) == ScoreText(b) {
      var ra := ScoreTextSplit(a);
      var rb := ScoreTextSplit(b);
      PrefixCancel("Test ", NatToString(a.id) + ra, NatToString(b.id) + rb);
      DigitRunUnique(NatToString(a.id), ra, NatToString(b.id), rb);
      NatToStringInjective(a.id, b.id);
    }
  }

  function ScoreTexts(scores: seq<Score>): (texts: seq<string>)
    ensures |texts| == |scores|
    ensures forall k :: 0 <= k < |scores| ==> texts[k] == ScoreText(scores[k])
  {
    if scores == [] then [] else [ScoreText(scores[0])] + ScoreTexts(scores[1..])
  }

  /** No score appears twice in the tests line: the finished tests have
      distinct ids, and a score text names its test. */
  lemma ScoreTextsDistinct(tests: seq<TestRecord>)
    ensures forall j, k :: 0 <= j < k < |ScoreTexts(FinishedScores(tests))| ==>
              ScoreTexts(FinishedScores(tests))[j] != ScoreTexts(FinishedScores(tests))[k]
  {
    var ss := FinishedScores(tests);
    FinishedScoresAscending(tests);
    forall j, k | 0 <= j < k < |ScoreTexts(ss)| ensures ScoreTexts(ss)[j] != ScoreTexts(ss)[k] {
      ScoreTextIdentifiesTest(ss[j], ss[k]);
    }
  }

  const NoTestsText := "No tests taken yet"
  const ScoreSeparator := " \U{00B7} "

  /** The tests summary line. */
  function TestsSummary(tests: seq<TestRecord>): string {
    if FinishedCount(tests) == 0 then NoTestsText
    else Join(ScoreTexts(FinishedScores(tests)), ScoreSeparator)
  }

  /** "No tests taken yet" exactly when no test is finished; otherwise the
      line starts with the score of the lowest-numbered finished test. */
  lemma TestsSummarySpec(tests: seq<TestRecord>)
    ensures TestsSummary(tests) == NoTestsText <==> forall i :: 0 <= i < |tests| ==> !tests[i].finished
    ensures |FinishedScores(tests)| > 0 ==>
              ScoreText(FinishedScores(tests)[0]) <= TestsSummary(tests)
  {
    NoneFinished(tests);
    FinishedScoresLength(tests);
    if FinishedCount(tests) > 0 {
      var first := ScoreText(FinishedScores(tests)[0]);
      assert first[0] == 'T';
      assert TestsSummary(tests)[0] == 'T';
    }
  }

  /** The tests line grows as the loop visits one more test: an unfinished
      test leaves it unchanged; a finished one replaces "No tests taken yet"
      by its score, or appends the separator and its score. */
  lemma TestsSummarySnoc(tests: seq<TestRecord>, t: TestRecord)
    ensures TestsSummary(tests + [t]) ==
              if !t.finished then TestsSummary(tests)
              else if FinishedCount(tests) == 0 then ScoreText(Score(|tests| + 1, t.correct, t.total))
              else TestsSummary(tests) + ScoreSeparator + ScoreText(Score(|tests| + 1, t.correct, t.total))
  {
    if !t.finished {
      TestsSummarySkip(tests, t);
    } else if FinishedCount(tests) == 0 {
      TestsSummaryFirst(tests, t);
    } else {
      TestsSummaryAppend(tests, t);
    }
  }

  lemma TestsSummarySkip(tests: seq<TestRecord>, t: TestRecord)
    requires !t.finished
    ensures TestsSummary(tests + [t]) == TestsSummary(tests)
  {
    FinishedScoresSnoc(tests, t);
    assert FinishedScores(tests + [t]) == FinishedScores(tests);
    assert FinishedCount(tests + [t]) == FinishedCount(tests);
  }

  lemma TestsSummaryFirst(tests: seq<TestRecord>, t: TestRecord)
    requires t.finished
    ensures FinishedCount(tests) == 0 ==>
              TestsSummary(tests + [t]) == ScoreText(Score(|tests| + 1, t.correct, t.total))
  {
    FinishedScoresSnoc(tests, t);
    FinishedScoresLength(tests);
    if FinishedCount(tests) == 0 {
      assert FinishedScores(tests) == [];
    }
  }

  lemma TestsSummaryAppend(tests: seq<TestRecord>, t: TestRecord)
    requires t.finished && FinishedCount(tests) > 0
    ensures TestsSummary(tests + [t]) ==
              TestsSummary(tests) + ScoreSeparator + ScoreText(Score(|tests| + 1, t.correct, t.total))
  {
    var s := Score(|tests| + 1, t.correct, t.total);
    var ss := FinishedScores(tests);
    FinishedScoresSnoc(tests, t);
    FinishedScoresLength(tests);
    ScoreTextsSnoc(ss, s);
    JoinSnoc(ScoreTexts(ss), ScoreText(s), ScoreSeparator);
  }

  /** Visiting one more test adds its score exactly when it is finished. */
  lemma FinishedScoresSnoc(tests: seq<TestRecord>, t: TestRecord)
    ensures FinishedScores(tests + [t]) ==
              FinishedScores(tests) + (if t.finished then [Score(|tests| + 1, t.correct, t.total)] else [])
    ensures FinishedCount(tests + [t]) == FinishedCount(tests) + (if t.finished then 1 else 0)
  {
    var all := tests + [t];
    assert all[..|all| - 1] == tests;
  }

  lemma ScoreTextsSnoc(scores: seq<Score>, s: Score)
    ensures ScoreTexts(scores + [s]) == ScoreTexts(scores) + [ScoreText(s)]
  {
    var l := ScoreTexts(scores + [s]);
    var r := ScoreTexts(scores) + [ScoreText(s)];
    assert |l| == |r|;
    forall k | 0 <= k < |l| ensures l[k] == r[k] {
      if k < |scores| {
        assert (scores + [s])[k] == scores[k];
      }
    }
  }

  const NotStartedText := "Not started"

  /** The practice summary: `<correct>/<total> correct (<rate>%)`. */
  function PracticeSummary(practiceCorrect: nat, practiceTotal: nat): string {
    if practiceTotal == 0 then NotStartedText
    else NatToString(practiceCorrect) + "/" + NatToString(practiceTotal) + " correct ("
         + NatToString(RoundedPercent(practiceCorrect, practiceTotal)) + "%)"
  }

  /** "Not started" exactly when no practice question was scored. */
  lemma PracticeSummarySpec(practiceCorrect: nat, practiceTotal: nat)
    ensures PracticeSummary(practiceCorrect, practiceTotal) == NotStartedText <==> practiceTotal == 0
  {
    if practiceTotal > 0 {
      assert IsDigit(PracticeSummary(practiceCorrect, practiceTotal)[0]);
    }
  }

  const NoRevisionText := "No revision yet"

  /** The revision summary: `<n> question(s) in revision set`. */
  function RevisionSummary(queued: nat): string {
    if queued == 0 then NoRevisionText
    else NatToString(queued) + " question(s) in revision set"
  }

  /** "No revision yet" exactly when the queue is empty; otherwise the line
      starts with the decimal queue length. */
  lemma RevisionSummarySpec(queued: nat)
    ensures RevisionSummary(queued) == NoRevisionText <==> queued == 0
    ensures queued > 0 ==> NatToString(queued) <= RevisionSummary(queued)
  {
    if queued > 0 {
      assert IsDigit(RevisionSummary(queued)[0]);
    }
  }

  /** The teach summary `<teachCompleted> / 9`. */
  function TeachSummary(teachCompleted: nat): string {
    NatToString(teachCompleted) + " / 9"
  }

  /** The three advisory notes. */
  datatype Note = AwaitingTests | StrongBasics | NeedsPractice

  const AwaitingTestsText :=
    "Once tests are completed, this section will highlight strong topics and topics that need more revision."
  const StrongBasicsText :=
    "Strong basics. Keep revising word problems and number line questions to reach full confidence."
  const NeedsPracticeText :=
    "Basics need more practice. Use the Practice ladder and Adaptive revision tabs before the next test."

  /** The sentence app.js writes for each note. */
  function NoteText(note: Note): string {
    match note
    case AwaitingTests => AwaitingTestsText
    case StrongBasics => StrongBasicsText
    case NeedsPractice => NeedsPracticeText
  }

  /** The three sentences differ (already in length), so the text shown
      tells which note was chosen. */
  lemma NoteTextInjective(a: Note, b: Note)
    ensures NoteText(a) == NoteText(b) <==> a == b
  {
    assert |AwaitingTestsText| == 103;
    assert |StrongBasicsText| == 94;
    assert |NeedsPracticeText| == 99;
  }

  /** The note, with `correct / max(1, total) > 0.7` decided on integers. */
  function ParentNote(finishedTests: nat, practiceCorrect: nat, practiceTotal: nat): Note {
    if finishedTests == 0 then AwaitingTests
    else if 10 * practiceCorrect > 7 * AtLeastOne(practiceTotal) then StrongBasics
    else NeedsPractice
  }

  /** The note chosen on integers is the one the source's ratio test picks:
      the prompt when no test is finished, otherwise the strong-basics note
      exactly when the practice ratio exceeds 0.7, and the remedial note otherwise. */
  lemma ParentNoteSpec(finishedTests: nat, practiceCorrect: nat, practiceTotal: nat)
    ensures (ParentNote(finishedTests, practiceCorrect, practiceTotal) == AwaitingTests)
            <==> finishedTests == 0
    ensures (ParentNote(finishedTests, practiceCorrect, practiceTotal) == StrongBasics)
            <==> (finishedTests > 0 && practiceCorrect as real / AtLeastOne(practiceTotal) as real > 0.7)
    ensures (ParentNote(finishedTests, practiceCorrect, practiceTotal) == NeedsPractice)
            <==> (finishedTests > 0 && practiceCorrect as real / AtLeastOne(practiceTotal) as real <= 0.7)
  {
    RatioAbove(practiceCorrect, AtLeastOne(practiceTotal));
  }

  lemma RatioAbove(c: nat, m: nat)
    requires m >= 1
    ensures c as real / m as real > 0.7 <==> 10 * c > 7 * m
  {
    RealRatioAbove(c as real, m as real);
  }

  lemma RealRatioAbove(c: real, m: real)
    requires m >= 1.0
    ensures c / m > 0.7 <==> 10.0 * c > 7.0 * m
  {
    var x := c / m;
    DivTimes(c, m);
    if x > 0.7 {
      MulStrict(m, 0.7, x);
    } else {
      MulWeak(m, x, 0.7);
    }
  }

  lemma DivTimes(c: real, m: real)
    requires m > 0.0
    ensures c / m * m == c
  {
  }

  lemma MulStrict(m: real, a: real, b: real)
    requires m > 0.0 && a < b
    ensures m * a < m * b
  {
  }

  lemma MulWeak(m: real, a: real, b: real)
    requires m > 0.0 && a <= b
    ensures m * a <= m * b
  {
  }

  /** Eight out of ten in practice with one finished test earns the strong-basics note. */
  lemma ParentNoteScenario()
    ensures ParentNote(1, 8, 10) == StrongBasics
    ensures ParentNote(0, 8, 10) == AwaitingTests
    ensures ParentNote(1, 7, 10) == NeedsPractice
  {
  }

  /** The five lines of the parent report. */
  datatype ParentReport = ParentReport(teach: string, practice: string, tests: string,
                                       revision: string, note: string)

  /** The report the state determines. */
  function ReportOf(teachCompleted: nat, practiceCorrect: nat, practiceTotal: nat,
                    tests: seq<TestRecord>, queued: nat): ParentReport
  {
    ParentReport(TeachSummary(teachCompleted), PracticeSummary(practiceCorrect, practiceTotal),
                 TestsSummary(tests), RevisionSummary(queued),
                 NoteText(ParentNote(FinishedCount(tests), practiceCorrect, practiceTotal)))
  }

  /** The note line of the report is the prompt exactly when no test is
      finished, and otherwise the strong-basics sentence exactly when the
      practice ratio exceeds 0.7, the remedial sentence exactly when it does not. */
  lemma ReportNoteSpec(teachCompleted: nat, practiceCorrect: nat, practiceTotal: nat,
                       tests: seq<TestRecord>, queued: nat)
    ensures var line := ReportOf(teachCompleted, practiceCorrect, practiceTotal, tests, queued).note;
            var ratio := practiceCorrect as real / AtLeastOne(practiceTotal) as real;
            && (line == AwaitingTestsText <==> FinishedCount(tests) == 0)
            && (line == StrongBasicsText <==> FinishedCount(tests) > 0 && ratio > 0.7)
            && (line == NeedsPracticeText <==> FinishedCount(tests) > 0 && ratio <= 0.7)
  {
    var note := ParentNote(FinishedCount(tests), practiceCorrect, practiceTotal);
    ParentNoteSpec(FinishedCount(tests), practiceCorrect, practiceTotal);
    NoteTextInjective(note, AwaitingTests);
    NoteTextInjective(note, StrongBasics);
    NoteTextInjective(note, NeedsPractice);
  }

  /** The finished-test counter and score list of updateParentReport's loop. */
  method CollectScores(tests: seq<TestRecord>) returns (finishedTests: nat, scores: seq<Score>)
    ensures finishedTests == FinishedCount(tests)
    ensures scores == FinishedScores(tests)
  {
    finishedTests := 0;
    scores := [];
    var i := 0;
    while i < |tests|
      invariant 0 <= i <= |tests|
      invariant finishedTests == FinishedCount(tests[..i])
      invariant scores == FinishedScores(tests[..i])
    {
      assert tests[..i + 1][..i] == tests[..i];
      if tests[i].finished {
        finishedTests := finishedTests + 1;
        scores := scores + [Score(i + 1, tests[i].correct, tests[i].total)];
      }
      i := i + 1;
    }
    assert tests[..i] == tests;
  }
}
