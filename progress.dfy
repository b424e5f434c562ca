/** Overall lesson progress and the rounded percentages shown beside the
    practice and revision counters (app.js, updateProgress, and the `rate`
    computations of renderRevisionList and updateParentReport). */
module Progress {

  /** One entry of `appState.tests`: questions right so far, the fixed
      number of questions, and whether the test was finished. The tests are
      kept in a sequence whose index i holds test id i + 1, which is also the
      order `Object.values` and `Object.entries` visit the integer keys in. */
  datatype TestRecord = TestRecord(correct: nat, total: nat, finished: bool)

  /** The number of tests whose `finished` flag is set. */
  function FinishedCount(tests: seq<TestRecord>): (n: nat)
    ensures n <= |tests|
  {
    if tests == [] then 0
    else FinishedCount(tests[..|tests| - 1]) + (if tests[|tests| - 1].finished then 1 else 0)
  }

  /** The ids of the finished tests. */
  function FinishedIds(tests: seq<TestRecord>): set<nat> {
    set i | 0 <= i < |tests| && tests[i].finished :: i + 1
  }

  /** The counter of the `forEach` loop is the number of finished test ids. */
  lemma {:induction false} FinishedCountIsSize(tests: seq<TestRecord>)
    ensures FinishedCount(tests) == |FinishedIds(tests)|
  {
    if tests != [] {
      var prefix := tests[..|tests| - 1];
      FinishedCountIsSize(prefix);
      var last: nat := |tests|;
      assert last !in FinishedIds(prefix);
      if tests[last - 1].finished {
        assert FinishedIds(tests) == FinishedIds(prefix) + {last};
      } else {
        assert FinishedIds(tests) == FinishedIds(prefix);
      }
    }
  }

  /** The counter is 0 exactly when no test is finished. */
  lemma NoneFinished(tests: seq<TestRecord>)
    ensures FinishedCount(tests) == 0 <==> forall i :: 0 <= i < |tests| ==> !tests[i].finished
  {
    FinishedCountIsSize(tests);
    if exists i :: 0 <= i < |tests| && tests[i].finished {
      var i :| 0 <= i < |tests| && tests[i].finished;
      assert i + 1 in FinishedIds(tests);
    } else {
      assert FinishedIds(tests) == {};
    }
  }

  /** The `finishedTests` counting loop of updateProgress. */
  method CountFinished(tests: seq<TestRecord>) returns (finishedTests: nat)
    ensures finishedTests == FinishedCount(tests)
  {
    finishedTests := 0;
    var i := 0;
    while i < |tests|
      invariant 0 <= i <= |tests|
      invariant finishedTests == FinishedCount(tests[..i])
    {
      assert tests[..i + 1][..i] == tests[..i];
      if tests[i].finished {
        finishedTests := finishedTests + 1;
      }
      i := i + 1;
    }
    assert tests[..i] == tests;
  }

  /** `r` is `Math.round(x)` for a non-negative `x`: the nearest integer,
      halves rounded up. */
  ghost predicate RoundsHalfUp(x: real, r: int) {
    r as real - 0.5 <= x < r as real + 0.5
  }

  /** The overall percentage, `round(teach / 9 * 60 + finished / 3 * 40)`,
      in exact integer arithmetic. */
  function OverallPercent(teachCompleted: nat, finishedTests: nat): nat {
    (40 * teachCompleted + 80 * finishedTests + 3) / 6
  }

  /** The integer formula is the source's floating-point expression rounded. */
  lemma OverallPercentRounds(teachCompleted: nat, finishedTests: nat)
    ensures RoundsHalfUp(teachCompleted as real / 9.0 * 60.0 + finishedTests as real / 3.0 * 40.0,
                         OverallPercent(teachCompleted, finishedTests))
  {
    var n := 40 * teachCompleted + 80 * finishedTests + 3;
    var r := n / 6;
    assert 6 * r <= n < 6 * r + 6;
    var x := teachCompleted as real / 9.0 * 60.0 + finishedTests as real / 3.0 * 40.0;
    assert 6.0 * x == (40 * teachCompleted + 80 * finishedTests) as real;
    assert (6 * r) as real <= n as real < (6 * r + 6) as real;
  }

  /** The exact value teach / 9 * 60 + finished / 3 * 40 is never halfway
      between two integers (its fractional part is 0, 1/3 or 2/3), so the
      rounding direction never depends on how a halfway value is treated. */
  lemma ProgressNeverHalfway(teachCompleted: nat, finishedTests: nat, k: int)
    ensures teachCompleted as real / 9.0 * 60.0 + finishedTests as real / 3.0 * 40.0 != k as real + 0.5
  {
    var m := 40 * teachCompleted + 80 * finishedTests;
    assert 6.0 * (teachCompleted as real / 9.0 * 60.0 + finishedTests as real / 3.0 * 40.0) == m as real;
    assert m % 2 == 0;
  }

  /** With at most 9 taught units and at most 3 tests, progress is a percentage. */
  lemma OverallPercentBounds(teachCompleted: nat, finishedTests: nat)
    requires teachCompleted <= 9 && finishedTests <= 3
    ensures 0 <= OverallPercent(teachCompleted, finishedTests) <= 100
  {
  }

  /** Progress never drops when more units are taught or more tests finished. */
  lemma OverallPercentMonotone(teach: nat, teach': nat, finished: nat, finished': nat)
    requires teach <= teach' && finished <= finished'
    ensures OverallPercent(teach, finished) <= OverallPercent(teach', finished')
  {
  }

  /** The scenario values: all teaching alone gives 60, all tests alone 40,
      both 100, nothing 0. */
  lemma OverallPercentScenarios()
    ensures OverallPercent(9, 0) == 60
    ensures OverallPercent(0, 3) == 40
    ensures OverallPercent(9, 3) == 100
    ensures OverallPercent(0, 0) == 0
  {
  }

  /** `Math.max(1, n)`. */
  function AtLeastOne(n: nat): (m: nat)
    ensures 1 <= m && n <= m
  {
    if n < 1 then 1 else n
  }

  /** `Math.round(part / Math.max(1, whole) * 100)`, in exact integer arithmetic. */
  function RoundedPercent(part: nat, whole: nat): nat {
    (200 * part + AtLeastOne(whole)) / (2 * AtLeastOne(whole))
  }

  /** The integer formula is the source's percentage rounded half up (for
      the exact quotient; see the note on IEEE-754 halves). */
  lemma RoundedPercentRounds(part: nat, whole: nat)
    ensures RoundsHalfUp(part as real / AtLeastOne(whole) as real * 100.0, RoundedPercent(part, whole))
  {
    var m := AtLeastOne(whole);
    var r: int := RoundedPercent(part, whole);
    DivBounds(200 * part + m, 2 * m);
    CrossBounds(part, m, r);
    CastMul(m, 2 * r - 1);
    CastMul(m, 2 * r + 1);
    HalfUpFromCross(part as real, m as real, r as real);
  }

  lemma CrossBounds(part: int, m: int, r: int)
    requires 2 * m * r <= 200 * part + m < 2 * m * r + 2 * m
    ensures m * (2 * r - 1) <= 200 * part < m * (2 * r + 1)
  {
    assert m * (2 * r - 1) == 2 * m * r - m;
    assert m * (2 * r + 1) == 2 * m * r + m;
  }

  /** Euclidean division by a positive divisor brackets the dividend. */
  lemma DivBounds(n: int, d: int)
    requires d > 0
    ensures d * (n / d) <= n < d * (n / d) + d
  {
  }

  lemma CastMul(a: int, b: int)
    ensures (a * b) as real == a as real * b as real
  {
  }

  /** Cross-multiplied bounds on p / m * 100 give the rounding bracket. */
  lemma HalfUpFromCross(p: real, m: real, r: real)
    requires m > 0.0
    requires m * (2.0 * r - 1.0) <= 200.0 * p < m * (2.0 * r + 1.0)
    ensures r - 0.5 <= p / m * 100.0 < r + 0.5
  {
    var x := p / m * 100.0;
    assert m * (2.0 * x) == 200.0 * p;
    LeqByPositive(m, 2.0 * r - 1.0, 2.0 * x);
    LessByPositive(m, 2.0 * x, 2.0 * r + 1.0);
  }

  lemma LessByPositive(m: real, a: real, b: real)
    requires m > 0.0 && m * a < m * b
    ensures a < b
  {
  }

  lemma LeqByPositive(m: real, a: real, b: real)
    requires m > 0.0 && m * a <= m * b
    ensures a <= b
  {
  }

  /** A count of successes out of at most that many tries is at most 100%. */
  lemma RoundedPercentBounds(part: nat, whole: nat)
    requires part <= whole
    ensures RoundedPercent(part, whole) <= 100
    ensures part == whole && whole > 0 ==> RoundedPercent(part, whole) == 100
  {
    var m := AtLeastOne(whole);
    var q: int := RoundedPercent(part, whole);
    DivBounds(200 * part + m, 2 * m);
    QuotientBounds(part, m, q);
  }

  lemma QuotientBounds(part: int, m: int, q: int)
    requires 1 <= m && 0 <= part <= m
    requires 2 * m * q <= 200 * part + m < 2 * m * q + 2 * m
    ensures q <= 100
    ensures part == m ==> q == 100
  {
    if q > 100 {
      MulMonotone(2 * m, 101, q);
    }
    if part == m && q < 100 {
      MulMonotone(2 * m, q + 1, 100);
    }
  }

  lemma MulMonotone(a: nat, b: nat, c: nat)
    requires b <= c
    ensures a * b <= a * c
  {
  }
}
