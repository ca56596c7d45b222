/** The statistics of app/profile/page.tsx over a user's previous attempts.
    `Math.round` of a quotient is computed exactly: floor of the rational plus
    one half. */
module ProfilePage {
  import opened Wrappers
  import opened Domain

  datatype Stats = Stats(
    totalQuizzes: nat,
    totalScore: int,
    averageScore: int,
    bestScore: int,
    accuracy: int)

  function Sum(xs: seq<int>): int
    decreases |xs|
  {
    if |xs| == 0 then 0 else xs[0] + Sum(xs[1..])
  }

  function Scores(attempts: seq<PastAttempt>): (r: seq<int>)
    ensures |r| == |attempts| && forall i :: 0 <= i < |r| ==> r[i] == attempts[i].attempt.score
  {
    seq(|attempts|, i requires 0 <= i < |attempts| => attempts[i].attempt.score)
  }

  function CorrectCounts(attempts: seq<PastAttempt>): (r: seq<int>)
    ensures |r| == |attempts| && forall i :: 0 <= i < |r| ==> r[i] == attempts[i].attempt.correctAnswers
  {
    seq(|attempts|, i requires 0 <= i < |attempts| => attempts[i].attempt.correctAnswers)
  }

  function QuestionCounts(attempts: seq<PastAttempt>): (r: seq<int>)
    ensures |r| == |attempts| && forall i :: 0 <= i < |r| ==> r[i] == attempts[i].attempt.totalQuestions
  {
    seq(|attempts|, i requires 0 <= i < |attempts| => attempts[i].attempt.totalQuestions)
  }

  /** `Math.max(...xs)` of a non-empty list: an upper bound that is attained. */
  function MaxOf(xs: seq<int>): (m: int)
    requires |xs| > 0
    ensures forall i :: 0 <= i < |xs| ==> xs[i] <= m
    ensures exists i :: 0 <= i < |xs| && xs[i] == m
    decreases |xs|
  {
    if |xs| == 1 then xs[0]
    else
      var rest := MaxOf(xs[1..]);
      assert forall i :: 1 <= i < |xs| ==> xs[i] == xs[1..][i - 1];
      if xs[0] >= rest then xs[0] else rest
  }

  /** `Math.round(num / den)` for a positive denominator: the nearest integer,
      halves rounding up. */
  function RoundHalfUp(num: int, den: int): (r: int)
    requires den > 0
    ensures 2 * den * r - den <= 2 * num < 2 * den * r + den
  {
    (2 * num + den) / (2 * den)
  }

  /** The page's numbers; `None` when there is no signed-in user (the page
      renders nothing). */
  function ProfileStats(user: Option<User>, attempts: seq<PastAttempt>): (r: Option<Stats>)
    ensures r.None? <==> user.None?
    ensures r.Some? ==> r.value.totalQuizzes == |attempts| && r.value.totalScore == Sum(Scores(attempts))
    ensures r.Some? && |attempts| == 0 ==> r.value.averageScore == 0 && r.value.bestScore == 0
    ensures r.Some? && |attempts| > 0 ==>
      var n := |attempts|;
      2 * n * r.value.averageScore - n <= 2 * r.value.totalScore < 2 * n * r.value.averageScore + n
    ensures r.Some? && |attempts| > 0 ==>
      && (forall i :: 0 <= i < |attempts| ==> attempts[i].attempt.score <= r.value.bestScore)
      && (exists i :: 0 <= i < |attempts| && attempts[i].attempt.score == r.value.bestScore)
    ensures r.Some? && Sum(QuestionCounts(attempts)) <= 0 ==> r.value.accuracy == 0
    ensures r.Some? && Sum(QuestionCounts(attempts)) > 0 ==>
      var q := Sum(QuestionCounts(attempts));
      2 * q * r.value.accuracy - q <= 200 * Sum(CorrectCounts(attempts)) < 2 * q * r.value.accuracy + q
  {
    if user.None? then None
    else
      var totalQuizzes := |attempts|;
      var totalScore := Sum(Scores(attempts));
      var averageScore := if totalQuizzes > 0 then RoundHalfUp(totalScore, totalQuizzes) else 0;
      var bestScore := if totalQuizzes > 0 then MaxOf(Scores(attempts)) else 0;
      var totalCorrect := Sum(CorrectCounts(attempts));
      var totalQuestions := Sum(QuestionCounts(attempts));
      var accuracy := if totalQuestions > 0 then RoundHalfUp(100 * totalCorrect, totalQuestions) else 0;
      Some(Stats(totalQuizzes, totalScore, averageScore, bestScore, accuracy))
  }

  /** Sums respect a pointwise order. */
  lemma {:induction false} SumMonotone(xs: seq<int>, ys: seq<int>)
    requires |xs| == |ys|
    requires forall i :: 0 <= i < |xs| ==> xs[i] <= ys[i]
    ensures Sum(xs) <= Sum(ys)
    decreases |xs|
  {
    if |xs| > 0 {
      assert forall i :: 0 <= i < |xs[1..]| ==> xs[1..][i] == xs[i + 1] && ys[1..][i] == ys[i + 1];
      SumMonotone(xs[1..], ys[1..]);
    }
  }

  lemma {:induction false} SumNonNegative(xs: seq<int>)
    requires forall i :: 0 <= i < |xs| ==> 0 <= xs[i]
    ensures 0 <= Sum(xs)
    decreases |xs|
  {
    if |xs| > 0 {
      assert forall i :: 0 <= i < |xs[1..]| ==> xs[1..][i] == xs[i + 1];
      SumNonNegative(xs[1..]);
    }
  }

  /** Multiplying by a positive factor preserves a strict order. */
  lemma MulStrictlyMonotone(w: int, a: int, b: int)
    requires w > 0
    ensures a > b ==> w * a > w * b
  {
    if a > b {
      assert w * a - w * b == w * (a - b);
    }
  }

  /** A rounded percentage of a part no larger than the whole lies in 0..100. */
  lemma RoundedPercentageBounded(part: int, whole: int)
    requires 0 <= part <= whole && whole > 0
    ensures 0 <= RoundHalfUp(100 * part, whole) <= 100
  {
    var n := 100 * part;
    var r := RoundHalfUp(n, whole);
    assert 2 * whole * r - whole == whole * (2 * r - 1);
    assert 2 * whole * r + whole == whole * (2 * r + 1);
    assert 2 * n <= whole * 200;
    MulStrictlyMonotone(whole, 2 * r - 1, 200);
    MulStrictlyMonotone(whole, 0, 2 * r + 1);
  }

  /** When every attempt has no more correct answers than questions, the
      accuracy is a percentage between 0 and 100. */
  lemma AccuracyIsPercentage(user: User, attempts: seq<PastAttempt>)
    requires forall i :: 0 <= i < |attempts| ==>
      0 <= attempts[i].attempt.correctAnswers <= attempts[i].attempt.totalQuestions
    ensures 0 <= ProfileStats(Some(user), attempts).value.accuracy <= 100
  {
    var c := CorrectCounts(attempts);
    var q := QuestionCounts(attempts);
    SumMonotone(c, q);
    SumNonNegative(c);
    if Sum(q) > 0 {
      RoundedPercentageBounded(Sum(c), Sum(q));
    }
  }

  /** Two attempts scoring 100 and 101 average to 101 (100.5 rounds up). */
  lemma AverageExample(user: User, a1: PastAttempt, a2: PastAttempt)
    requires a1.attempt.score == 100 && a2.attempt.score == 101
    ensures ProfileStats(Some(user), [a1, a2]).value.averageScore == 101
    ensures ProfileStats(Some(user), [a1, a2]).value.bestScore == 101
  {
    assert Scores([a1, a2]) == [100, 101];
    assert Sum([100, 101]) == 201 by {
      assert [100, 101][1..] == [101];
      assert [101][1..] == [];
    }
  }
}
