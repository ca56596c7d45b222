/** Scoring and the small pure helpers of lib/utils.ts. */
module Scoring {
  import opened Domain
  import opened Text

  /** The default of `calculateScore`'s `maxTimeSeconds` and of
      `getTimerColorClass`'s `maxSeconds`. */
  const DefaultMaxTimeSeconds: int := 300

  datatype Score = Score(accuracyScore: int, timeBonus: int, finalScore: int)

  /** 100 points per correct answer plus two points per second left under
      `maxTimeSeconds`; the bonus never goes negative. `totalQuestions` is
      accepted and ignored. */
  function CalculateScore(correctAnswers: int, totalQuestions: int, timeTakenSeconds: int,
                          maxTimeSeconds: int): (r: Score)
    ensures r.accuracyScore == 100 * correctAnswers
    ensures r.timeBonus >= 0
    ensures timeTakenSeconds >= maxTimeSeconds ==> r.timeBonus == 0
    ensures timeTakenSeconds < maxTimeSeconds ==> r.timeBonus == 2 * (maxTimeSeconds - timeTakenSeconds)
    ensures r.finalScore == r.accuracyScore + r.timeBonus
  {
    var accuracyScore := correctAnswers * 100;
    var timeBonus := Max(0, (maxTimeSeconds - timeTakenSeconds) * 2);
    Score(accuracyScore, timeBonus, accuracyScore + timeBonus)
  }

  function Max(a: int, b: int): int {
    if a >= b then a else b
  }

  /** The score does not depend on the question total. */
  lemma ScoreIgnoresTotal(correct: int, total1: int, total2: int, time: int, maxTime: int)
    ensures CalculateScore(correct, total1, time, maxTime) == CalculateScore(correct, total2, time, maxTime)
  {
  }

  /** Taking longer never raises the final score; answering more correctly never lowers it. */
  lemma ScoreMonotone(c1: int, c2: int, t1: int, t2: int, total: int, maxTime: int)
    requires c1 <= c2 && t2 <= t1
    ensures CalculateScore(c1, total, t1, maxTime).finalScore <= CalculateScore(c2, total, t2, maxTime).finalScore
  {
  }

  /** Seven correct out of ten in 120 s under the default limit. */
  lemma ScoreExample()
    ensures CalculateScore(7, 10, 120, DefaultMaxTimeSeconds) == Score(700, 360, 1060)
  {
  }

  /** The recorded answer for `q` equals its correct label; an unanswered
      question (JavaScript `undefined`) never matches. */
  predicate AnsweredCorrectly(answers: map<string, string>, q: Question) {
    q.id in answers && answers[q.id] == LabelText(q.correctOption)
  }

  /** Number of questions answered correctly. */
  function CorrectAnswersCount(answers: map<string, string>, questions: seq<Question>): (n: nat)
    ensures n <= |questions|
    ensures (forall i :: 0 <= i < |questions| ==> questions[i].id !in answers) ==> n == 0
    decreases |questions|
  {
    if |questions| == 0 then 0
    else (if AnsweredCorrectly(answers, questions[0]) then 1 else 0)
         + CorrectAnswersCount(answers, questions[1..])
  }

  /** Number of questions that have any recorded answer. */
  function AnsweredCount(answers: map<string, string>, questions: seq<Question>): nat
    decreases |questions|
  {
    if |questions| == 0 then 0
    else (if questions[0].id in answers then 1 else 0) + AnsweredCount(answers, questions[1..])
  }

  /** Counting distributes over concatenation of question lists. */
  lemma {:induction false} CorrectAnswersCountAppend(answers: map<string, string>, a: seq<Question>, b: seq<Question>)
    ensures CorrectAnswersCount(answers, a + b) == CorrectAnswersCount(answers, a) + CorrectAnswersCount(answers, b)
    decreases |a|
  {
    if |a| > 0 {
      assert (a + b)[0] == a[0];
      assert (a + b)[1..] == a[1..] + b;
      CorrectAnswersCountAppend(answers, a[1..], b);
    } else {
      assert a + b == b;
    }
  }

  /** Only answered questions can count. */
  lemma {:induction false} CorrectAtMostAnswered(answers: map<string, string>, questions: seq<Question>)
    ensures CorrectAnswersCount(answers, questions) <= AnsweredCount(answers, questions)
    decreases |questions|
  {
    if |questions| > 0 {
      CorrectAtMostAnswered(answers, questions[1..]);
    }
  }

  /** The count is the full question total exactly when every question is
      answered with its correct label. */
  lemma {:induction false} AllCorrectIffFullCount(answers: map<string, string>, questions: seq<Question>)
    ensures CorrectAnswersCount(answers, questions) == |questions|
            <==> forall i :: 0 <= i < |questions| ==> AnsweredCorrectly(answers, questions[i])
    decreases |questions|
  {
    if |questions| > 0 {
      AllCorrectIffFullCount(answers, questions[1..]);
      forall i | 0 < i < |questions|
        ensures questions[i] == questions[1..][i - 1]
      {
      }
    }
  }

  datatype RankBadge = Gold | Silver | Bronze | DefaultBadge

  /** Badge for a leaderboard rank: only ranks 1, 2 and 3 get a medal colour. */
  function RankBadgeType(rank: int): (b: RankBadge)
    ensures b == Gold <==> rank == 1
    ensures b == Silver <==> rank == 2
    ensures b == Bronze <==> rank == 3
    ensures b == DefaultBadge <==> !(1 <= rank <= 3)
  {
    if rank == 1 then Gold
    else if rank == 2 then Silver
    else if rank == 3 then Bronze
    else DefaultBadge
  }

  datatype TimerColor = Green | Yellow | Red

  /** The Tailwind class a colour stands for. */
  function TimerColorClass(c: TimerColor): string {
    match c
    case Green => "text-green-500"
    case Yellow => "text-yellow-500"
    case Red => "text-red-500"
  }

  /** `getTimerColorClass`: the percentage `seconds / maxSeconds * 100` is
      compared against 50 and 20, computed here over exact rationals. With
      `maxSeconds == 0` JavaScript divides into +Infinity (positive seconds),
      -Infinity (negative) or NaN (zero), which compare as shown. */
  function TimerColorFor(seconds: int, maxSeconds: int): (c: TimerColor)
    ensures maxSeconds == 0 ==> c != Yellow && (c == Green <==> seconds > 0)
    ensures maxSeconds > 0 && seconds >= maxSeconds ==> c == Green
    ensures maxSeconds > 0 && seconds <= 0 ==> c == Red
  {
    if maxSeconds == 0 then (if seconds > 0 then Green else Red)
    else
      var percentage := (seconds as real / maxSeconds as real) * 100.0;
      if percentage > 50.0 then Green
      else if percentage > 20.0 then Yellow
      else Red
  }

  /** For a positive limit the colour is decided by integer comparisons: green
      above half the limit, yellow above a fifth, red otherwise. */
  lemma TimerColorThresholds(seconds: int, maxSeconds: int)
    requires maxSeconds > 0
    ensures TimerColorFor(seconds, maxSeconds) == Green <==> 2 * seconds > maxSeconds
    ensures TimerColorFor(seconds, maxSeconds) == Yellow <==> 2 * seconds <= maxSeconds && 5 * seconds > maxSeconds
    ensures TimerColorFor(seconds, maxSeconds) == Red <==> 5 * seconds <= maxSeconds
  {
    PercentageAbove(seconds, maxSeconds, 50);
    PercentageAbove(seconds, maxSeconds, 20);
  }

  /** `seconds / maxSeconds * 100 > c` over the rationals, as an integer comparison. */
  lemma PercentageAbove(seconds: int, maxSeconds: int, c: int)
    requires maxSeconds > 0
    ensures (seconds as real / maxSeconds as real) * 100.0 > c as real <==> 100 * seconds > c * maxSeconds
  {
    var m := maxSeconds as real;
    var r := seconds as real / m;
    assert r * m == seconds as real;
    ScaleComparison(r * 100.0, c as real, m);
    assert (r * 100.0) * m == 100.0 * (r * m);
    assert (100 * seconds) as real == 100.0 * seconds as real;
    assert (c * maxSeconds) as real == c as real * m;
  }

  /** Multiplying both sides by a positive factor preserves a strict comparison. */
  lemma ScaleComparison(x: real, c: real, m: real)
    requires m > 0.0
    ensures x > c <==> x * m > c * m
  {
    if x > c {
      assert (x - c) * m > 0.0;
    } else {
      assert (c - x) * m >= 0.0;
    }
  }

  function ColorLevel(c: TimerColor): nat {
    match c
    case Red => 0
    case Yellow => 1
    case Green => 2
  }

  /** More time left never gives a more urgent colour; the full limit is green
      and zero is red. */
  lemma TimerColorMonotone(s1: int, s2: int, maxSeconds: int)
    requires maxSeconds > 0 && s1 <= s2
    ensures ColorLevel(TimerColorFor(s1, maxSeconds)) <= ColorLevel(TimerColorFor(s2, maxSeconds))
    ensures TimerColorFor(maxSeconds, maxSeconds) == Green
    ensures TimerColorFor(0, maxSeconds) == Red
  {
    TimerColorThresholds(s1, maxSeconds);
    TimerColorThresholds(s2, maxSeconds);
    TimerColorThresholds(maxSeconds, maxSeconds);
    TimerColorThresholds(0, maxSeconds);
  }

  /** One argument of `cn`: a string or one of the falsy non-strings. */
  datatype ClassArg = Str(s: string) | Undefined | Null | False

  /** `Boolean(arg)`: only a non-empty string is truthy. */
  predicate Truthy(arg: ClassArg) {
    arg.Str? && arg.s != ""
  }

  /** The strings `classes.filter(Boolean)` keeps, in order. */
  function KeptClasses(classes: seq<ClassArg>): (kept: seq<string>)
    ensures |kept| <= |classes|
    ensures forall i :: 0 <= i < |kept| ==> kept[i] != ""
    ensures |classes| == 1 ==> kept == (if Truthy(classes[0]) then [classes[0].s] else [])
    decreases |classes|
  {
    if |classes| == 0 then []
    else (if Truthy(classes[0]) then [classes[0].s] else []) + KeptClasses(classes[1..])
  }

  /** `cn(...classes)`: the truthy pieces joined by single spaces; empty
      exactly when no piece is truthy. */
  function Cn(classes: seq<ClassArg>): (r: string)
    ensures r == "" <==> forall i :: 0 <= i < |classes| ==> !Truthy(classes[i])
  {
    KeptEmptyIffNoneTruthy(classes);
    JoinEmptyIffNoParts(KeptClasses(classes));
    Join(KeptClasses(classes), " ")
  }

  lemma {:induction false} KeptEmptyIffNoneTruthy(classes: seq<ClassArg>)
    ensures KeptClasses(classes) == [] <==> forall i :: 0 <= i < |classes| ==> !Truthy(classes[i])
    decreases |classes|
  {
    if |classes| > 0 {
      KeptEmptyIffNoneTruthy(classes[1..]);
      if !Truthy(classes[0]) && KeptClasses(classes[1..]) == [] {
        forall i | 0 <= i < |classes|
          ensures !Truthy(classes[i])
        {
          if i > 0 {
            assert classes[i] == classes[1..][i - 1];
          }
        }
      }
    }
  }

  lemma JoinEmptyIffNoParts(parts: seq<string>)
    requires forall i :: 0 <= i < |parts| ==> parts[i] != ""
    ensures Join(parts, " ") == "" <==> parts == []
  {
    if |parts| > 1 {
      assert |Join(parts, " ")| >= |parts[0]|;
    }
  }

  /** Filtering keeps the order of the arguments: it distributes over concatenation. */
  lemma {:induction false} KeptClassesAppend(a: seq<ClassArg>, b: seq<ClassArg>)
    ensures KeptClasses(a + b) == KeptClasses(a) + KeptClasses(b)
    decreases |a|
  {
    if |a| > 0 {
      assert (a + b)[0] == a[0];
      assert (a + b)[1..] == a[1..] + b;
      KeptClassesAppend(a[1..], b);
    } else {
      assert a + b == b;
    }
  }

  /** When every truthy piece is a single space-free class name, splitting the
      result of `cn` on spaces gives back exactly the truthy pieces in order. */
  lemma CnSplitsBack(classes: seq<ClassArg>)
    requires exists i :: 0 <= i < |classes| && Truthy(classes[i])
    requires forall i :: 0 <= i < |classes| && classes[i].Str? ==> NoSpace(classes[i].s)
    ensures SplitOnSpace(Cn(classes)) == KeptClasses(classes)
  {
    KeptEmptyIffNoneTruthy(classes);
    KeptHaveNoSpace(classes);
    SplitJoin(KeptClasses(classes));
  }

  /** Space-free arguments give space-free kept pieces. */
  lemma {:induction false} KeptHaveNoSpace(classes: seq<ClassArg>)
    requires forall i :: 0 <= i < |classes| && classes[i].Str? ==> NoSpace(classes[i].s)
    ensures forall k :: 0 <= k < |KeptClasses(classes)| ==> NoSpace(KeptClasses(classes)[k])
    decreases |classes|
  {
    if |classes| > 0 {
      assert forall i :: 0 <= i < |classes[1..]| && classes[1..][i].Str? ==> NoSpace(classes[1..][i].s) by {
        forall i | 0 <= i < |classes[1..]| && classes[1..][i].Str?
          ensures NoSpace(classes[1..][i].s)
        {
          assert classes[1..][i] == classes[i + 1];
        }
      }
      KeptHaveNoSpace(classes[1..]);
    }
  }

  /** Every kept piece is the string of some truthy argument. */
  lemma {:induction false} KeptAreTruthyArgs(classes: seq<ClassArg>)
    ensures forall k :: 0 <= k < |KeptClasses(classes)| ==>
      exists i :: 0 <= i < |classes| && Truthy(classes[i]) && KeptClasses(classes)[k] == classes[i].s
    decreases |classes|
  {
    if |classes| > 0 {
      var rest := classes[1..];
      var head := if Truthy(classes[0]) then [classes[0].s] else [];
      KeptAreTruthyArgs(rest);
      assert KeptClasses(classes) == head + KeptClasses(rest);
      forall k | 0 <= k < |KeptClasses(classes)|
        ensures exists i :: 0 <= i < |classes| && Truthy(classes[i]) && KeptClasses(classes)[k] == classes[i].s
      {
        if k < |head| {
          assert Truthy(classes[0]) && KeptClasses(classes)[k] == classes[0].s;
        } else {
          assert KeptClasses(classes)[k] == KeptClasses(rest)[k - |head|];
          var j :| 0 <= j < |rest| && Truthy(rest[j]) && KeptClasses(rest)[k - |head|] == rest[j].s;
          assert rest[j] == classes[j + 1];
          assert 0 <= j + 1 < |classes| && Truthy(classes[j + 1]) && KeptClasses(classes)[k] == classes[j + 1].s;
        }
      }
    } else {
      assert KeptClasses(classes) == [];
    }
  }

  /** Every truthy argument's string is kept. */
  lemma {:induction false} TruthyArgsAreKept(classes: seq<ClassArg>, i: int)
    requires 0 <= i < |classes| && Truthy(classes[i])
    ensures classes[i].s in KeptClasses(classes)
    decreases |classes|
  {
    var rest := classes[1..];
    var head := if Truthy(classes[0]) then [classes[0].s] else [];
    assert KeptClasses(classes) == head + KeptClasses(rest);
    if i > 0 {
      assert classes[i] == rest[i - 1];
      TruthyArgsAreKept(rest, i - 1);
    }
  }
}
