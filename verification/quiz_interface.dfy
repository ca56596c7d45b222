/** The session controller of components/quiz/QuizInterface.tsx: the
    start-if-absent effect, the wall-clock countdown, the completion check and
    the choice of the current question, plus an event machine that feeds the
    question screen's clicks through the same store. Effects, intervals and
    clicks are discrete events carrying the instant `now` they observe. */
module QuizInterface {
  import opened Wrappers
  import opened Domain
  import opened QuizStore
  import opened QuizQuestion

  /** `Math.max(0, maxTime - elapsed)`: the countdown derived from the start
      instant, never from the number of ticks. */
  function RemainingSeconds(now: int, startTime: int, maxTime: int): (r: int)
    ensures r >= 0
    ensures r == 0 <==> ElapsedSeconds(now, startTime) >= maxTime
    ensures r > 0 ==> r == maxTime - ElapsedSeconds(now, startTime)
    ensures now >= startTime && maxTime >= 0 ==> r <= maxTime
  {
    var elapsed := ElapsedSeconds(now, startTime);
    if maxTime - elapsed >= 0 then maxTime - elapsed else 0
  }

  /** The countdown never goes up as time passes. */
  lemma RemainingNonIncreasing(now1: int, now2: int, startTime: int, maxTime: int)
    requires now1 <= now2
    ensures RemainingSeconds(now2, startTime, maxTime) <= RemainingSeconds(now1, startTime, maxTime)
  {
    var e1 := ElapsedSeconds(now1, startTime);
    var e2 := ElapsedSeconds(now2, startTime);
    assert e1 <= e2;
  }

  /** The first effect: start the session only when it has no start time. */
  function StartIfAbsent(s: Session, quiz: Quiz, now: int): (r: Session)
    ensures Started(s) ==> r == s
    ensures !Started(s) ==>
      && r.startTime == Some(now) && r.timeRemaining == quiz.maxTimeSeconds
      && r.currentQuestionIndex == 0 && r.answers == map[]
  {
    if !Started(s) then StartQuiz(s, quiz.maxTimeSeconds, now) else s
  }

  /** What the second effect does on a run. */
  datatype TimerDecision = NoTimer | FireCompletion(completion: Completion) | RunInterval

  /** The second effect: completion once a started session has no time left,
      an interval while it has some, nothing before it starts. */
  function TimerEffect(s: Session, now: int): (d: TimerDecision)
    ensures d.NoTimer? <==> !Started(s)
    ensures d.FireCompletion? <==> Started(s) && s.timeRemaining <= 0
    ensures d.RunInterval? <==> Started(s) && s.timeRemaining > 0
    ensures d.FireCompletion? ==>
      && d.completion.answers == s.answers
      && d.completion.timeTaken == ElapsedSeconds(now, s.startTime.value)
  {
    if !Started(s) || s.timeRemaining <= 0 then
      if s.timeRemaining <= 0 && Started(s) then
        FireCompletion(Completion(s.answers, ElapsedSeconds(now, s.startTime.value)))
      else NoTimer
    else RunInterval
  }

  datatype TickResult = TickResult(session: Session, cleared: bool)

  /** One interval callback: write the derived remaining time; clear the
      interval once it reaches zero. */
  function IntervalTick(s: Session, startTime: int, now: int, maxTime: int): (r: TickResult)
    ensures r.session.timeRemaining == RemainingSeconds(now, startTime, maxTime)
    ensures r.cleared <==> r.session.timeRemaining == 0
    ensures r.session.currentQuestionIndex == s.currentQuestionIndex
    ensures r.session.answers == s.answers && r.session.startTime == s.startTime
  {
    var remaining := RemainingSeconds(now, startTime, maxTime);
    TickResult(UpdateTimeRemaining(s, remaining), remaining == 0)
  }

  /** A run of interval callbacks at the given instants; callbacks after the
      interval is cleared do not happen. */
  function TickMany(s: Session, startTime: int, times: seq<int>, maxTime: int): Session
    decreases |times|
  {
    if |times| == 0 then s
    else
      var r := IntervalTick(s, startTime, times[0], maxTime);
      if r.cleared then r.session else TickMany(r.session, startTime, times[1..], maxTime)
  }

  predicate NonDecreasing(times: seq<int>) {
    forall i, j :: 0 <= i < j < |times| ==> times[i] <= times[j]
  }

  /** However many callbacks ran, the remaining time is the one derived from
      the last instant: the countdown does not accumulate per tick. */
  lemma {:induction false} TickManyIsDerived(s: Session, startTime: int, times: seq<int>, maxTime: int)
    requires |times| > 0 && NonDecreasing(times)
    ensures TickMany(s, startTime, times, maxTime).timeRemaining
            == RemainingSeconds(times[|times| - 1], startTime, maxTime)
    decreases |times|
  {
    var r := IntervalTick(s, startTime, times[0], maxTime);
    if r.cleared {
      RemainingNonIncreasing(times[0], times[|times| - 1], startTime, maxTime);
    } else if |times| > 1 {
      var rest := times[1..];
      assert NonDecreasing(rest) by {
        forall i, j | 0 <= i < j < |rest|
          ensures rest[i] <= rest[j]
        {
          assert rest[i] == times[i + 1] && rest[j] == times[j + 1];
        }
      }
      TickManyIsDerived(r.session, startTime, rest, maxTime);
      assert rest[|rest| - 1] == times[|times| - 1];
    }
  }

  /** `questions[currentQuestionIndex]`; `None` (JavaScript `undefined`) out of range. */
  function CurrentQuestion(questions: seq<Question>, index: int): (r: Option<Question>)
    ensures r.Some? <==> 0 <= index < |questions|
    ensures r.Some? ==> r.value == questions[index]
  {
    if 0 <= index < |questions| then Some(questions[index]) else None
  }

  /** The props of the rendered question screen, or `None` when the component
      renders nothing. */
  function QuestionPropsFor(questions: seq<Question>, s: Session): (r: Option<Props>)
    ensures r.Some? <==> 0 <= s.currentQuestionIndex < |questions|
    ensures r.Some? ==>
      && r.value.question == questions[s.currentQuestionIndex]
      && r.value.questionNumber == s.currentQuestionIndex + 1
      && r.value.totalQuestions == |questions|
      && (r.value.selectedAnswer.Some? <==> r.value.question.id in s.answers)
      && (r.value.selectedAnswer.Some? ==> r.value.selectedAnswer.value == s.answers[r.value.question.id])
  {
    match CurrentQuestion(questions, s.currentQuestionIndex)
    case None => None
    case Some(q) =>
      var selected := if q.id in s.answers then Some(s.answers[q.id]) else None;
      Some(Props(q, s.currentQuestionIndex + 1, |questions|, selected))
  }

  /** The store together with the question screen's confirm-dialog flag. */
  datatype Screen = Screen(session: Session, showConfirmModal: bool)

  datatype Event =
    | StartEffectRuns(now: int)     // first effect
    | TimerEffectRuns(now: int)     // second effect
    | IntervalFires(now: int)       // interval callback, when one is scheduled
    | OptionSelected(choice: Label)  // radio button
    | NextClicked                   // "Next Question" / "Submit Quiz"
    | ConfirmClicked(now: int)      // "Confirm Submission"
    | CancelClicked                 // "Cancel"

  datatype StepResult = StepResult(screen: Screen, emitted: Option<Completion>)

  /** One event. Clicks reach only a rendered question, the dialog buttons only
      an open dialog, and an interval exists only while the second effect
      scheduled one (started, time left). */
  function Step(scr: Screen, quiz: Quiz, questions: seq<Question>, ev: Event): (r: StepResult)
    ensures r.emitted.Some? ==> r.screen == scr
    ensures ev.TimerEffectRuns? ==> r.screen == scr
    ensures ev.StartEffectRuns? || ev.IntervalFires? || ev.OptionSelected? ==>
      r.screen.showConfirmModal == scr.showConfirmModal
    ensures !Started(scr.session) ==> r.emitted.None?
  {
    var s := scr.session;
    var props := QuestionPropsFor(questions, s);
    match ev
    case StartEffectRuns(now) => StepResult(scr.(session := StartIfAbsent(s, quiz, now)), None)
    case TimerEffectRuns(now) =>
      (match TimerEffect(s, now)
       case FireCompletion(c) => StepResult(scr, Some(c))
       case _ => StepResult(scr, None))
    case IntervalFires(now) =>
      if Started(s) && s.timeRemaining > 0 then
        StepResult(scr.(session := IntervalTick(s, s.startTime.value, now, quiz.maxTimeSeconds).session), None)
      else StepResult(scr, None)
    case OptionSelected(choice) =>
      if props.Some? then StepResult(scr.(session := HandleAnswerSelect(s, props.value, choice)), None)
      else StepResult(scr, None)
    case NextClicked =>
      if props.Some? then
        var r := HandleNext(s, scr.showConfirmModal, props.value);
        StepResult(Screen(r.session, r.showConfirmModal), None)
      else StepResult(scr, None)
    case ConfirmClicked(now) =>
      if props.Some? && scr.showConfirmModal then StepResult(scr, HandleSubmit(s, now))
      else StepResult(scr, None)
    case CancelClicked =>
      if props.Some? && scr.showConfirmModal then StepResult(scr.(showConfirmModal := false), None)
      else StepResult(scr, None)
  }

  /** Completion is emitted only by the timer path once time is up or by a
      confirmed submission, always with the current answers and the whole
      seconds since the start; before the session starts nothing is emitted. */
  lemma StepEmitsOnlyOnCompletion(scr: Screen, quiz: Quiz, questions: seq<Question>, ev: Event)
    ensures var r := Step(scr, quiz, questions, ev);
      r.emitted.Some? ==>
        && Started(scr.session)
        && r.screen == scr
        && r.emitted.value.answers == scr.session.answers
        && ((ev.TimerEffectRuns? && scr.session.timeRemaining <= 0)
            || (ev.ConfirmClicked? && scr.showConfirmModal))
        && r.emitted.value.timeTaken == ElapsedSeconds(ev.now, scr.session.startTime.value)
  {
  }

  /** Cancelling closes the dialog and emits nothing. */
  lemma CancelEmitsNothing(scr: Screen, quiz: Quiz, questions: seq<Question>)
    requires scr.showConfirmModal && 0 <= scr.session.currentQuestionIndex < |questions|
    ensures Step(scr, quiz, questions, CancelClicked) == StepResult(scr.(showConfirmModal := false), None)
  {
  }

  /** An answered last question opens the dialog and leaves the index alone. */
  lemma LastQuestionAsksToConfirm(scr: Screen, quiz: Quiz, questions: seq<Question>)
    requires |questions| > 0 && scr.session.currentQuestionIndex == |questions| - 1
    requires var id := questions[|questions| - 1].id; id in scr.session.answers && scr.session.answers[id] != ""
    ensures Step(scr, quiz, questions, NextClicked) == StepResult(scr.(showConfirmModal := true), None)
  {
  }

  datatype RunResult = RunResult(screen: Screen, emitted: seq<Completion>)

  /** A sequence of events, collecting every emitted completion in order. */
  function Run(scr: Screen, quiz: Quiz, questions: seq<Question>, events: seq<Event>): (r: RunResult)
    ensures |r.emitted| <= |events|
    ensures |events| == 0 ==> r == RunResult(scr, [])
    decreases |events|
  {
    if |events| == 0 then RunResult(scr, [])
    else
      var r := Step(scr, quiz, questions, events[0]);
      var rest := Run(r.screen, quiz, questions, events[1..]);
      RunResult(rest.screen, (if r.emitted.Some? then [r.emitted.value] else []) + rest.emitted)
  }

  /** Once started, a session keeps its start instant, and its index stays
      within the question list and never decreases, whatever events arrive. */
  lemma {:induction false} RunKeepsSessionShape(scr: Screen, quiz: Quiz, questions: seq<Question>, events: seq<Event>)
    requires Started(scr.session)
    requires 0 <= scr.session.currentQuestionIndex < |questions|
    ensures var s := Run(scr, quiz, questions, events).screen.session;
      && s.startTime == scr.session.startTime
      && scr.session.currentQuestionIndex <= s.currentQuestionIndex < |questions|
    decreases |events|
  {
    if |events| > 0 {
      var r := Step(scr, quiz, questions, events[0]);
      if events[0].NextClicked? {
        NextStaysInRange(scr.session, scr.showConfirmModal, QuestionPropsFor(questions, scr.session).value);
      }
      RunKeepsSessionShape(r.screen, quiz, questions, events[1..]);
    }
  }

  /** From any in-range index, any events keep the index in range. */
  lemma {:induction false} RunKeepsIndexInRange(scr: Screen, quiz: Quiz, questions: seq<Question>, events: seq<Event>)
    requires 0 <= scr.session.currentQuestionIndex < |questions|
    ensures var s := Run(scr, quiz, questions, events).screen.session;
      0 <= s.currentQuestionIndex < |questions|
    decreases |events|
  {
    if |events| > 0 {
      var r := Step(scr, quiz, questions, events[0]);
      if events[0].NextClicked? {
        NextStaysInRange(scr.session, scr.showConfirmModal, QuestionPropsFor(questions, scr.session).value);
      }
      RunKeepsIndexInRange(r.screen, quiz, questions, events[1..]);
    }
  }

  /** A five-minute quiz with no manual submission: the interval callback at
      300 s writes zero, and the effect that follows emits the answers so far
      with 300 s taken. */
  lemma TimeoutScenario(scr: Screen, quiz: Quiz, questions: seq<Question>, t0: int)
    requires quiz.maxTimeSeconds == 300
    requires scr.session.startTime == Some(t0) && t0 != 0 && scr.session.timeRemaining > 0
    ensures var r := Run(scr, quiz, questions, [IntervalFires(t0 + 300000), TimerEffectRuns(t0 + 300000)]);
      && r.screen.session.timeRemaining == 0
      && r.emitted == [Completion(scr.session.answers, 300)]
  {
    var r1 := Step(scr, quiz, questions, IntervalFires(t0 + 300000));
    assert ElapsedSeconds(t0 + 300000, t0) == 300;
    assert r1.screen.session.timeRemaining == 0;
    var r2 := Step(r1.screen, quiz, questions, TimerEffectRuns(t0 + 300000));
    assert r2.emitted == Some(Completion(scr.session.answers, 300));
    var events := [IntervalFires(t0 + 300000), TimerEffectRuns(t0 + 300000)];
    assert events[1..][1..] == [];
    assert Run(r1.screen, quiz, questions, events[1..]) == RunResult(r2.screen, [r2.emitted.value]);
  }

  /** Nothing in this component guards against a second completion: with the
      time up, each later run of the second effect emits again. */
  lemma CompletionCanRepeat(scr: Screen, quiz: Quiz, questions: seq<Question>, now1: int, now2: int)
    requires Started(scr.session) && scr.session.timeRemaining <= 0
    ensures |Run(scr, quiz, questions, [TimerEffectRuns(now1), TimerEffectRuns(now2)]).emitted| == 2
  {
    var r1 := Step(scr, quiz, questions, TimerEffectRuns(now1));
    var r2 := Step(r1.screen, quiz, questions, TimerEffectRuns(now2));
    assert r1.emitted.Some? && r1.screen == scr;
    assert r2.emitted.Some?;
    var events := [TimerEffectRuns(now1), TimerEffectRuns(now2)];
    assert events[1..][1..] == [];
    assert Run(r1.screen, quiz, questions, events[1..]) == RunResult(r2.screen, [r2.emitted.value]);
  }
}
