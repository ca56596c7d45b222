/** The quiz-session store of lib/quiz-store.ts: one record and five total
    mutators. `Date.now()` in `startQuiz` becomes the parameter `now`. */
module QuizStore {
  import opened Wrappers

  /** The `timeRemaining` of a fresh or reset store, in seconds. */
  const DefaultTimeRemaining: int := 300

  /** `answers` maps question id to the selected option label; `startTime` is
      in milliseconds, `None` for `null`. */
  datatype Session = Session(
    currentQuestionIndex: int,
    answers: map<string, string>,
    startTime: Option<int>,
    timeRemaining: int)

  /** JavaScript truthiness of `startTime`: `null` and `0` both read as
      "not started". */
  predicate Started(s: Session) {
    s.startTime.Some? && s.startTime.value != 0
  }

  /** The store as created. */
  function Initial(): (s: Session)
    ensures s.currentQuestionIndex == 0 && s.answers == map[]
    ensures s.startTime == None && s.timeRemaining == DefaultTimeRemaining
    ensures !Started(s)
  {
    Session(0, map[], None, DefaultTimeRemaining)
  }

  /** `setCurrentQuestionIndex`: overwrites the index, with no range check. */
  function SetCurrentQuestionIndex(s: Session, index: int): (r: Session)
    ensures r.currentQuestionIndex == index
    ensures r.answers == s.answers && r.startTime == s.startTime && r.timeRemaining == s.timeRemaining
  {
    s.(currentQuestionIndex := index)
  }

  /** `setAnswer`: records `answer` for `questionId`, keeping every other answer. */
  function SetAnswer(s: Session, questionId: string, answer: string): (r: Session)
    ensures questionId in r.answers && r.answers[questionId] == answer
    ensures r.answers.Keys == s.answers.Keys + {questionId}
    ensures forall k :: k in s.answers && k != questionId ==> r.answers[k] == s.answers[k]
    ensures r.currentQuestionIndex == s.currentQuestionIndex
    ensures r.startTime == s.startTime && r.timeRemaining == s.timeRemaining
  {
    s.(answers := s.answers[questionId := answer])
  }

  /** `startQuiz(maxTime)` at instant `now`: a fresh session whatever came before. */
  function StartQuiz(s: Session, maxTime: int, now: int): (r: Session)
    ensures r.startTime == Some(now) && r.timeRemaining == maxTime
    ensures r.currentQuestionIndex == 0 && r.answers == map[]
    ensures now != 0 ==> Started(r)
  {
    Session(0, map[], Some(now), maxTime)
  }

  /** `updateTimeRemaining`: overwrites the remaining time, with no clamp. */
  function UpdateTimeRemaining(s: Session, seconds: int): (r: Session)
    ensures r.timeRemaining == seconds
    ensures r.currentQuestionIndex == s.currentQuestionIndex
    ensures r.answers == s.answers && r.startTime == s.startTime
  {
    s.(timeRemaining := seconds)
  }

  /** `resetQuiz`: back to the initial record. */
  function ResetQuiz(s: Session): (r: Session)
    ensures r == Initial()
  {
    Session(0, map[], None, DefaultTimeRemaining)
  }

  /** Resetting forgets the prior state and is idempotent. */
  lemma ResetForgetsAndIsIdempotent(s: Session, t: Session)
    ensures ResetQuiz(s) == ResetQuiz(t)
    ensures ResetQuiz(ResetQuiz(s)) == ResetQuiz(s)
  {
  }

  /** Starting does not depend on the state it replaces. */
  lemma StartForgetsPrior(s: Session, t: Session, maxTime: int, now: int)
    ensures StartQuiz(s, maxTime, now) == StartQuiz(t, maxTime, now)
  {
  }

  /** Repeating the same answer changes nothing. */
  lemma SetAnswerIdempotent(s: Session, questionId: string, answer: string)
    ensures SetAnswer(SetAnswer(s, questionId, answer), questionId, answer) == SetAnswer(s, questionId, answer)
  {
  }

  /** A later answer to the same question replaces an earlier one. */
  lemma SetAnswerOverwrites(s: Session, questionId: string, a1: string, a2: string)
    ensures SetAnswer(SetAnswer(s, questionId, a1), questionId, a2) == SetAnswer(s, questionId, a2)
  {
  }

  /** Answers to different questions commute. */
  lemma SetAnswerCommutes(s: Session, q1: string, a1: string, q2: string, a2: string)
    requires q1 != q2
    ensures SetAnswer(SetAnswer(s, q1, a1), q2, a2) == SetAnswer(SetAnswer(s, q2, a2), q1, a1)
  {
  }
}
