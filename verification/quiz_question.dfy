/** One question screen of components/quiz/QuizQuestion.tsx: answer capture,
    gated forward navigation with a confirm step on the last question, and the
    manual submission path. The component-local `showConfirmModal` flag is
    passed in and returned explicitly. */
module QuizQuestion {
  import opened Wrappers
  import opened Domain
  import opened QuizStore
  import Scoring

  /** The props the parent passes: `selectedAnswer` is `answers[question.id]`,
      `None` when unanswered. */
  datatype Props = Props(
    question: Question,
    questionNumber: int,
    totalQuestions: int,
    selectedAnswer: Option<string>)

  predicate IsLastQuestion(p: Props) {
    p.questionNumber == p.totalQuestions
  }

  /** JavaScript truthiness of `selectedAnswer`: present and non-empty. */
  predicate HasSelection(p: Props) {
    p.selectedAnswer.Some? && p.selectedAnswer.value != ""
  }

  /** The arguments of `onComplete(answers, timeTaken)`. */
  datatype Completion = Completion(answers: map<string, string>, timeTaken: int)

  /** `Math.floor((now - startTime) / 1000)`: whole seconds elapsed. */
  function ElapsedSeconds(now: int, startTime: int): (e: int)
    ensures 1000 * e <= now - startTime < 1000 * e + 1000
    ensures now >= startTime ==> e >= 0
  {
    (now - startTime) / 1000
  }

  /** `handleAnswerSelect`: writes the label under this question's id only. */
  function HandleAnswerSelect(s: Session, p: Props, answer: Label): (r: Session)
    ensures p.question.id in r.answers && r.answers[p.question.id] == LabelText(answer)
    ensures r.answers.Keys == s.answers.Keys + {p.question.id}
    ensures forall k :: k in s.answers && k != p.question.id ==> r.answers[k] == s.answers[k]
    ensures r.currentQuestionIndex == s.currentQuestionIndex
    ensures r.startTime == s.startTime && r.timeRemaining == s.timeRemaining
  {
    SetAnswer(s, p.question.id, LabelText(answer))
  }

  datatype NextResult = NextResult(session: Session, showConfirmModal: bool)

  /** `handleNext`: nothing without a selection; on the last question it opens
      the confirm dialog; otherwise it moves to index `questionNumber`. */
  function HandleNext(s: Session, showConfirmModal: bool, p: Props): (r: NextResult)
    ensures !HasSelection(p) ==> r == NextResult(s, showConfirmModal)
    ensures HasSelection(p) && IsLastQuestion(p) ==> r == NextResult(s, true)
    ensures HasSelection(p) && !IsLastQuestion(p) ==>
      && r.showConfirmModal == showConfirmModal
      && r.session.currentQuestionIndex == p.questionNumber
      && r.session.answers == s.answers
      && r.session.startTime == s.startTime
      && r.session.timeRemaining == s.timeRemaining
  {
    if !HasSelection(p) then NextResult(s, showConfirmModal)
    else if IsLastQuestion(p) then NextResult(s, true)
    else NextResult(SetCurrentQuestionIndex(s, p.questionNumber), showConfirmModal)
  }

  /** With the props the quiz screen passes (number = index + 1), a step never
      moves backwards and never leaves `[0, total - 1]`. */
  lemma NextStaysInRange(s: Session, showConfirmModal: bool, p: Props)
    requires p.questionNumber == s.currentQuestionIndex + 1
    requires 0 <= s.currentQuestionIndex < p.totalQuestions
    ensures var r := HandleNext(s, showConfirmModal, p).session;
      && s.currentQuestionIndex <= r.currentQuestionIndex < p.totalQuestions
      && r.currentQuestionIndex <= s.currentQuestionIndex + 1
  {
  }

  /** `handleSubmit`: nothing before the session has started; otherwise the
      current answers and the whole seconds since the start. */
  function HandleSubmit(s: Session, now: int): (r: Option<Completion>)
    ensures r.Some? <==> Started(s)
    ensures r.Some? ==> r.value.answers == s.answers
    ensures r.Some? ==> 1000 * r.value.timeTaken <= now - s.startTime.value < 1000 * r.value.timeTaken + 1000
  {
    if !Started(s) then None
    else Some(Completion(s.answers, ElapsedSeconds(now, s.startTime.value)))
  }

  /** Selecting, for each question in turn, its correct option. */
  function SelectAllCorrect(s: Session, questions: seq<Question>): (r: Session)
    ensures r.answers.Keys >= s.answers.Keys
    ensures forall k :: k in s.answers && (forall i :: 0 <= i < |questions| ==> questions[i].id != k)
                        ==> r.answers[k] == s.answers[k]
    decreases |questions|
  {
    if |questions| == 0 then s
    else SelectAllCorrect(SetAnswer(s, questions[0].id, LabelText(questions[0].correctOption)), questions[1..])
  }

  predicate DistinctIds(questions: seq<Question>) {
    forall i, j :: 0 <= i < j < |questions| ==> questions[i].id != questions[j].id
  }

  /** With distinct question ids, selecting every correct option leaves every
      question answered correctly. */
  lemma {:induction false} SelectAllCorrectAnswersEach(s: Session, questions: seq<Question>)
    requires DistinctIds(questions)
    ensures forall i :: 0 <= i < |questions| ==>
              Scoring.AnsweredCorrectly(SelectAllCorrect(s, questions).answers, questions[i])
    decreases |questions|
  {
    if |questions| > 0 {
      var q := questions[0];
      var s1 := SetAnswer(s, q.id, LabelText(q.correctOption));
      var rest := questions[1..];
      SelectAllCorrectAnswersEach(s1, rest);
      assert forall i :: 0 <= i < |rest| ==> rest[i].id != q.id by {
        forall i | 0 <= i < |rest|
          ensures rest[i].id != q.id
        {
          assert rest[i] == questions[i + 1];
        }
      }
      forall i | 0 < i < |questions|
        ensures questions[i] == rest[i - 1]
      {
      }
    }
  }

  /** With distinct question ids, answering every question correctly scores
      the full question count. */
  lemma SelectAllCorrectCountsAll(s: Session, questions: seq<Question>)
    requires DistinctIds(questions)
    ensures Scoring.CorrectAnswersCount(SelectAllCorrect(s, questions).answers, questions) == |questions|
  {
    SelectAllCorrectAnswersEach(s, questions);
    Scoring.AllCorrectIffFullCount(SelectAllCorrect(s, questions).answers, questions);
  }
}
