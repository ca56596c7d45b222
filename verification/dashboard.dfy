/** The view-state machine of components/Dashboard.tsx. The submission is an
    abstract outcome: the attempt the backend returns, or a failure. */
module Dashboard {
  import opened Wrappers
  import opened Domain
  import opened QuizStore
  import opened QuizQuestion
  import opened ApiHooks
  import QuizInterface

  datatype View = DashboardView | QuizView | ResultsView

  /** The component's two state hooks and the shared quiz store. */
  datatype State = State(view: View, completedAttempt: Option<QuizAttempt>, session: Session)

  datatype SubmitOutcome = Submitted(attempt: QuizAttempt) | SubmitFailed

  function InitialState(session: Session): (st: State)
    ensures st.view == DashboardView && st.completedAttempt.None? && st.session == session
  {
    State(DashboardView, None, session)
  }

  /** `handleStartQuiz`: clear the store, then show the quiz. */
  function HandleStartQuiz(st: State): (r: State)
    ensures r.view == QuizView && r.session == Initial() && r.completedAttempt == st.completedAttempt
    ensures !Started(r.session)
  {
    State(QuizView, st.completedAttempt, ResetQuiz(st.session))
  }

  /** What a completion handler did: the new state, the request it sent (if
      any) and whether it raised the failure alert. */
  datatype Completed = Completed(state: State, request: Option<SubmitRequest>, alerted: bool)

  /** `handleQuizComplete`: nothing without a user and an active quiz; on
      success show the returned attempt and clear the store; on failure keep
      everything and alert, so the answers survive for a retry. */
  function HandleQuizComplete(st: State, user: Option<User>, activeQuiz: Option<Quiz>,
                              questions: seq<Question>, c: Completion, outcome: SubmitOutcome): (r: Completed)
    ensures user.None? || activeQuiz.None? ==> r == Completed(st, None, false)
    ensures user.Some? && activeQuiz.Some? ==>
      r.request == Some(SubmitRequest(user.value.id, activeQuiz.value.id, c.answers, c.timeTaken, questions))
    ensures user.Some? && activeQuiz.Some? && outcome.Submitted? ==>
      r.state == State(ResultsView, Some(outcome.attempt), Initial()) && !r.alerted
    ensures user.Some? && activeQuiz.Some? && outcome.SubmitFailed? ==>
      r.state == st && r.alerted
  {
    if user.None? || activeQuiz.None? then Completed(st, None, false)
    else
      var req := SubmitRequest(user.value.id, activeQuiz.value.id, c.answers, c.timeTaken, questions);
      match outcome
      case Submitted(attempt) => Completed(State(ResultsView, Some(attempt), ResetQuiz(st.session)), Some(req), false)
      case SubmitFailed => Completed(st, Some(req), true)
  }

  /** `handleBackToDashboard`. */
  function HandleBackToDashboard(st: State): (r: State)
    ensures r.view == DashboardView && r.completedAttempt.None? && r.session == st.session
  {
    State(DashboardView, None, st.session)
  }

  /** After a failed submission, submitting again from the same store at the
      same instant resends exactly the same request. */
  lemma RetryResendsSameRequest(st: State, user: Option<User>, activeQuiz: Option<Quiz>,
                                questions: seq<Question>, now: int, outcome: SubmitOutcome)
    requires user.Some? && activeQuiz.Some? && Started(st.session)
    ensures var c := HandleSubmit(st.session, now).value;
      var first := HandleQuizComplete(st, user, activeQuiz, questions, c, SubmitFailed);
      var c2 := HandleSubmit(first.state.session, now);
      c2 == Some(c) && HandleQuizComplete(first.state, user, activeQuiz, questions, c2.value, outcome).request == first.request
  {
  }

  /** After a successful submission the store has no start time, so the quiz
      screen's timer path has nothing left to fire. */
  lemma SuccessSilencesTimer(st: State, user: Option<User>, activeQuiz: Option<Quiz>,
                             questions: seq<Question>, c: Completion, a: QuizAttempt, now: int)
    requires user.Some? && activeQuiz.Some?
    ensures var r := HandleQuizComplete(st, user, activeQuiz, questions, c, Submitted(a));
      QuizInterface.TimerEffect(r.state.session, now) == QuizInterface.NoTimer
      && HandleSubmit(r.state.session, now).None?
  {
  }

  datatype Panel = NoActiveQuizPanel | QuizCardPanel(quiz: Quiz, attempt: Option<QuizAttempt>, questionCount: int)

  datatype Page =
    | LoadingPage
    | QuizPage(quiz: Quiz, questions: seq<Question>)
    | ResultsPage(attempt: QuizAttempt, quiz: Quiz)
    | HomePage(panel: Panel, previousAttempts: seq<PastAttempt>)

  /** Which page renders: loading wins, then the quiz (needs an active quiz with
      questions), then the results (need an attempt and the quiz), else home. */
  function Render(loading: bool, st: State, activeQuiz: Option<Quiz>, questions: seq<Question>,
                  userAttempt: Option<QuizAttempt>, previousAttempts: seq<PastAttempt>): (p: Page)
    ensures loading ==> p == LoadingPage
    ensures p.QuizPage? <==> !loading && st.view == QuizView && activeQuiz.Some? && |questions| > 0
    ensures p.ResultsPage? <==> !loading && st.view == ResultsView && st.completedAttempt.Some? && activeQuiz.Some?
    ensures p.HomePage? ==> (p.panel.NoActiveQuizPanel? <==> activeQuiz.None?)
    ensures p.HomePage? && activeQuiz.Some? ==> p.panel.questionCount == |questions| && p.panel.attempt == userAttempt
  {
    if loading then LoadingPage
    else if st.view == QuizView && activeQuiz.Some? && |questions| > 0 then QuizPage(activeQuiz.value, questions)
    else if st.view == ResultsView && st.completedAttempt.Some? && activeQuiz.Some? then
      ResultsPage(st.completedAttempt.value, activeQuiz.value)
    else
      var panel := if activeQuiz.None? then NoActiveQuizPanel else QuizCardPanel(activeQuiz.value, userAttempt, |questions|);
      HomePage(panel, previousAttempts)
  }
}
