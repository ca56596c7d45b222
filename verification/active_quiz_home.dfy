/** The view-state machine of components/ActiveQuizHome.tsx: like the
    dashboard, but a successful submission navigates to the history page
    instead of showing results, and the view state is left as it was. */
module ActiveQuizHome {
  import opened Wrappers
  import opened Domain
  import opened QuizStore
  import opened QuizQuestion
  import opened ApiHooks

  datatype View = HomeView | QuizView

  datatype State = State(view: View, session: Session)

  datatype SubmitOutcome = Submitted | SubmitFailed

  const HistoryPath: string := "/history"

  /** `handleStartQuiz`: clear the store, then show the quiz. */
  function HandleStartQuiz(st: State): (r: State)
    ensures r.view == QuizView && r.session == Initial()
  {
    State(QuizView, ResetQuiz(st.session))
  }

  /** What a completion handler did: new state, request sent, route pushed,
      alert raised. */
  datatype Completed = Completed(state: State, request: Option<SubmitRequest>, navigateTo: Option<string>, alerted: bool)

  /** `handleQuizComplete`: nothing without a user and an active quiz; on
      success go to the history page and clear the store (the view stays);
      on failure keep the store and alert. */
  function HandleQuizComplete(st: State, user: Option<User>, activeQuiz: Option<Quiz>,
                              questions: seq<Question>, c: Completion, outcome: SubmitOutcome): (r: Completed)
    ensures user.None? || activeQuiz.None? ==> r == Completed(st, None, None, false)
    ensures user.Some? && activeQuiz.Some? ==>
      r.request == Some(SubmitRequest(user.value.id, activeQuiz.value.id, c.answers, c.timeTaken, questions))
    ensures user.Some? && activeQuiz.Some? && outcome.Submitted? ==>
      r.state == State(st.view, Initial()) && r.navigateTo == Some(HistoryPath) && !r.alerted
    ensures user.Some? && activeQuiz.Some? && outcome.SubmitFailed? ==>
      r.state == st && r.navigateTo.None? && r.alerted
  {
    if user.None? || activeQuiz.None? then Completed(st, None, None, false)
    else
      var req := SubmitRequest(user.value.id, activeQuiz.value.id, c.answers, c.timeTaken, questions);
      match outcome
      case Submitted => Completed(State(st.view, ResetQuiz(st.session)), Some(req), Some(HistoryPath), false)
      case SubmitFailed => Completed(st, Some(req), None, true)
  }

  datatype Panel = NoActiveQuizPanel | QuizCardPanel(quiz: Quiz, attempt: Option<QuizAttempt>, questionCount: int)

  datatype Page = LoadingPage | QuizPage(quiz: Quiz, questions: seq<Question>) | HomePage(panel: Panel)

  /** Loading wins; the quiz needs the quiz view, an active quiz and questions;
      otherwise the home page, whose panel says "No Active Quiz" exactly when
      there is none. */
  function Render(loading: bool, st: State, activeQuiz: Option<Quiz>, questions: seq<Question>,
                  userAttempt: Option<QuizAttempt>): (p: Page)
    ensures loading ==> p == LoadingPage
    ensures p.QuizPage? <==> !loading && st.view == QuizView && activeQuiz.Some? && |questions| > 0
    ensures p.HomePage? <==> !loading && !(st.view == QuizView && activeQuiz.Some? && |questions| > 0)
    ensures p.HomePage? ==> (p.panel.NoActiveQuizPanel? <==> activeQuiz.None?)
  {
    if loading then LoadingPage
    else if st.view == QuizView && activeQuiz.Some? && |questions| > 0 then QuizPage(activeQuiz.value, questions)
    else HomePage(if activeQuiz.None? then NoActiveQuizPanel else QuizCardPanel(activeQuiz.value, userAttempt, |questions|))
  }

  /** After a success the view is still the quiz view, so a re-render with the
      same quiz shows the quiz screen again on a cleared store until the route
      changes. */
  lemma SuccessKeepsQuizView(st: State, user: Option<User>, activeQuiz: Option<Quiz>,
                             questions: seq<Question>, c: Completion)
    requires st.view == QuizView && user.Some? && activeQuiz.Some? && |questions| > 0
    ensures var r := HandleQuizComplete(st, user, activeQuiz, questions, c, Submitted);
      Render(false, r.state, activeQuiz, questions, None).QuizPage? && !Started(r.state.session)
  {
  }
}
