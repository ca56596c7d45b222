/** The pure parts of lib/api-hooks.ts: the attempt record `useSubmitQuiz`
    builds before inserting it, the error mapping of `useActiveQuiz`, the guard
    returns of `useUserAttempt` and `usePreviousAttempts`, and the flattening of
    previous attempts. The backend response is a parameter. */
module ApiHooks {
  import opened Wrappers
  import opened Domain
  import Scoring

  /** The mutation's variables. */
  datatype SubmitRequest = SubmitRequest(
    userId: string,
    quizId: string,
    answers: map<string, string>,
    timeTakenSeconds: int,
    questions: seq<Question>)

  /** The row inserted into `quiz_attempts`; `submittedAt` is the clock reading
      the mutation takes. */
  datatype AttemptInsert = AttemptInsert(
    userId: string,
    quizId: string,
    score: int,
    timeTakenSeconds: int,
    correctAnswers: int,
    totalQuestions: int,
    answers: map<string, string>,
    submittedAt: string)

  /** The record `useSubmitQuiz` builds: the score uses the default 300 s
      limit, not the quiz's own `max_time_seconds`. */
  function AttemptInsertFor(req: SubmitRequest, submittedAt: string): (r: AttemptInsert)
    ensures r.userId == req.userId && r.quizId == req.quizId && r.submittedAt == submittedAt
    ensures r.answers == req.answers && r.timeTakenSeconds == req.timeTakenSeconds
    ensures r.totalQuestions == |req.questions|
    ensures r.correctAnswers == Scoring.CorrectAnswersCount(req.answers, req.questions)
    ensures 0 <= r.correctAnswers <= r.totalQuestions
    ensures r.score == 100 * r.correctAnswers
                       + (if req.timeTakenSeconds < 300 then 2 * (300 - req.timeTakenSeconds) else 0)
  {
    var correctAnswers := Scoring.CorrectAnswersCount(req.answers, req.questions);
    var score := Scoring.CalculateScore(correctAnswers, |req.questions|, req.timeTakenSeconds,
                                        Scoring.DefaultMaxTimeSeconds);
    AttemptInsert(req.userId, req.quizId, score.finalScore, req.timeTakenSeconds,
                  correctAnswers, |req.questions|, req.answers, submittedAt)
  }

  /** The stored attempt as the backend returns it, carrying the inserted fields. */
  predicate StoredFrom(a: QuizAttempt, ins: AttemptInsert) {
    && a.userId == ins.userId && a.quizId == ins.quizId && a.score == ins.score
    && a.timeTakenSeconds == ins.timeTakenSeconds && a.correctAnswers == ins.correctAnswers
    && a.totalQuestions == ins.totalQuestions && a.answers == ins.answers
  }

  /** The results breakdown recomputes the score from the stored counts with
      the same default limit, so its two parts add up to the stored score. */
  lemma BreakdownMatchesStoredScore(req: SubmitRequest, submittedAt: string, a: QuizAttempt)
    requires StoredFrom(a, AttemptInsertFor(req, submittedAt))
    ensures var b := Scoring.CalculateScore(a.correctAnswers, a.totalQuestions, a.timeTakenSeconds,
                                            Scoring.DefaultMaxTimeSeconds);
      b.accuracyScore + b.timeBonus == a.score
  {
  }

  datatype PostgrestError = PostgrestError(code: string, message: string)

  /** `{ data, error }` of a query: data when `error` is null. */
  datatype QueryResponse<T> = QueryData(data: T) | QueryError(error: PostgrestError)

  /** The code `.single()` reports when no row matches. */
  const NoRowsCode: string := "PGRST116"

  /** `useActiveQuiz`: "no rows" means there is no active quiz; any other error
      is rethrown. */
  function ActiveQuizResult(resp: QueryResponse<Quiz>): (r: Result<Option<Quiz>, PostgrestError>)
    ensures r.Err? <==> resp.QueryError? && resp.error.code != NoRowsCode
    ensures r.Err? ==> r.error == resp.error
    ensures r == Ok(None) <==> resp.QueryError? && resp.error.code == NoRowsCode
    ensures resp.QueryData? ==> r == Ok(Some(resp.data))
  {
    match resp
    case QueryError(e) => if e.code == NoRowsCode then Ok(None) else Err(e)
    case QueryData(q) => Ok(Some(q))
  }

  /** JavaScript truthiness of an optional identifier. */
  predicate Truthy(id: Option<string>) {
    id.Some? && id.value != ""
  }

  /** `useUserAttempt`: `null` without both ids, else the row found (or none). */
  function UserAttemptResult(userId: Option<string>, quizId: Option<string>,
                             resp: QueryResponse<Option<QuizAttempt>>): (r: Result<Option<QuizAttempt>, PostgrestError>)
    ensures !Truthy(userId) || !Truthy(quizId) ==> r == Ok(None)
    ensures Truthy(userId) && Truthy(quizId) ==>
      (r.Err? <==> resp.QueryError?) && (resp.QueryData? ==> r == Ok(resp.data))
    ensures Truthy(userId) && Truthy(quizId) && resp.QueryError? ==> r == Err(resp.error)
  {
    if !Truthy(userId) || !Truthy(quizId) then Ok(None)
    else match resp
      case QueryError(e) => Err(e)
      case QueryData(a) => Ok(a)
  }

  /** The `quizzes!inner (title, week_start_date)` join of a previous attempt. */
  datatype QuizSummary = QuizSummary(title: string, weekStartDate: string)

  datatype AttemptRow = AttemptRow(attempt: QuizAttempt, quizzes: QuizSummary)

  /** Lifts the joined quiz's title and week onto each attempt. */
  function FlattenAttempts(rows: seq<AttemptRow>): (r: seq<PastAttempt>)
    ensures |r| == |rows|
    ensures forall i :: 0 <= i < |r| ==>
      && r[i].attempt == rows[i].attempt
      && r[i].quizTitle == rows[i].quizzes.title
      && r[i].quizWeekStart == rows[i].quizzes.weekStartDate
  {
    seq(|rows|, i requires 0 <= i < |rows| =>
      PastAttempt(rows[i].attempt, rows[i].quizzes.title, rows[i].quizzes.weekStartDate))
  }

  /** `usePreviousAttempts`: `[]` without a user id, else the flattened rows. */
  function PreviousAttemptsResult(userId: Option<string>, resp: QueryResponse<seq<AttemptRow>>)
    : (r: Result<seq<PastAttempt>, PostgrestError>)
    ensures !Truthy(userId) ==> r == Ok([])
    ensures Truthy(userId) ==> (r.Err? <==> resp.QueryError?)
    ensures Truthy(userId) && resp.QueryData? ==> r == Ok(FlattenAttempts(resp.data))
    ensures Truthy(userId) && resp.QueryError? ==> r == Err(resp.error)
  {
    if !Truthy(userId) then Ok([])
    else match resp
      case QueryError(e) => Err(e)
      case QueryData(rows) => Ok(FlattenAttempts(rows))
  }

  /** Flattening commutes with concatenation, so it keeps the newest-first order. */
  lemma FlattenAppend(a: seq<AttemptRow>, b: seq<AttemptRow>)
    ensures FlattenAttempts(a + b) == FlattenAttempts(a) + FlattenAttempts(b)
  {
  }
}
