/** The quiz list of app/quiz/page.tsx: previous attempts keyed by quiz id,
    and one card per quiz, the active one highlighted. */
module QuizListPage {
  import opened Wrappers
  import opened Domain

  /** `new Map(attempts.map(a => [a.quiz_id, a]))`: entries are inserted in
      list order, so a later attempt for the same quiz replaces an earlier one. */
  function AttemptsMap(attempts: seq<PastAttempt>): (m: map<string, PastAttempt>)
    ensures forall id :: id in m ==> exists i :: 0 <= i < |attempts| && attempts[i].attempt.quizId == id
    decreases |attempts|
  {
    if |attempts| == 0 then map[]
    else
      var last := attempts[|attempts| - 1];
      var m := AttemptsMap(attempts[..|attempts| - 1]);
      assert forall i :: 0 <= i < |attempts| - 1 ==> attempts[..|attempts| - 1][i] == attempts[i];
      m[last.attempt.quizId := last]
  }

  /** Position `i` is the last attempt in the list for quiz `id`. */
  predicate LastFor(attempts: seq<PastAttempt>, id: string, i: int) {
    && 0 <= i < |attempts|
    && attempts[i].attempt.quizId == id
    && forall j :: i < j < |attempts| ==> attempts[j].attempt.quizId != id
  }

  /** Every quiz id that some attempt is for becomes a key. */
  lemma {:induction false} AttemptsMapHasKey(attempts: seq<PastAttempt>, i: int)
    requires 0 <= i < |attempts|
    ensures attempts[i].attempt.quizId in AttemptsMap(attempts)
    decreases |attempts|
  {
    var n := |attempts| - 1;
    var init := attempts[..n];
    var id := attempts[i].attempt.quizId;
    assert AttemptsMap(attempts) == AttemptsMap(init)[attempts[n].attempt.quizId := attempts[n]];
    if i < n {
      assert init[i] == attempts[i];
      AttemptsMapHasKey(init, i);
    }
  }

  /** The last attempt for a quiz stays the last one when an attempt for
      another quiz is appended. */
  lemma LastForExtends(attempts: seq<PastAttempt>, id: string, i: int)
    requires |attempts| > 0 && attempts[|attempts| - 1].attempt.quizId != id
    requires LastFor(attempts[..|attempts| - 1], id, i)
    ensures LastFor(attempts, id, i) && attempts[..|attempts| - 1][i] == attempts[i]
  {
    var n := |attempts| - 1;
    var init := attempts[..n];
    forall j | i < j < |attempts|
      ensures attempts[j].attempt.quizId != id
    {
      if j < n {
        assert init[j] == attempts[j];
      }
    }
  }

  /** The value stored under a key is the last attempt in the list for that quiz. */
  lemma {:induction false} AttemptsMapValueIsLast(attempts: seq<PastAttempt>, id: string)
    requires id in AttemptsMap(attempts)
    ensures exists i :: LastFor(attempts, id, i) && AttemptsMap(attempts)[id] == attempts[i]
    decreases |attempts|
  {
    var n := |attempts| - 1;
    var init := attempts[..n];
    var last := attempts[n];
    assert AttemptsMap(attempts) == AttemptsMap(init)[last.attempt.quizId := last];
    if last.attempt.quizId == id {
      assert LastFor(attempts, id, n);
    } else {
      AttemptsMapValueIsLast(init, id);
      var i :| LastFor(init, id, i) && AttemptsMap(init)[id] == init[i];
      LastForExtends(attempts, id, i);
    }
  }

  /** A quiz id is a key exactly when some attempt is for it, and the value is
      the last such attempt in list order. The list arrives newest first, so
      this is the user's oldest attempt at that quiz. */
  lemma AttemptsMapPicksLast(attempts: seq<PastAttempt>, id: string)
    ensures id in AttemptsMap(attempts) <==> exists i :: 0 <= i < |attempts| && attempts[i].attempt.quizId == id
    ensures id in AttemptsMap(attempts) ==>
      exists i :: LastFor(attempts, id, i) && AttemptsMap(attempts)[id] == attempts[i]
  {
    if exists i :: 0 <= i < |attempts| && attempts[i].attempt.quizId == id {
      var i :| 0 <= i < |attempts| && attempts[i].attempt.quizId == id;
      AttemptsMapHasKey(attempts, i);
    }
    if id in AttemptsMap(attempts) {
      AttemptsMapValueIsLast(attempts, id);
    }
  }

  datatype Status = Scored(score: int) | Missed

  datatype Card =
    | ActiveCard(quiz: Quiz, attempt: Option<PastAttempt>, questionCount: int)
    | PastCard(quiz: Quiz, status: Status)

  /** The question count the active card is always given. */
  const ActiveQuestionCount: int := 10

  /** `quiz.id === activeQuiz?.id`: never true without an active quiz. */
  predicate IsActive(quiz: Quiz, activeQuiz: Option<Quiz>) {
    activeQuiz.Some? && quiz.id == activeQuiz.value.id
  }

  /** The card for one quiz: the "Active Now" card for the active quiz,
      otherwise its score if attempted and "Missed" if not. */
  function CardFor(quiz: Quiz, activeQuiz: Option<Quiz>, attempts: map<string, PastAttempt>): (c: Card)
    ensures c.ActiveCard? <==> IsActive(quiz, activeQuiz)
    ensures c.quiz == quiz
    ensures c.ActiveCard? ==> c.questionCount == ActiveQuestionCount
    ensures c.ActiveCard? ==> (c.attempt.Some? <==> quiz.id in attempts)
    ensures c.PastCard? ==> (c.status.Scored? <==> quiz.id in attempts)
    ensures c.PastCard? && c.status.Scored? ==> c.status.score == attempts[quiz.id].attempt.score
  {
    var attempt := if quiz.id in attempts then Some(attempts[quiz.id]) else None;
    if IsActive(quiz, activeQuiz) then ActiveCard(quiz, attempt, ActiveQuestionCount)
    else match attempt
      case Some(a) => PastCard(quiz, Scored(a.attempt.score))
      case None => PastCard(quiz, Missed)
  }

  datatype Page = LoadingPage | ListPage(cards: seq<Card>, noQuizzesNotice: bool)

  /** The page: a spinner while loading, else one card per quiz in order and
      the "No quizzes found." notice exactly when there are none. */
  function Render(loading: bool, quizzes: seq<Quiz>, activeQuiz: Option<Quiz>,
                  previousAttempts: seq<PastAttempt>): (p: Page)
    ensures loading <==> p.LoadingPage?
    ensures p.ListPage? ==> |p.cards| == |quizzes| && (p.noQuizzesNotice <==> |quizzes| == 0)
    ensures p.ListPage? ==> forall i :: 0 <= i < |quizzes| ==>
      p.cards[i] == CardFor(quizzes[i], activeQuiz, AttemptsMap(previousAttempts))
  {
    if loading then LoadingPage
    else
      var attempts := AttemptsMap(previousAttempts);
      ListPage(seq(|quizzes|, i requires 0 <= i < |quizzes| => CardFor(quizzes[i], activeQuiz, attempts)),
               |quizzes| == 0)
  }

  /** With distinct quiz ids at most one card is the active one. */
  lemma AtMostOneActiveCard(quizzes: seq<Quiz>, activeQuiz: Option<Quiz>, previousAttempts: seq<PastAttempt>)
    requires forall i, j :: 0 <= i < j < |quizzes| ==> quizzes[i].id != quizzes[j].id
    ensures var p := Render(false, quizzes, activeQuiz, previousAttempts);
      forall i, j :: 0 <= i < |quizzes| && 0 <= j < |quizzes| && p.cards[i].ActiveCard? && p.cards[j].ActiveCard? ==> i == j
  {
  }
}
