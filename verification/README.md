# Weekly quiz: session state machine and helpers in Dafny

This project models the client-side core of a weekly-quiz web application.

- **Session store.** A record holding the current question index, the answer map, the start instant and the remaining seconds. Five total mutators act on it: set index, set answer, start, update remaining time, reset.
- **Quiz screen controller.** It does four things:
  - starts the session when it has no start instant;
  - derives the countdown from the wall clock, not from the number of ticks;
  - fires completion once time is up;
  - feeds question clicks through the store: answer capture, gated forward navigation, and a confirm step on the last question.
- **View-state machines.** The two pages that host the quiz: the dashboard and the active-quiz home page.
- **Submission record.** The attempt record the submission hook derives from the answers, and the result shaping of the fetch hooks.
- **Pure helpers.**
  - Scoring, answer counting, rank badge, timer colour, and the `cn` class joiner.
  - The time and rank formatters.
  - Profile statistics, flashcard deck navigation, the results-screen rank lookup, the leaderboard top-three split, the quiz list's attempts map, and the bottom navigation's path predicates.

The model follows these conventions:

- **Time.** `Date.now()` becomes an explicit parameter `now`, in milliseconds. Effects, interval callbacks and clicks are discrete events, and each event carries the instant it observes (`QuizInterface.Event`, `QuizInterface.Step`, `QuizInterface.Run`). A backend call becomes an abstract outcome: success with the returned row, or failure.
- **JavaScript semantics are written out:**
  - truthiness: a start instant of `0` and an empty string are falsy;
  - `Math.floor` of a quotient with a positive divisor;
  - the truncating `%` on negative numbers (`Formatters.JsRemainder`);
  - `Number#toString`, `padStart` and `includes`;
  - `Math.round` as "floor of x + 1/2" over exact rationals;
  - the timer colour's percentage comparison over exact rationals, including the division by zero when the limit is 0.

Two behaviours of the code are worth stating plainly:

- **Completion is not exactly-once.** The quiz screen has no completed flag, so every re-run of its timer effect with the time up emits again, and the manual "Confirm Submission" path has no guard against the timer path (`QuizInterface.CompletionCanRepeat` exhibits two emissions). No exactly-once property is claimed.
- **The stored score uses the 300 s default.** `useSubmitQuiz` calls `calculateScore` without the quiz's `max_time_seconds`, so the default of 300 s applies (`ApiHooks.AttemptInsertFor`); lib/types.ts:18 records that every quiz's limit is 300 s. The results breakdown recomputes with the same default, so the two agree (`ApiHooks.BreakdownMatchesStoredScore`).

## Model

| member | source | states |
|---|---|---|
| Domain.LabelText | lib/types.ts:32 | every option label is a one-character string |
| Scoring.CalculateScore | lib/utils.ts:2-13 | accuracy is 100 per correct answer; the bonus is never negative, is 0 once the time taken reaches the limit, and is otherwise twice the seconds left; the final score is their sum |
| Scoring.ScoreIgnoresTotal | lib/utils.ts:2-13 | the score is the same whatever the question total |
| Scoring.ScoreMonotone | lib/utils.ts:8-10 | the final score never rises with more time taken and never falls with more correct answers |
| Scoring.ScoreExample | lib/utils.ts:2-13 | 7 correct of 10 in 120 s under the 300 s default gives 700, 360 and 1060 |
| Scoring.CorrectAnswersCount | lib/utils.ts:16-21 | the count is at most the number of questions, and 0 when no question has a recorded answer |
| Scoring.CorrectAnswersCountAppend | lib/utils.ts:20 | the count of a concatenated question list is the sum of the two counts |
| Scoring.CorrectAtMostAnswered | lib/utils.ts:20 | an unanswered question never counts: correct answers are at most the answered questions |
| Scoring.AllCorrectIffFullCount | lib/utils.ts:20 | the count equals the question total exactly when every question is answered with its correct label |
| Scoring.RankBadgeType | lib/utils.ts:24-29 | gold, silver and bronze exactly for ranks 1, 2 and 3; every other rank, 0 and negatives included, gets the default badge |
| Scoring.TimerColorFor | lib/utils.ts:32-37 | with a zero limit (JavaScript's division by zero): never yellow, green exactly for positive seconds; with a positive limit: green once the seconds reach the limit and red at zero or below |
| Scoring.TimerColorThresholds | lib/utils.ts:32-37 | for a positive limit: green exactly when more than half the time is left, yellow when more than a fifth but at most half, red otherwise |
| Scoring.TimerColorMonotone | lib/utils.ts:32-37 | more seconds left never gives a more urgent colour; the full limit is green and zero is red |
| Scoring.KeptClasses | lib/utils.ts:41 | the pieces `filter(Boolean)` keeps are non-empty and no more than the arguments; a single argument is kept, as its own string, exactly when it is truthy (with `Scoring.KeptClassesAppend` this fixes every kept piece) |
| Scoring.KeptAreTruthyArgs | lib/utils.ts:41 | every kept piece is the string of some truthy argument |
| Scoring.TruthyArgsAreKept | lib/utils.ts:41 | every truthy argument's string is kept |
| Scoring.KeptEmptyIffNoneTruthy | lib/utils.ts:41 | nothing is kept exactly when no argument is truthy |
| Scoring.KeptClassesAppend | lib/utils.ts:41 | filtering keeps the arguments' order: it distributes over concatenation |
| Scoring.Cn | lib/utils.ts:40-42 | the joined class string is empty exactly when no argument is truthy |
| Scoring.CnSplitsBack | lib/utils.ts:40-42 | with space-free class names, splitting the result on spaces gives back exactly the truthy pieces in order |
| Formatters.JsRemainder | lib/formatters.ts:4 | the remainder takes the dividend's sign and is smaller in magnitude than the divisor |
| Formatters.PadStart2 | lib/formatters.ts:5 | the result is at least two characters long: the original string preceded only by zeros |
| Formatters.FormatTimeRemaining | lib/formatters.ts:2-6 | `formatTimeRemaining` with floor division and JavaScript's truncating `%`; its shape and inverse are stated by `Formatters.FormatShape` and `Formatters.ClockRoundTrip` |
| Formatters.FormatShape | lib/formatters.ts:2-6 | for a non-negative count the output is the floor-divided minutes, a colon, and the seconds within the minute padded with a leading zero to two characters (JavaScript's truncating `%` agrees with the mathematical remainder here) |
| Formatters.SecondsField | lib/formatters.ts:4-5 | the two-digit field reads back as the seconds within the minute |
| Formatters.ClockRoundTrip | lib/formatters.ts:2-6 | for a non-negative count, a parser that accepts only `digits:dd` with the two-digit field below 60 reads the output back as the original count, so the output always has that shape |
| Formatters.ClockExamples | lib/formatters.ts:2-6 | 300 gives "5:00", 65 gives "1:05", 0 gives "0:00", and -5 gives "-1:-5" |
| Formatters.RankSuffix | lib/formatters.ts:14-17 | always two letters, and "th" exactly outside ranks 1 to 3 (so 11, 12, 13 and 21 all get "th") |
| Formatters.FormatRank | lib/formatters.ts:14-17 | the decimal rank followed by two letters: "st", "nd" or "rd" exactly for 1, 2 or 3, and "th" for every other rank |
| Formatters.RankExamples | lib/formatters.ts:14-17 | 1 gives "1st", 3 gives "3rd", 11 gives "11th", and 21 gives "21th" |
| QuizStore.Initial | lib/quiz-store.ts:17-20 | the new store has index 0, no answers, no start instant and 300 s, so it is not started |
| QuizStore.SetCurrentQuestionIndex | lib/quiz-store.ts:22 | only the index changes, to any value, with no range check |
| QuizStore.SetAnswer | lib/quiz-store.ts:24-27 | the answer is recorded and the key set becomes the old keys plus the question; every other answer and field is unchanged |
| QuizStore.StartQuiz | lib/quiz-store.ts:29-35 | a fresh session: start instant `now`, the given limit, index 0, no answers |
| QuizStore.UpdateTimeRemaining | lib/quiz-store.ts:37 | only the remaining time changes, with no clamp |
| QuizStore.ResetQuiz | lib/quiz-store.ts:39-45 | the reset store equals the initial store |
| QuizStore.ResetForgetsAndIsIdempotent | lib/quiz-store.ts:39-45 | a reset does not depend on the prior state and is idempotent |
| QuizStore.StartForgetsPrior | lib/quiz-store.ts:29-35 | a start does not depend on the state it replaces |
| QuizStore.SetAnswerIdempotent | lib/quiz-store.ts:26 | repeating the same answer changes nothing |
| QuizStore.SetAnswerOverwrites | lib/quiz-store.ts:26 | a later answer to the same question replaces the earlier one |
| QuizStore.SetAnswerCommutes | lib/quiz-store.ts:26 | answers to different questions commute |
| QuizQuestion.ElapsedSeconds | components/quiz/QuizQuestion.tsx:52 | the whole seconds elapsed: the largest count whose milliseconds do not exceed the difference |
| QuizQuestion.HandleAnswerSelect | components/quiz/QuizQuestion.tsx:36-38 | only this question's answer changes, to the chosen label |
| QuizQuestion.HandleNext | components/quiz/QuizQuestion.tsx:40-48 | no selection: nothing changes; last question: the confirm dialog opens and the index stays; otherwise the index becomes the question number and nothing else changes |
| QuizQuestion.NextStaysInRange | components/quiz/QuizQuestion.tsx:40-48 | with the props the quiz screen passes, a step never moves backwards, moves at most one, and stays in range |
| QuizQuestion.HandleSubmit | components/quiz/QuizQuestion.tsx:50-54 | emits exactly when the session is started, with the current answers and the whole seconds since the start |
| QuizQuestion.SelectAllCorrect | components/quiz/QuizQuestion.tsx:36-38 | repeated answer selection only adds keys, and keeps the answers of questions it does not touch |
| QuizQuestion.SelectAllCorrectAnswersEach | lib/utils.ts:16-21 | with distinct question ids, selecting each correct option leaves every question answered correctly |
| QuizQuestion.SelectAllCorrectCountsAll | lib/utils.ts:16-21 | with distinct question ids, answering every question correctly counts the full question total |
| QuizInterface.RemainingSeconds | components/quiz/QuizInterface.tsx:42-43 | never negative; zero exactly when the elapsed whole seconds reach the limit; otherwise the limit minus the elapsed seconds; at most the limit once started |
| QuizInterface.RemainingNonIncreasing | components/quiz/QuizInterface.tsx:42-43 | the countdown never goes up as time passes |
| QuizInterface.StartIfAbsent | components/quiz/QuizInterface.tsx:26-30 | a started session is left untouched; otherwise a fresh session starts at `now` with the quiz's limit |
| QuizInterface.TimerEffect | components/quiz/QuizInterface.tsx:32-39 | nothing before the start; with the time up, completion with the current answers and the whole seconds elapsed; otherwise an interval |
| QuizInterface.IntervalTick | components/quiz/QuizInterface.tsx:41-49 | writes the wall-clock-derived remaining time and clears the interval exactly when that is zero; nothing else changes |
| QuizInterface.TickManyIsDerived | components/quiz/QuizInterface.tsx:41-49 | after any run of callbacks the remaining time is the one derived from the last instant, however many ticks ran or were skipped |
| QuizInterface.CurrentQuestion | components/quiz/QuizInterface.tsx:54-56 | the question at the index, or nothing when the index is out of range |
| QuizInterface.QuestionPropsFor | components/quiz/QuizInterface.tsx:54-76 | rendered exactly for an in-range index, with question number index + 1, the list length, and the recorded answer for that question if any |
| QuizInterface.Step | components/quiz/QuizInterface.tsx:26-56 | one event: an emitting event and the timer effect leave the screen unchanged; the start effect, an interval callback and an option choice never touch the dialog flag; nothing is emitted before the session starts |
| QuizInterface.Run | components/quiz/QuizInterface.tsx:26-56 | a run of events emits at most one completion per event, and no events change nothing |
| QuizInterface.StepEmitsOnlyOnCompletion | components/quiz/QuizInterface.tsx:32-52 | a completion is emitted only by a started session, either on the timer path with the time up or on a confirmed submission; it carries the current answers and the whole seconds elapsed, and the state is left unchanged |
| QuizInterface.CancelEmitsNothing | components/quiz/QuizQuestion.tsx:112 | Cancel closes the dialog and emits nothing |
| QuizInterface.LastQuestionAsksToConfirm | components/quiz/QuizQuestion.tsx:43-44 | an answered last question opens the dialog and leaves the index alone |
| QuizInterface.RunKeepsSessionShape | components/quiz/QuizInterface.tsx:26-56 | once started, any events keep the start instant, and the index never decreases and stays in range |
| QuizInterface.RunKeepsIndexInRange | components/quiz/QuizQuestion.tsx:40-48 | from any in-range index, any events keep the index in range |
| QuizInterface.TimeoutScenario | components/quiz/QuizInterface.tsx:32-49 | with a 300 s limit and no manual submission, the callback at 300 s writes 0 and the next effect emits the answers so far with 300 s taken |
| QuizInterface.CompletionCanRepeat | components/quiz/QuizInterface.tsx:32-52 | with the time up, two runs of the timer effect emit two completions |
| ApiHooks.AttemptInsertFor | lib/api-hooks.ts:154-168 | the inserted row forwards the ids, answers and time, and records the question total, a correct count no larger than it, and the score under the 300 s default |
| ApiHooks.BreakdownMatchesStoredScore | components/results/ScoreBreakdown.tsx:12-16 | the results breakdown's accuracy plus bonus equals the stored score |
| ApiHooks.ActiveQuizResult | lib/api-hooks.ts:36-40 | the "no rows" code means no active quiz, any other error is rethrown unchanged, and data is returned as is |
| ApiHooks.UserAttemptResult | lib/api-hooks.ts:70-80 | no attempt without both ids; otherwise the query's own error is rethrown when it fails, else the row found is returned |
| ApiHooks.FlattenAttempts | lib/api-hooks.ts:126-130 | same length and order; each entry keeps its attempt and takes the joined quiz's title and week |
| ApiHooks.PreviousAttemptsResult | lib/api-hooks.ts:110-131 | the empty list without a user id; otherwise the query's own error when it fails, else exactly the flattened rows, so each entry carries its row's attempt, title and week in the query's newest-first order |
| ApiHooks.FlattenAppend | lib/api-hooks.ts:126-130 | flattening commutes with concatenation, so it keeps the newest-first order |
| Dashboard.InitialState | components/Dashboard.tsx:18-19 | the page opens on the dashboard view with no completed attempt |
| Dashboard.HandleStartQuiz | components/Dashboard.tsx:28-31 | the store is reset and the quiz view shows |
| Dashboard.HandleQuizComplete | components/Dashboard.tsx:33-52 | nothing without a user and an active quiz; otherwise it sends the completion as a request; success shows the returned attempt on the results view with a cleared store; failure changes nothing and alerts |
| Dashboard.HandleBackToDashboard | components/Dashboard.tsx:54-57 | back to the dashboard view with the completed attempt cleared |
| Dashboard.RetryResendsSameRequest | components/Dashboard.tsx:48-51 | after a failure the answers survive, so resubmitting at the same instant sends the same request |
| Dashboard.SuccessSilencesTimer | components/Dashboard.tsx:45-47 | after a success the store has no start instant, so neither completion path can fire |
| Dashboard.Render | components/Dashboard.tsx:59-107 | loading wins; the quiz shows exactly for the quiz view with an active quiz and questions; results exactly for the results view with an attempt and the quiz; otherwise home, whose panel is "No Active Quiz" exactly without one |
| ActiveQuizHome.HandleStartQuiz | components/ActiveQuizHome.tsx:26-29 | the store is reset and the quiz view shows |
| ActiveQuizHome.HandleQuizComplete | components/ActiveQuizHome.tsx:31-50 | nothing without a user and an active quiz; success navigates to the history page and clears the store, leaving the view; failure changes nothing and alerts |
| ActiveQuizHome.Render | components/ActiveQuizHome.tsx:52-103 | loading wins; the quiz shows exactly for the quiz view with an active quiz and questions; otherwise home, whose panel is "No Active Quiz" exactly without one |
| ActiveQuizHome.SuccessKeepsQuizView | components/ActiveQuizHome.tsx:43-45 | after a success the view is still the quiz view, so until the route changes the quiz screen renders on a cleared store |
| ProfilePage.MaxOf | app/profile/page.tsx:23 | the maximum bounds every score and is one of them |
| ProfilePage.RoundHalfUp | app/profile/page.tsx:22 | the nearest integer to the quotient, halves rounding up |
| ProfilePage.ProfileStats | app/profile/page.tsx:15-26 | nothing without a user; otherwise: the count; the sum of scores; the rounded average and best score, both 0 when there are none; and the rounded accuracy, 0 when there are no questions |
| ProfilePage.RoundedPercentageBounded | app/profile/page.tsx:26 | a rounded percentage of a part no larger than the whole lies in 0..100 |
| ProfilePage.AccuracyIsPercentage | app/profile/page.tsx:24-26 | when no attempt has more correct answers than questions, the accuracy lies in 0..100 |
| ProfilePage.AverageExample | app/profile/page.tsx:22-23 | scores 100 and 101 average to 101 and the best is 101 |
| DeckViewer.InitialDeck | components/learn/DeckViewer.tsx:16-17 | the first card, face down |
| DeckViewer.Next | components/learn/DeckViewer.tsx:22-27 | moves forward face down before the last card; otherwise nothing changes |
| DeckViewer.Prev | components/learn/DeckViewer.tsx:29-34 | moves back face down after the first card; otherwise nothing changes |
| DeckViewer.Flip | components/learn/DeckViewer.tsx:36-38 | turns the card over and keeps the index |
| DeckViewer.FlipTwiceRestores | components/learn/DeckViewer.tsx:36-38 | two flips restore the deck |
| DeckViewer.NextThenPrev | components/learn/DeckViewer.tsx:22-34 | a move forward is undone by a move back, face down |
| DeckViewer.RunDeckInBounds | components/learn/DeckViewer.tsx:16-34 | with immediate index updates, any clicks keep the index on a card (or at 0 for an empty deck) |
| DeckViewer.View | components/learn/DeckViewer.tsx:40-63 | the empty-deck message exactly when no card is at the index; otherwise that card with the counter index + 1 of the deck size |
| DeckViewer.NonEmptyDeckShowsCard | components/learn/DeckViewer.tsx:19-49 | with immediate index updates, a non-empty deck always shows a card |
| DeckViewer.DelayedNext | components/learn/DeckViewer.tsx:22-27 | a "Next" click leaves the index alone and, exactly when the rendered index is before the last card, queues one `+1` update and turns the card face down; earlier queued updates are kept |
| DeckViewer.DelayedPrev | components/learn/DeckViewer.tsx:29-34 | a "Previous" click leaves the index alone and, exactly when the rendered index is above 0, queues one `-1` update and turns the card face down |
| DeckViewer.TimerFires | components/learn/DeckViewer.tsx:25 | the oldest queued update applies to the current index, not to the index its click saw |
| DeckViewer.DelayedNextOverruns | components/learn/DeckViewer.tsx:22-27 | with the delayed update as written, two quick "Next" clicks on the second-to-last card push the index past the last card, and the empty-deck message replaces the cards |
| ResultsScreen.FindIndex | components/ResultsScreen.tsx:25 | the first position of the user's entry, or -1 exactly when there is none |
| ResultsScreen.UserRank | components/ResultsScreen.tsx:25-26 | between 0 and the participant count; positive exactly when the user is listed, naming their first position, not their `rank` field |
| ResultsScreen.Render | components/ResultsScreen.tsx:28-72 | the leaderboard exactly when toggled on, its table only with a user; otherwise the summary, with a rank card exactly when the user is listed |
| ResultsScreen.Toggle | components/ResultsScreen.tsx:37-77 | "View Full Leaderboard" turns the toggle on, "Back to Results" turns it off |
| LeaderboardTable.TopThree | components/leaderboard/LeaderboardTable.tsx:14 | the first min(3, n) entries |
| LeaderboardTable.Rest | components/leaderboard/LeaderboardTable.tsx:15 | the entries after the first three |
| LeaderboardTable.SplitIsPartition | components/leaderboard/LeaderboardTable.tsx:14-15 | the two parts concatenate back to the entries; the rest is empty exactly for three entries or fewer |
| LeaderboardTable.TopSuffix | components/leaderboard/LeaderboardTable.tsx:46 | "st" for rank 1, "nd" for rank 2, "rd" for every other rank |
| LeaderboardTable.TrophyColorFor | components/leaderboard/LeaderboardTable.tsx:30-35 | magenta for rank 1, purple for rank 2, blue for every other rank |
| LeaderboardTable.MedalFor | components/leaderboard/LeaderboardTable.tsx:45 | first, second and third medal for rank 1, rank 2 and any other rank |
| LeaderboardTable.TopSuffixVersusFormatRank | components/leaderboard/LeaderboardTable.tsx:44-46 | the card's suffix agrees with `formatRank` exactly on ranks 1 to 3 |
| LeaderboardTable.BadgeMatchesRankSuffix | components/leaderboard/LeaderboardTable.tsx:44 | the badge has a medal colour exactly when `formatRank` gives a suffix other than "th" |
| LeaderboardTable.Render | components/leaderboard/LeaderboardTable.tsx:13-67 | one top card per first-three entry and one row per remaining entry, in order, each highlighted exactly for the current user |
| QuizListPage.AttemptsMap | app/quiz/page.tsx:18 | every key is the quiz id of some attempt |
| QuizListPage.AttemptsMapHasKey | app/quiz/page.tsx:18 | the quiz id of every attempt in the list becomes a key |
| QuizListPage.AttemptsMapValueIsLast | app/quiz/page.tsx:18 | the value under each key is an attempt for that quiz with no later attempt for it in the list |
| QuizListPage.AttemptsMapPicksLast | app/quiz/page.tsx:18 | a quiz id is a key exactly when some attempt is for it; its value is the last such attempt in list order |
| QuizListPage.CardFor | app/quiz/page.tsx:51-100 | the "Active Now" card exactly for the active quiz, always with question count 10; other quizzes show their score when attempted and "Missed" otherwise |
| QuizListPage.Render | app/quiz/page.tsx:23-109 | a spinner while loading; otherwise one card per quiz in order, with "No quizzes found." exactly when there are none |
| QuizListPage.AtMostOneActiveCard | app/quiz/page.tsx:51-56 | with distinct quiz ids at most one card is the active one |
| BottomNav.Hidden | components/BottomNav.tsx:18-20 | the bar is hidden when the path includes "/quiz/" or "/results"; `BottomNav.HiddenIffMarkerOccurs` restates this through an independent occurrence definition |
| BottomNav.IsActive | components/BottomNav.tsx:26 | an item is active only on an exact path match; `BottomNav.AtMostOneActive` and `BottomNav.PathExamples` state the consequences |
| BottomNav.Render | components/BottomNav.tsx:14-50 | hidden exactly on quiz-taking and results paths; otherwise the four items in order, each active exactly on its own path |
| BottomNav.AtMostOneActive | components/BottomNav.tsx:7-26 | the hrefs are distinct, so at most one item is active |
| BottomNav.HiddenIffMarkerOccurs | components/BottomNav.tsx:18-20 | hidden exactly when "/quiz/" or "/results" occurs at some position of the path |
| BottomNav.QuizSegmentHides | components/BottomNav.tsx:18-20 | any path containing "/quiz/" hides the bar |
| BottomNav.PathExamples | components/BottomNav.tsx:18-26 | "/quiz" and "/" keep the bar; "/history/" activates no item, while "/history" activates History |

## Left out

- Authentication and profile creation (lib/auth-context.tsx): these are network I/O, retry timers and a random avatar choice. Only the signed-in user, or its absence, enters the model.
- Backend queries and the React Query cache: the database is not modelled.
  - A query result is a parameter (`ApiHooks.QueryResponse`).
  - A submission is an abstract success or failure outcome.
  - Cache invalidation after a submission is not modelled.
- `useQuizzes`, `useQuizQuestions` and `useLeaderboard`: these only forward a query. Their lists reach the model as parameters.
- Scheduling and re-rendering: `setInterval`, `setTimeout`, effect ordering and `Date.now()` are replaced by discrete events that carry `now`. The event machine (`QuizInterface.Step`) lets any event arrive in any order, which over-approximates React's ordering.
- Interval cleanup on unmount: not modelled. After a completion, the callbacks only keep writing the derived remaining time.
- ActiveQuizHome's navigation: only its target path is recorded; the route change itself is outside the model.
- Floats and locale: `formatScore` (`toLocaleString`), `formatPercentage`, `formatQuizWeek`, and the progress-bar percentages of the quiz and the deck. Averages, accuracy and the timer colour are computed exactly over integers and rationals; IEEE rounding at the boundaries is not modelled.
- The flashcard record: it is not part of this model. `DeckViewer.View` takes the card type as a parameter.
- Purely presentational components: headers, buttons, cards, badges, the timer display, progress bars, the quiz card, the previous-attempts list, the home-page sections and the static pages. They hold no logic beyond calling the modelled helpers.
- Exactly-once completion and "one attempt per user per quiz": the code enforces neither, and the second lives in the backend. Neither is claimed. `QuizInterface.CompletionCanRepeat` shows the first failing.
- Formatters.JsRemainder: states only the sign and range of JavaScript's `%`, not the full identity `a == b * trunc(a / b) + r`. The exact values used are pinned down by `Formatters.SecondsField` and `Formatters.ClockExamples`.
- Formatters.FormatShape: covers non-negative counts only. Negative counts, which the screens never pass, are shown by one example (`-5` gives `"-1:-5"`).
- QuizListPage.AttemptsMap: the list arrives newest first, so the map keeps the user's oldest attempt at each quiz. That is what the code does; whether it was meant is not decided here.

## Findings

| source | as written | input that shows it | evidently intended | confidence | as-written member | corrected member |
|---|---|---|---|---|---|---|
| components/learn/DeckViewer.tsx:22-27 | "Next" checks the index of the last render, then applies `prev => prev + 1` 150 ms later, so a second click inside the delay passes the same stale check | a deck of n ≥ 2 cards on card n-1 (index n-2) and two "Next" clicks within 150 ms: the index reaches n and "No cards in this deck yet." replaces the deck | the index never leaves the cards; the guard and the update should see the same index | not executed | DeckViewer.DelayedNextOverruns | DeckViewer.RunDeckInBounds |
