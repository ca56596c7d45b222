/** The records of the quiz application (lib/types.ts). Timestamps and URLs
    are opaque strings; identifiers are strings compared for equality. */
module Domain {

  /** The four option labels a question offers; `correct_option` is one of them. */
  datatype Label = A | B | C | D

  /** The label as the string stored in an answer map. */
  function LabelText(l: Label): (s: string)
    ensures |s| == 1
  {
    match l
    case A => "A"
    case B => "B"
    case C => "C"
    case D => "D"
  }

  datatype User = User(
    id: string,
    discordId: string,
    discordUsername: string,
    discordAvatarUrl: string,
    createdAt: string)

  datatype Question = Question(
    id: string,
    quizId: string,
    questionText: string,
    optionA: string,
    optionB: string,
    optionC: string,
    optionD: string,
    correctOption: Label,
    orderIndex: int)

  /** `maxTimeSeconds` is documented as always 300 but is data, not a constant. */
  datatype Quiz = Quiz(
    id: string,
    title: string,
    description: string,
    questions: seq<Question>,
    weekStartDate: string,
    weekEndDate: string,
    maxTimeSeconds: int,
    isActive: bool,
    createdAt: string)

  /** A stored attempt; `answers` maps question id to the selected label. */
  datatype QuizAttempt = QuizAttempt(
    id: string,
    userId: string,
    quizId: string,
    score: int,
    timeTakenSeconds: int,
    correctAnswers: int,
    totalQuestions: int,
    answers: map<string, string>,
    submittedAt: string)

  datatype LeaderboardEntry = LeaderboardEntry(
    rank: int,
    userId: string,
    discordUsername: string,
    discordAvatarUrl: string,
    score: int,
    timeTakenSeconds: int,
    correctAnswers: int)

  /** An attempt together with the title and week of its quiz. */
  datatype PastAttempt = PastAttempt(
    attempt: QuizAttempt,
    quizTitle: string,
    quizWeekStart: string)
}
