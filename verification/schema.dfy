/** The record shapes of the three tables (questions, quizSessions, userStats)
    and the small wrappers the operations return. */
module Schema {

  /** Document ids. The store hands them out; their spelling is irrelevant here. */
  type Id = nat

  datatype Option<+T> = None | Some(value: T)

  /** What an operation reports when it fails. */
  datatype Error = SessionNotFound

  datatype Result<+T> = Ok(value: T) | Err(error: Error)

  /** One trivia question; `correctAnswer` is the index of the right option. */
  datatype Question = Question(
    question: string,
    options: seq<string>,
    correctAnswer: int,
    category: string,
    difficulty: string,
    verse: Option<string>,
    explanation: Option<string>)

  /** One attempt at a fixed list of questions. An answer slot that is absent
      from `answers` has not been answered. `completedAt` present means the
      session has been completed. */
  datatype QuizSession = QuizSession(
    userId: Option<string>,
    category: string,
    difficulty: string,
    questions: seq<Id>,
    answers: map<nat, int>,
    score: nat,
    totalQuestions: nat,
    completedAt: Option<int>,
    startedAt: int)

  /** The running aggregate kept per user for the leaderboard. */
  datatype UserStats = UserStats(
    userId: string,
    totalQuizzes: nat,
    totalScore: nat,
    bestScore: nat,
    favoriteCategory: Option<string>,
    streak: nat,
    lastQuizDate: Option<int>)

  /** A stored document: its id together with its fields. */
  datatype Doc<+T> = Doc(id: Id, fields: T)
}
