# Bible quiz backend — a Dafny model

This project models the server side of a Telugu Bible-quiz app built on the
Convex database. It covers two components:

- the question store (`questions.ts`): listing a shuffled sample of a
  category, listing the categories present, and seeding a fixed catalogue
  of eight questions;
- the session engine (`quiz.ts`): starting a quiz over up to ten shuffled
  questions, reading a session back, answering by slot, completing a
  quiz (scoring plus the per-user statistics upsert), and the leaderboard.

The database is the class `Store.Database`. It holds three tables keyed by
document id: questions, quiz sessions and user statistics. It keeps the
invariant `Valid()`: every id is below the next id to hand out.

A full table scan (`collect()`) returns documents in insertion order. A map
does not keep that order, so the two scanned tables carry their scan order
as a sequence beside the map. The three insert methods of the class each
hand out a fresh id. The question and stats inserts also append that id to
their table's scan order. The sessions table is never scanned, so it has no
scan order.

The operations that change state are module-level methods that take the
database as a parameter and list it in their `modifies` clause. Each states
its complete new state, and each is tied to the specification functions
whose properties the lemmas prove:
- `StartQuiz`
- `SubmitAnswer`
- `CompleteQuiz`
- `AddSampleQuestions`

The scoring loop is the method `CountCorrect`, proved against `HitCount`.
The queries are functions:
- `GetQuestionsByCategory`
- `GetAllCategories`
- `GetQuizSession`
- `GetLeaderboard`

Modules:
- `Schema`: record shapes, `Option` and `Result`.
- `Sequences`: filter, shuffle, JavaScript `slice(0, end)`, `limit || 10`,
  and de-duplication in first-occurrence order.
- `Store`: table scans and the database class.
- `Questions`: the question store.
- `Quiz`: the session engine, statistics and leaderboard.

Modelling choices:
- **Shuffling.** `sort(() => Math.random() - 0.5)` is modelled as a shuffle driven by an explicit sequence of draws. Every result is a permutation of the input (`Shuffle`), and every permutation is some result (`ShuffleCanYield`). So the model claims nothing about order beyond "some permutation".
- **Answers.** A session's answers are a map from slot index to value. An absent slot is unanswered and never equals a correct answer, as `session.answers[index]` is `undefined` for a slot never written.
- **Finding a user's stats.** `.filter(...).first()` on the stats table is the first record of that user in scan order (`FindUser`).
- **Time.** `Date.now()` is a parameter `now`. `completeQuiz` reads the clock separately for the session's `completedAt` and the stats' `lastQuizDate`; `CompleteQuiz` stamps both with the one `now`.
- **The leaderboard sort.** The comparator sorts by best score descending, then total score descending. It is modelled as a stable insertion sort (`RankSort`), because JavaScript's `Array.prototype.sort` is stable.

## Model

| member | source | states |
|---|---|---|
| Store.Database.constructor | schema.ts:4-36 | an empty database whose three tables are empty, satisfying the id and scan-order invariant |
| Store.Database.InsertQuestion | questions.ts:115 | a question insert takes a fresh id, appends it to the scan order and leaves the other tables alone |
| Store.Database.InsertSession | quiz.ts:23-32 | a session insert takes a fresh id and leaves questions and stats alone |
| Store.Database.InsertStats | quiz.ts:117-124 | a stats insert takes a fresh id, appends it to the scan order and leaves questions and sessions alone |
| Store.ScanSpec | quiz.ts:135-137 | a full scan holds every stored document exactly once and nothing else |
| Store.ScanSample | questions.ts:19-23 | fetching a sampled id list gives no document twice, as many as the slice end allows, and every match when the end covers them |
| Sequences.Filter | quiz.ts:14-15 | the filtered list holds exactly the elements of the input that satisfy the predicate |
| Sequences.Shuffle | quiz.ts:19 | a shuffle returns a permutation of its input (multiset equality) |
| Sequences.ShuffleCanYield | questions.ts:22 | every permutation of the input is the outcome of some draws, so no order is privileged |
| Sequences.Prefix | questions.ts:23 | `slice(0, end)` returns a prefix of its input |
| Sequences.Cap | quiz.ts:147 | the cap is never 0, and any non-zero limit is kept; the default of 10 for an absent or zero limit is proved in GetQuestionsByCategorySpec and GetLeaderboardSpec |
| Sequences.Sample | questions.ts:19-23 | filter-shuffle-slice returns only input elements satisfying the filter |
| Sequences.SampleSpec | questions.ts:19-23 | the sample has no repeats, its length is the slice end applied to the match count, and it holds all matches when the end covers them |
| Sequences.Dedup | questions.ts:31 | `[...new Set(xs)]` holds exactly the elements of `xs` |
| Sequences.DedupDistinct | questions.ts:31 | `[...new Set(xs)]` has no repeated element |
| Sequences.DedupOrder | questions.ts:31 | `[...new Set(xs)]` lists elements in order of their first occurrence in `xs` |
| Sequences.DedupAbsorbs | questions.ts:31 | appending only elements already seen leaves the de-duplicated list unchanged |
| Questions.GetQuestionsByCategory | questions.ts:11-23 | every listed question is a stored one with the category, and with the difficulty when a non-empty one is given |
| Questions.DifficultyGiven | questions.ts:15-16 | the difficulty filter applies only when a difficulty is given and is not the empty string, the truthiness test of `if (args.difficulty)` |
| Questions.ByCategory | questions.ts:11-17 | a listed question has the requested category, and the requested difficulty when one applies |
| Questions.GetQuestionsByCategorySpec | questions.ts:19-23 | no question twice; min(cap, matches) questions, or the negative-end slice; all matches when the cap covers them; an absent or zero limit gives min(10, matches) |
| Questions.GetAllCategories | questions.ts:30-32 | the categories of the stored questions in scan order, with duplicates removed as `[...new Set(...)]` does; its properties are proved in GetAllCategoriesSpec |
| Questions.GetAllCategoriesSpec | questions.ts:30-32 | every category of a stored question appears, nothing else does, each once, in first-occurrence scan order; an empty store gives [] |
| Questions.SampleQuestions | questions.ts:39-112 | the catalogue has 8 questions, each with 4 options and a correct answer that indexes them |
| Questions.SampleColumn | questions.ts:39-112 | the catalogue's categories alternate Old Testament, New Testament, four times |
| Questions.AlternatingDedup | questions.ts:31 | de-duplicating two different values alternated four times gives the two values in order |
| Questions.SampleCategories | questions.ts:39-112 | the catalogue's distinct categories are Old Testament, then New Testament |
| Questions.SeededCategories | questions.ts:30-32 | a store holding exactly the catalogue lists the categories Old Testament, then New Testament |
| Questions.AddSampleQuestions | questions.ts:114-118 | appends the 8 catalogue questions after the stored ones, changes no stored question or other table, adds 8 on every call, seeds the two testaments into an empty store, and returns the success message |
| Quiz.QuizQuestions | quiz.ts:12-20 | every chosen id names a stored question with the requested category and difficulty |
| Quiz.QuizQuestionsSpec | quiz.ts:12-20 | the chosen ids have no repeats, number min(10, eligible questions), and include all eligible questions when there are at most ten |
| Quiz.StartQuiz | quiz.ts:10-35 | inserts, under a new id, a session with the chosen ids, no answers, score 0, totalQuestions = number of ids, no completion and the given user, category, difficulty and time; the ids have no repeats, match and number min(10, eligible); nothing else changes |
| Quiz.Resolve | quiz.ts:45-51 | resolving ids keeps exactly the stored questions among them, each with its stored fields, and drops ids whose question is gone; when none is gone, position i holds the question of the i-th id |
| Quiz.Present | quiz.ts:51 | a looked-up question survives the null filter exactly when its id is still stored |
| Quiz.ResolveKeepsOrder | quiz.ts:45-51 | resolving is the scan of the session's ids filtered by presence, so the surviving questions keep session order |
| Quiz.GetQuizSession | quiz.ts:41-52 | null exactly when the session id is unknown; otherwise the stored session together with its resolved question list, whose contents and order Resolve and ResolveKeepsOrder state |
| Quiz.WithAnswer | quiz.ts:67-68 | the answered slot holds the new value, every other slot and every other session field is unchanged |
| Quiz.SubmitTwice | quiz.ts:67-72 | a second answer to the same slot replaces the first |
| Quiz.SubmitDifferentSlots | quiz.ts:67-72 | answers to two different slots commute |
| Quiz.SubmitAnswer | quiz.ts:62-75 | an unknown session fails with session-not-found and changes nothing; otherwise only that session's answer slot is overwritten and "Answer submitted" is returned |
| Quiz.Fetch | quiz.ts:85-87 | each question id of the session looked up in the store, position by position, with a missing question marked as absent |
| Quiz.HitCount | quiz.ts:89-94 | the number of scoring positions below k is at most k |
| Quiz.HitCountIsSize | quiz.ts:89-94 | the running count equals the number of positions whose question exists and whose stored answer equals its correct answer |
| Quiz.Score | quiz.ts:85-94 | the score of a session: the scoring positions counted over the looked-up questions; its properties are in ScoreSpec |
| Quiz.ScoreSpec | quiz.ts:85-94 | the score counts positions whose question still exists and whose answer equals its correct answer; 0 <= score <= number of questions; no questions scores 0 |
| Quiz.CountCorrect | quiz.ts:89-94 | the scoring loop computes exactly that count |
| Quiz.HasUser | quiz.ts:103 | stats are touched only when the session's user id is present and not the empty string |
| Quiz.Folded | quiz.ts:109-125 | a first record has 1 quiz, total = best = score, streak 1; an update adds 1 quiz and the score to the total, takes the max as best, keeps streak and user; both stamp the date |
| Quiz.FindUser | quiz.ts:104-107 | `.first()` finds the first record of the user in scan order, or reports that no record is theirs |
| Quiz.NoRecordOf | quiz.ts:104-109 | when the scan finds no record of a user, no stored record belongs to them |
| Quiz.StatsFolded | quiz.ts:103-126 | the stats after an upsert: the user's first record in scan order is replaced by its update, or, with none, a first record is appended under a fresh id |
| Quiz.CompleteQuiz | quiz.ts:80-129 | an unknown session fails and changes nothing; otherwise it writes the score and completion time onto the session, returns the score with the stored totalQuestions, upserts the stats only for a non-empty user id, leaves questions alone and keeps at most one stats record per user |
| Quiz.HistorySpec | quiz.ts:109-125 | after n completions a user's record has n quizzes, the sum of the scores as total, their maximum as best and streak 1 |
| Quiz.OneThenTwoCompletions | quiz.ts:109-125 | one completion gives 1 quiz with total and best equal to the score; a second gives 2 quizzes, the sum and the max |
| Quiz.CompleteTwice | quiz.ts:97-128 | completing again scores the session the same and folds the score into the stats a second time |
| Quiz.Outranks | quiz.ts:140-145 | a record may precede another when its best score is higher, or equal with a total at least as high |
| Quiz.Comparator | quiz.ts:140-145 | the comparator: best score difference, or total score difference when the best scores are equal |
| Quiz.OutranksIsComparator | quiz.ts:140-145 | a record outranks another exactly when the comparator does not put the other first; the order is total and transitive, and ties are records with equal best and total |
| Quiz.Insert | quiz.ts:140-145 | inserting into the ranking adds exactly that record |
| Quiz.InsertRanked | quiz.ts:140-145 | inserting into a ranked list keeps it ranked by best score, then total score, both descending |
| Quiz.RankSort | quiz.ts:140-145 | the sort returns a permutation of the stats |
| Quiz.RankSortRanked | quiz.ts:140-145 | the sort's result is ranked by best score descending, and by total score descending among equal best scores |
| Quiz.RankedPrefix | quiz.ts:147 | truncating a ranked list keeps it ranked |
| Quiz.SortedScan | quiz.ts:135-145 | the sorted stats are ranked and hold each stored record exactly once |
| Quiz.GetLeaderboard | quiz.ts:135-147 | the stats in scan order, sorted by rank and cut to the cap; its properties are in GetLeaderboardSpec |
| Quiz.GetLeaderboardSpec | quiz.ts:135-147 | ranked; min(cap, records) entries, or the negative-end slice; each a stored record; no record twice; all records when the cap covers them; an absent or zero limit gives min(10, records) |
| Quiz.LeaderboardExample | quiz.ts:140-147 | records (best 8, total 20), (8, 15), (9, 9) with limit 2 give the (9, 9) record, then the (8, 20) one |

## Left out

- The Convex runtime is not modelled: async/await, `Promise.all`, the query builder, validators and generated id types. Document ids are natural numbers handed out in increasing order.
- Atomicity and concurrency are not modelled. Each operation runs alone, from start to finish.
- `Math.random` is an injected sequence of draws. The comparator-based shuffle is not modelled, so neither is its bias; only "some permutation" is stated.
- `Date.now()` is a parameter. The source reads the clock separately for `completedAt` (quiz.ts:99) and `lastQuizDate` (quiz.ts:114, 123). CompleteQuiz uses one `now` for both, so the model does not capture the two stamps differing.
- The random guest user id chosen by the app screen is left out.
- JavaScript numbers are unbounded integers here. Fractional, NaN and infinite limits, indices, answers and scores are not modelled.
- JavaScript quirks of writing `answers[questionIndex]` are not modelled: negative or fractional indices, holes, and how the store would serialise a sparse array. The index is a natural number and unwritten slots are absent keys.
- Questions.SampleQuestions: each question's wording, options, verse and explanation are short placeholder strings, not the Telugu catalogue text. Categories, difficulties, correct-answer indices and option counts are exact. The text is opaque to every operation.
- Quiz.RankSort: the order among records with equal best and total score is scan order, as a stable sort gives. The sort's definition produces that order, but it is not stated as a lemma.
- `favoriteCategory` is never written by any operation. It stays as a field only.
- The app screens (`index.tsx`, `leaderboard.tsx`, `[sessionId].tsx`) and the browser quiz (`script.js`) are not part of the backend, so they are not modelled. The leaderboard screen's average-score formatting is floating point.
