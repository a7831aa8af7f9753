/** The session engine (start, answer, complete), the per-user statistics
    that completion folds scores into, and the leaderboard over them. */
module Quiz {

  import opened Schema
  import opened Sequences
  import opened Store

  /** startQuiz keeps at most this many questions. */
  const SampleSize := 10

  // ---------------------------------------------------------------------
  // startQuiz

  predicate Selected(q: Question, category: string, difficulty: string) {
    q.category == category && q.difficulty == difficulty
  }

  /** The filter of startQuiz, as a predicate on stored ids. */
  function InQuiz(qs: map<Id, Question>, category: string, difficulty: string): Id -> bool {
    id => id in qs && Selected(qs[id], category, difficulty)
  }

  /** The stored questions a new session may draw from. */
  ghost function Eligible(qs: map<Id, Question>, category: string, difficulty: string): set<Id> {
    set id | id in qs && Selected(qs[id], category, difficulty)
  }

  /** The question ids of a new session: filter, shuffle, keep the first ten. */
  function QuizQuestions(
    qs: map<Id, Question>, order: seq<Id>, category: string, difficulty: string, draws: seq<nat>
  ): (ids: seq<Id>)
    ensures forall id :: id in ids ==> id in qs && Selected(qs[id], category, difficulty)
  {
    Sample(order, InQuiz(qs, category, difficulty), draws, SampleSize)
  }

  /** No id twice, min(10, number of eligible questions) of them, and all of
      the eligible ones when there are at most ten. */
  lemma QuizQuestionsSpec(
    qs: map<Id, Question>, order: seq<Id>, category: string, difficulty: string, draws: seq<nat>)
    requires ScanOrder(qs, order)
    ensures var ids := QuizQuestions(qs, order, category, difficulty, draws);
            && Distinct(ids)
            && |ids| == Min(SampleSize, |Eligible(qs, category, difficulty)|)
            && (|Eligible(qs, category, difficulty)| <= SampleSize ==>
                  forall id :: id in Eligible(qs, category, difficulty) ==> id in ids)
  {
    SampleSpec(order, InQuiz(qs, category, difficulty), draws, SampleSize);
    MatchCount(qs, order, InQuiz(qs, category, difficulty), Eligible(qs, category, difficulty));
  }

  /** Inserts a session over a fresh sample of matching questions, with no
      answers, score 0 and no completion time. Nothing else changes. */
  method StartQuiz(
    db: Database, category: string, difficulty: string, userId: Option<string>, now: int, draws: seq<nat>
  ) returns (sessionId: Id)
    requires db.Valid()
    modifies db
    ensures db.Valid()
    ensures sessionId !in old(db.sessions)
    ensures var ids := QuizQuestions(db.questions, db.questionOrder, category, difficulty, draws);
            db.sessions == old(db.sessions)[sessionId :=
              QuizSession(userId, category, difficulty, ids, map[], 0, |ids|, None, now)]
    ensures var ids := db.sessions[sessionId].questions;
            && Distinct(ids)
            && (forall id :: id in ids ==> id in db.questions && Selected(db.questions[id], category, difficulty))
            && |ids| == Min(SampleSize, |Eligible(db.questions, category, difficulty)|)
    ensures db.questions == old(db.questions) && db.questionOrder == old(db.questionOrder)
    ensures db.stats == old(db.stats) && db.statsOrder == old(db.statsOrder)
  {
    var ids := QuizQuestions(db.questions, db.questionOrder, category, difficulty, draws);
    QuizQuestionsSpec(db.questions, db.questionOrder, category, difficulty, draws);
    sessionId := db.InsertSession(QuizSession(userId, category, difficulty, ids, map[], 0, |ids|, None, now));
  }

  // ---------------------------------------------------------------------
  // getQuizSession

  /** A session with its question ids replaced by the questions themselves. */
  datatype SessionView = SessionView(session: QuizSession, questions: seq<Doc<Question>>)

  /** Looks up each id in turn, dropping those whose question is gone. */
  function Resolve(ids: seq<Id>, qs: map<Id, Question>): (r: seq<Doc<Question>>)
    ensures |r| <= |ids|
    ensures forall d :: d in r ==> d.id in ids && d.id in qs && qs[d.id] == d.fields
    ensures forall id :: id in ids && id in qs ==> Doc(id, qs[id]) in r
    ensures (forall id :: id in ids ==> id in qs) ==>
              |r| == |ids| && forall i :: 0 <= i < |ids| ==> r[i] == Doc(ids[i], qs[ids[i]])
  {
    if |ids| == 0 then []
    else
      var rest := Resolve(ids[1..], qs);
      var r := (if ids[0] in qs then [Doc(ids[0], qs[ids[0]])] else []) + rest;
      assert (forall id :: id in ids ==> id in qs) ==> forall i :: 1 <= i < |r| ==> r[i] == rest[i - 1];
      r
  }

  /** The ids whose question is still stored. */
  function Present(qs: map<Id, Question>): Id -> bool {
    id => id in qs
  }

  lemma ResolveCons(ids: seq<Id>, qs: map<Id, Question>)
    requires |ids| > 0
    ensures Resolve(ids, qs) == (if ids[0] in qs then [Doc(ids[0], qs[ids[0]])] else []) + Resolve(ids[1..], qs)
  {
  }

  /** Resolving keeps the surviving ids in session order: it is the scan of
      the session's ids filtered by presence. */
  lemma {:induction false} ResolveKeepsOrder(ids: seq<Id>, qs: map<Id, Question>)
    ensures Resolve(ids, qs) == Scan(qs, Filter(ids, Present(qs)))
  {
    if |ids| > 0 {
      var x := ids[0];
      var rest := Filter(ids[1..], Present(qs));
      ResolveKeepsOrder(ids[1..], qs);
      ResolveCons(ids, qs);
      FilterCons(ids, Present(qs));
      if x in qs {
        ScanCons(qs, x, rest);
      }
    }
  }

  function GetQuizSession(db: Database, sessionId: Id): (r: Option<SessionView>)
    reads db
    ensures r.None? <==> sessionId !in db.sessions
    ensures r.Some? ==> r.value.session == db.sessions[sessionId]
    ensures r.Some? ==> r.value.questions == Resolve(db.sessions[sessionId].questions, db.questions)
  {
    if sessionId !in db.sessions then None
    else
      var session := db.sessions[sessionId];
      Some(SessionView(session, Resolve(session.questions, db.questions)))
  }

  // ---------------------------------------------------------------------
  // submitAnswer

  /** The session with answer slot `index` overwritten and nothing else changed. */
  function WithAnswer(s: QuizSession, index: nat, answer: int): (r: QuizSession)
    ensures index in r.answers && r.answers[index] == answer
    ensures forall j :: j in s.answers ==> j in r.answers
    ensures forall j :: j in r.answers ==> j == index || j in s.answers
    ensures forall j :: j in s.answers && j != index ==> r.answers[j] == s.answers[j]
    ensures r.(answers := s.answers) == s
  {
    s.(answers := s.answers[index := answer])
  }

  /** A second submission to the same slot replaces the first. */
  lemma SubmitTwice(s: QuizSession, index: nat, first: int, second: int)
    ensures WithAnswer(WithAnswer(s, index, first), index, second) == WithAnswer(s, index, second)
  {
  }

  /** Submissions to different slots do not interfere. */
  lemma SubmitDifferentSlots(s: QuizSession, i: nat, j: nat, a: int, b: int)
    requires i != j
    ensures WithAnswer(WithAnswer(s, i, a), j, b) == WithAnswer(WithAnswer(s, j, b), i, a)
  {
  }

  method SubmitAnswer(db: Database, sessionId: Id, questionIndex: nat, answer: int) returns (r: Result<string>)
    requires db.Valid()
    modifies db
    ensures db.Valid()
    ensures sessionId !in old(db.sessions) ==> r == Err(SessionNotFound) && unchanged(db)
    ensures sessionId in old(db.sessions) ==>
              && r == Ok("Answer submitted")
              && db.sessions == old(db.sessions)[sessionId := WithAnswer(old(db.sessions)[sessionId], questionIndex, answer)]
    ensures db.questions == old(db.questions) && db.questionOrder == old(db.questionOrder)
    ensures db.stats == old(db.stats) && db.statsOrder == old(db.statsOrder)
  {
    if sessionId !in db.sessions {
      return Err(SessionNotFound);
    }
    var session := db.sessions[sessionId];
    var newAnswers := session.answers;
    newAnswers := newAnswers[questionIndex := answer];
    db.sessions := db.sessions[sessionId := session.(answers := newAnswers)];
    r := Ok("Answer submitted");
  }

  // ---------------------------------------------------------------------
  // completeQuiz: scoring

  /** Each id looked up in the store; None where the question is gone. */
  function Fetch(ids: seq<Id>, qs: map<Id, Question>): (r: seq<Option<Question>>)
  {
    seq(|ids|, i requires 0 <= i < |ids| => if ids[i] in qs then Some(qs[ids[i]]) else None)
  }

  /** Position i scores: its question exists and the answer stored at i is
      that question's correct answer. An unanswered slot never scores. */
  predicate Hit(resolved: seq<Option<Question>>, answers: map<nat, int>, i: nat)
    requires i < |resolved|
  {
    resolved[i].Some? && i in answers && answers[i] == resolved[i].value.correctAnswer
  }

  /** The number of scoring positions below k. */
  function HitCount(resolved: seq<Option<Question>>, answers: map<nat, int>, k: nat): (n: nat)
    requires k <= |resolved|
    ensures n <= k
  {
    if k == 0 then 0
    else HitCount(resolved, answers, k - 1) + (if Hit(resolved, answers, k - 1) then 1 else 0)
  }

  /** The running count is the size of the set of scoring positions. */
  lemma {:induction false} HitCountIsSize(resolved: seq<Option<Question>>, answers: map<nat, int>, k: nat)
    requires k <= |resolved|
    ensures HitCount(resolved, answers, k) == |set i | 0 <= i < k && Hit(resolved, answers, i)|
  {
    var hits := set i | 0 <= i < k && Hit(resolved, answers, i);
    if k == 0 {
      assert hits == {};
    } else {
      HitCountIsSize(resolved, answers, k - 1);
      var before := set i | 0 <= i < k - 1 && Hit(resolved, answers, i);
      if Hit(resolved, answers, k - 1) {
        assert hits == before + {k - 1};
      } else {
        assert hits == before;
      }
    }
  }

  /** The score of a session against the questions as they are now. */
  function Score(s: QuizSession, qs: map<Id, Question>): nat
  {
    HitCount(Fetch(s.questions, qs), s.answers, |s.questions|)
  }

  /** The score counts the positions whose question still exists and whose
      stored answer is its correct answer; so it is at most the number of
      questions, and 0 for a session without questions. */
  lemma ScoreSpec(s: QuizSession, qs: map<Id, Question>)
    ensures Score(s, qs) == |set i | 0 <= i < |s.questions| && s.questions[i] in qs && i in s.answers
                                      && s.answers[i] == qs[s.questions[i]].correctAnswer|
    ensures Score(s, qs) <= |s.questions|
    ensures s.questions == [] ==> Score(s, qs) == 0
  {
    var resolved := Fetch(s.questions, qs);
    HitCountIsSize(resolved, s.answers, |s.questions|);
    assert (set i | 0 <= i < |s.questions| && Hit(resolved, s.answers, i))
        == (set i | 0 <= i < |s.questions| && s.questions[i] in qs && i in s.answers
                    && s.answers[i] == qs[s.questions[i]].correctAnswer);
  }

  /** The scoring loop: one pass over the resolved questions, counting hits. */
  method CountCorrect(resolved: seq<Option<Question>>, answers: map<nat, int>) returns (score: nat)
    ensures score == HitCount(resolved, answers, |resolved|)
  {
    score := 0;
    var index := 0;
    while index < |resolved|
      invariant index <= |resolved|
      invariant score == HitCount(resolved, answers, index)
    {
      var question := resolved[index];
      if question.Some? && index in answers && answers[index] == question.value.correctAnswer {
        score := score + 1;
      }
      index := index + 1;
    }
  }

  // ---------------------------------------------------------------------
  // completeQuiz: the userStats upsert

  /** Stats are kept only for a present, non-empty user id. */
  predicate HasUser(userId: Option<string>) {
    userId.Some? && userId.value != ""
  }

  /** The user's stats after one more completed quiz: a first record, or
      the prior one with the count, total and best updated. */
  function Folded(prior: Option<UserStats>, userId: string, score: nat, now: int): (r: UserStats)
    ensures prior.None? ==>
              && r.userId == userId && r.totalQuizzes == 1 && r.totalScore == score
              && r.bestScore == score && r.streak == 1 && r.favoriteCategory.None?
    ensures prior.Some? ==>
              var st := prior.value;
              && r.userId == st.userId
              && r.totalQuizzes == st.totalQuizzes + 1
              && r.totalScore == st.totalScore + score
              && st.bestScore <= r.bestScore && score <= r.bestScore
              && (r.bestScore == st.bestScore || r.bestScore == score)
              && r.streak == st.streak
              && r.favoriteCategory == st.favoriteCategory
    ensures r.lastQuizDate == Some(now)
  {
    match prior
    case None => UserStats(userId, 1, score, score, None, 1, Some(now))
    case Some(st) =>
      st.(totalQuizzes := st.totalQuizzes + 1,
          totalScore := st.totalScore + score,
          bestScore := if st.bestScore >= score then st.bestScore else score,
          lastQuizDate := Some(now))
  }

  /** The position, in scan order from `from` on, of the first stats record
      of this user: what `.filter(...).first()` finds. */
  function FindUser(stats: map<Id, UserStats>, order: seq<Id>, userId: string, from: nat): (r: Option<nat>)
    requires from <= |order|
    requires forall id :: id in order ==> id in stats
    ensures r.Some? ==> from <= r.value < |order| && stats[order[r.value]].userId == userId
    ensures r.Some? ==> forall k :: from <= k < r.value ==> stats[order[k]].userId != userId
    ensures r.None? ==> forall k :: from <= k < |order| ==> stats[order[k]].userId != userId
    decreases |order| - from
  {
    if from == |order| then None
    else if stats[order[from]].userId == userId then Some(from)
    else FindUser(stats, order, userId, from + 1)
  }

  /** At most one stats record per user. */
  ghost predicate OneRecordPerUser(stats: map<Id, UserStats>) {
    forall a, b :: a in stats && b in stats && stats[a].userId == stats[b].userId ==> a == b
  }

  /** The stats tables after folding a score into the record of `userId`:
      the first record of the user is updated in place, or, when there is
      none, a new record is appended under a fresh id. */
  ghost predicate StatsFolded(
    before: map<Id, UserStats>, beforeOrder: seq<Id>, after: map<Id, UserStats>, afterOrder: seq<Id>,
    userId: string, score: nat, now: int)
    requires forall id :: id in beforeOrder ==> id in before
  {
    match FindUser(before, beforeOrder, userId, 0)
    case Some(i) =>
      && afterOrder == beforeOrder
      && after == before[beforeOrder[i] := Folded(Some(before[beforeOrder[i]]), userId, score, now)]
    case None =>
      && |afterOrder| == |beforeOrder| + 1
      && afterOrder[..|beforeOrder|] == beforeOrder
      && afterOrder[|beforeOrder|] !in before
      && after == before[afterOrder[|beforeOrder|] := Folded(None, userId, score, now)]
  }

  /** When the scan finds no record of a user, no stored record is theirs. */
  lemma NoRecordOf(stats: map<Id, UserStats>, order: seq<Id>, userId: string)
    requires ScanOrder(stats, order)
    requires FindUser(stats, order, userId, 0).None?
    ensures forall id :: id in stats ==> stats[id].userId != userId
  {
    forall id | id in stats
      ensures stats[id].userId != userId
    {
      var k :| 0 <= k < |order| && order[k] == id;
    }
  }

  /** The answer of completeQuiz. */
  datatype Completion = Completion(score: nat, totalQuestions: nat)

  /** Scores the session against the current questions, records the score and
      completion time on it, and folds the score into the user's stats. It is
      not guarded against repeats: a completed session is scored again and
      its score folded in again. */
  method CompleteQuiz(db: Database, sessionId: Id, now: int) returns (r: Result<Completion>)
    requires db.Valid()
    modifies db
    ensures db.Valid()
    ensures sessionId !in old(db.sessions) ==> r == Err(SessionNotFound) && unchanged(db)
    ensures sessionId in old(db.sessions) ==>
              var s := old(db.sessions)[sessionId];
              var score := Score(s, old(db.questions));
              && r == Ok(Completion(score, s.totalQuestions))
              && db.sessions == old(db.sessions)[sessionId := s.(score := score, completedAt := Some(now))]
              && (if HasUser(s.userId)
                  then StatsFolded(old(db.stats), old(db.statsOrder), db.stats, db.statsOrder, s.userId.value, score, now)
                  else db.stats == old(db.stats) && db.statsOrder == old(db.statsOrder))
    ensures db.questions == old(db.questions) && db.questionOrder == old(db.questionOrder)
    ensures OneRecordPerUser(old(db.stats)) ==> OneRecordPerUser(db.stats)
  {
    if sessionId !in db.sessions {
      return Err(SessionNotFound);
    }
    var session := db.sessions[sessionId];
    var questions := Fetch(session.questions, db.questions);
    var score := CountCorrect(questions, session.answers);
    db.sessions := db.sessions[sessionId := session.(score := score, completedAt := Some(now))];
    if HasUser(session.userId) {
      var userId := session.userId.value;
      var existing := FindUser(db.stats, db.statsOrder, userId, 0);
      match existing {
        case Some(i) =>
          var id := db.statsOrder[i];
          db.stats := db.stats[id := Folded(Some(db.stats[id]), userId, score, now)];
        case None =>
          NoRecordOf(db.stats, db.statsOrder, userId);
          var _ := db.InsertStats(Folded(None, userId, score, now));
      }
    }
    r := Ok(Completion(score, session.totalQuestions));
  }

  // ---------------------------------------------------------------------
  // Stats over a series of completions

  function Sum(s: seq<nat>): nat {
    if |s| == 0 then 0 else Sum(s[..|s| - 1]) + s[|s| - 1]
  }

  /** A user's stats after completing quizzes with these scores, in order
      (None before the first). */
  function History(userId: string, scores: seq<nat>, now: int): Option<UserStats>
  {
    if |scores| == 0 then None
    else Some(Folded(History(userId, scores[..|scores| - 1], now), userId, scores[|scores| - 1], now))
  }

  /** After n completions: n quizzes, the sum of the scores, their maximum as
      best, and the streak still at its initial 1. */
  lemma {:induction false} HistorySpec(userId: string, scores: seq<nat>, now: int)
    requires |scores| > 0
    ensures History(userId, scores, now).Some?
    ensures var st := History(userId, scores, now).value;
            && st.userId == userId
            && st.totalQuizzes == |scores|
            && st.totalScore == Sum(scores)
            && (forall i :: 0 <= i < |scores| ==> scores[i] <= st.bestScore)
            && (exists i :: 0 <= i < |scores| && scores[i] == st.bestScore)
            && st.streak == 1
  {
    var n := |scores|;
    if n > 1 {
      var prefix := scores[..n - 1];
      HistorySpec(userId, prefix, now);
      var prior := History(userId, prefix, now).value;
      var j :| 0 <= j < n - 1 && prefix[j] == prior.bestScore;
      var st := History(userId, scores, now).value;
      assert forall i :: 0 <= i < n - 1 ==> scores[i] == prefix[i];
      if prior.bestScore >= scores[n - 1] {
        assert scores[j] == st.bestScore;
      } else {
        assert scores[n - 1] == st.bestScore;
      }
    } else {
      assert scores[..0] == [];
      assert scores[0] == History(userId, scores, now).value.bestScore;
    }
  }

  /** One completion with score S, then a second with T. */
  lemma OneThenTwoCompletions(userId: string, s: nat, t: nat, now: int)
    ensures var one := Folded(None, userId, s, now);
            one.totalQuizzes == 1 && one.totalScore == s && one.bestScore == s && one.streak == 1
    ensures var two := Folded(Some(Folded(None, userId, s, now)), userId, t, now);
            two.totalQuizzes == 2 && two.totalScore == s + t && two.bestScore == Max(s, t) && two.streak == 1
  {
  }

  /** Completing a session a second time scores it the same (the score
      depends only on its questions and answers) and folds that score into
      the stats once more. */
  lemma CompleteTwice(s: QuizSession, qs: map<Id, Question>, prior: Option<UserStats>, userId: string, first: int, second: int)
    ensures var completed := s.(score := Score(s, qs), completedAt := Some(first));
            Score(completed, qs) == Score(s, qs)
    ensures var score := Score(s, qs);
            var once := Folded(prior, userId, score, first);
            var twice := Folded(Some(once), userId, score, second);
            && twice.totalQuizzes == once.totalQuizzes + 1
            && twice.totalScore == once.totalScore + score
            && twice.bestScore == once.bestScore
  {
  }

  // ---------------------------------------------------------------------
  // getLeaderboard

  /** a may be listed before b: a higher best score, or the same best score
      and at least the same total. */
  predicate Outranks(a: UserStats, b: UserStats) {
    a.bestScore > b.bestScore || (a.bestScore == b.bestScore && a.totalScore >= b.totalScore)
  }

  /** The comparator handed to `sort`: negative when a goes first. */
  function Comparator(a: UserStats, b: UserStats): int {
    if b.bestScore != a.bestScore then b.bestScore - a.bestScore
    else b.totalScore - a.totalScore
  }

  /** Outranks is exactly "the comparator does not put b first", and it is a
      total preorder whose ties are the records with equal best and total. */
  lemma OutranksIsComparator(a: UserStats, b: UserStats, c: UserStats)
    ensures Outranks(a, b) <==> Comparator(a, b) <= 0
    ensures Outranks(a, b) || Outranks(b, a)
    ensures Outranks(a, b) && Outranks(b, c) ==> Outranks(a, c)
    ensures Outranks(a, b) && Outranks(b, a) <==> a.bestScore == b.bestScore && a.totalScore == b.totalScore
  {
  }

  ghost predicate Ranked(s: seq<Doc<UserStats>>) {
    forall i, j :: 0 <= i < j < |s| ==> Outranks(s[i].fields, s[j].fields)
  }

  /** Places x before the first entry it outranks. */
  function Insert(x: Doc<UserStats>, s: seq<Doc<UserStats>>): (r: seq<Doc<UserStats>>)
    ensures multiset(r) == multiset(s) + multiset{x}
  {
    if |s| == 0 || Outranks(x.fields, s[0].fields) then
      [x] + s
    else
      assert s == [s[0]] + s[1..];
      [s[0]] + Insert(x, s[1..])
  }

  /** Inserting into a ranked sequence keeps it ranked. */
  lemma {:induction false} InsertRanked(x: Doc<UserStats>, s: seq<Doc<UserStats>>)
    requires Ranked(s)
    ensures Ranked(Insert(x, s))
  {
    var r := Insert(x, s);
    if |s| == 0 || Outranks(x.fields, s[0].fields) {
      assert r == [x] + s;
      forall i, j | 0 <= i < j < |r|
        ensures Outranks(r[i].fields, r[j].fields)
      {
        if i == 0 && j > 1 {
          assert Outranks(s[0].fields, s[j - 1].fields);
        }
      }
    } else {
      var rest := Insert(x, s[1..]);
      assert r == [s[0]] + rest;
      assert Ranked(s[1..]) by {
        forall i, j | 0 <= i < j < |s[1..]|
          ensures Outranks(s[1..][i].fields, s[1..][j].fields)
        {
          assert s[1..][i] == s[i + 1] && s[1..][j] == s[j + 1];
        }
      }
      InsertRanked(x, s[1..]);
      forall i, j | 0 <= i < j < |r|
        ensures Outranks(r[i].fields, r[j].fields)
      {
        if i == 0 {
          var y := rest[j - 1];
          assert y in multiset(rest);
          if y != x {
            assert y in multiset(s[1..]);
            var k :| 0 <= k < |s[1..]| && s[1..][k] == y;
            assert y == s[k + 1];
          }
        } else {
          assert r[i] == rest[i - 1] && r[j] == rest[j - 1];
        }
      }
    }
  }

  /** Stats sorted by best score, then total score, both descending; equal
      entries keep their scan order. */
  function RankSort(s: seq<Doc<UserStats>>): (r: seq<Doc<UserStats>>)
    ensures multiset(r) == multiset(s)
  {
    if |s| == 0 then []
    else
      assert s == [s[0]] + s[1..];
      Insert(s[0], RankSort(s[1..]))
  }

  lemma {:induction false} RankSortRanked(s: seq<Doc<UserStats>>)
    ensures Ranked(RankSort(s))
  {
    if |s| > 0 {
      RankSortRanked(s[1..]);
      InsertRanked(s[0], RankSort(s[1..]));
    }
  }

  /** A prefix of a ranked sequence is ranked. */
  lemma RankedPrefix(s: seq<Doc<UserStats>>, end: int)
    requires Ranked(s)
    ensures Ranked(Prefix(s, end))
  {
    var r := Prefix(s, end);
    forall i, j | 0 <= i < j < |r|
      ensures Outranks(r[i].fields, r[j].fields)
    {
      assert r[i] == s[i] && r[j] == s[j];
    }
  }

  /** The sorted scan of a stats table: ranked, each stored record once. */
  lemma SortedScan(table: map<Id, UserStats>, order: seq<Id>)
    requires ScanOrder(table, order)
    ensures var sorted := RankSort(Scan(table, order));
            && Ranked(sorted)
            && |sorted| == |table|
            && Distinct(sorted)
            && (forall d :: d in sorted ==> d.id in table && table[d.id] == d.fields)
            && (forall id :: id in table ==> Doc(id, table[id]) in sorted)
  {
    var scan := Scan(table, order);
    var sorted := RankSort(scan);
    ScanSpec(table, order);
    RankSortRanked(scan);
    PermutationDistinct(scan, sorted);
    assert |sorted| == |multiset(sorted)| == |scan|;
    forall d | d in sorted
      ensures d.id in table && table[d.id] == d.fields
    {
      assert d in multiset(scan);
    }
    forall id | id in table
      ensures Doc(id, table[id]) in sorted
    {
      assert Doc(id, table[id]) in multiset(scan);
    }
  }

  function GetLeaderboard(db: Database, limit: Option<int>): (r: seq<Doc<UserStats>>)
    reads db
    requires db.Valid()
  {
    Prefix(RankSort(Scan(db.stats, db.statsOrder)), Cap(limit))
  }

  /** Ranked; `limit || 10` entries or all of them; every entry a stored
      record, none twice; and all records when the cap covers them. */
  lemma GetLeaderboardSpec(db: Database, limit: Option<int>)
    requires db.Valid()
    ensures var r := GetLeaderboard(db, limit);
            && Ranked(r)
            && (Cap(limit) >= 0 ==> |r| == Min(Cap(limit), |db.stats|))
            && (Cap(limit) < 0 ==> |r| == Max(|db.stats| + Cap(limit), 0))
            && (forall d :: d in r ==> d.id in db.stats && db.stats[d.id] == d.fields)
            && (forall i, j :: 0 <= i < j < |r| ==> r[i].id != r[j].id)
            && (|db.stats| <= Cap(limit) ==> forall id :: id in db.stats ==> Doc(id, db.stats[id]) in r)
            && ((limit.None? || limit == Some(0)) ==> |r| == Min(10, |db.stats|))
  {
    var sorted := RankSort(Scan(db.stats, db.statsOrder));
    var r := GetLeaderboard(db, limit);
    SortedScan(db.stats, db.statsOrder);
    RankedPrefix(sorted, Cap(limit));
    assert r == sorted[..|r|];
    forall i, j | 0 <= i < j < |r|
      ensures r[i].id != r[j].id
    {
      assert r[i] == sorted[i] && r[j] == sorted[j];
    }
    if |db.stats| <= Cap(limit) {
      assert r == sorted;
    }
  }

  lemma RankSortCons(x: Doc<UserStats>, s: seq<Doc<UserStats>>)
    ensures RankSort([x] + s) == Insert(x, RankSort(s))
  {
    assert ([x] + s)[1..] == s;
  }

  /** An entry that does not outrank the head goes behind it. */
  lemma InsertBehind(x: Doc<UserStats>, y: Doc<UserStats>, s: seq<Doc<UserStats>>)
    requires !Outranks(x.fields, y.fields)
    ensures Insert(x, [y] + s) == [y] + Insert(x, s)
  {
    assert ([y] + s)[1..] == s;
  }

  /** An entry that outranks the head goes in front of it. */
  lemma InsertFront(x: Doc<UserStats>, y: Doc<UserStats>, s: seq<Doc<UserStats>>)
    requires Outranks(x.fields, y.fields)
    ensures Insert(x, [y] + s) == [x, y] + s
  {
  }

  // The example below, one insertion per lemma.

  lemma ExampleSortTwo(b: Doc<UserStats>, c: Doc<UserStats>)
    requires !Outranks(b.fields, c.fields)
    ensures RankSort([b, c]) == [c, b]
  {
    assert RankSort([c]) == [c] by {
      RankSortCons(c, []);
      assert [c] == [c] + [];
    }
    RankSortCons(b, [c]);
    assert [b, c] == [b] + [c];
    InsertBehind(b, c, []);
  }

  lemma ExampleSortThree(a: Doc<UserStats>, b: Doc<UserStats>, c: Doc<UserStats>)
    ensures RankSort([a, b, c]) == Insert(a, RankSort([b, c]))
  {
    RankSortCons(a, [b, c]);
    assert [a, b, c] == [a] + [b, c];
  }

  lemma ExampleBehind(a: Doc<UserStats>, b: Doc<UserStats>, c: Doc<UserStats>)
    requires !Outranks(a.fields, c.fields)
    ensures Insert(a, [c, b]) == [c] + Insert(a, [b])
  {
    assert [c, b] == [c] + [b];
    InsertBehind(a, c, [b]);
  }

  lemma ExampleFront(a: Doc<UserStats>, b: Doc<UserStats>)
    requires Outranks(a.fields, b.fields)
    ensures Insert(a, [b]) == [a, b]
  {
    assert [b] == [b] + [];
    InsertFront(a, b, []);
  }

  lemma ExampleTopTwo(x: Doc<UserStats>, y: Doc<UserStats>, z: Doc<UserStats>)
    ensures Prefix([x, y, z], Cap(Some(2))) == [x, y]
  {
  }

  /** Three records whose ranking is c, then a, then b, in scan order a, b, c. */
  lemma ExampleRanking(a: Doc<UserStats>, b: Doc<UserStats>, c: Doc<UserStats>)
    requires !Outranks(b.fields, c.fields) && !Outranks(a.fields, c.fields) && Outranks(a.fields, b.fields)
    ensures RankSort([a, b, c]) == [c, a, b]
  {
    ExampleSortTwo(b, c);
    ExampleSortThree(a, b, c);
    ExampleBehind(a, b, c);
    ExampleFront(a, b);
  }

  /** Best 8 with total 20, best 8 with total 15, best 9 with total 9, in that
      scan order, limit 2: the 9 first, then the 8 with the larger total. */
  lemma LeaderboardExample(a: Doc<UserStats>, b: Doc<UserStats>, c: Doc<UserStats>)
    requires a.fields.bestScore == 8 && a.fields.totalScore == 20
    requires b.fields.bestScore == 8 && b.fields.totalScore == 15
    requires c.fields.bestScore == 9 && c.fields.totalScore == 9
    ensures Prefix(RankSort([a, b, c]), Cap(Some(2))) == [c, a]
  {
    ExampleRanking(a, b, c);
    ExampleTopTwo(c, a, b);
  }
}
