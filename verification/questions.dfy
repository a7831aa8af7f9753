/** The question-store queries and the seeding mutation: listing questions
    of a category, listing the categories present, and appending the fixed
    sample catalogue. */
module Questions {

  import opened Schema
  import opened Sequences
  import opened Store

  const OldTestament := "పాత నిబంధన"
  const NewTestament := "కొత్త నిబంధన"
  const Easy := "సులభం"
  const Medium := "మధ్యమం"
  const Hard := "కష్టం"

  // ---------------------------------------------------------------------
  // getQuestionsByCategory

  /** An absent or empty difficulty applies no difficulty filter. */
  predicate DifficultyGiven(difficulty: Option<string>) {
    difficulty.Some? && difficulty.value != ""
  }

  predicate ByCategory(q: Question, category: string, difficulty: Option<string>) {
    && q.category == category
    && (DifficultyGiven(difficulty) ==> q.difficulty == difficulty.value)
  }

  /** The stored questions a category listing may return. */
  ghost function Matching(questions: map<Id, Question>, category: string, difficulty: Option<string>): set<Id> {
    set id | id in questions && ByCategory(questions[id], category, difficulty)
  }

  /** The filter of the category listing, as a predicate on stored ids. */
  function InCategory(qs: map<Id, Question>, category: string, difficulty: Option<string>): Id -> bool {
    id => id in qs && ByCategory(qs[id], category, difficulty)
  }

  /** Filter by category (and difficulty when one is given), shuffle with the
      given draws, keep the first `limit || 10`. */
  function GetQuestionsByCategory(
    db: Database, category: string, difficulty: Option<string>, limit: Option<int>, draws: seq<nat>
  ): (r: seq<Doc<Question>>)
    reads db
    requires db.Valid()
    ensures forall d :: d in r ==>
              d.id in db.questions && db.questions[d.id] == d.fields && ByCategory(d.fields, category, difficulty)
  {
    var qs := db.questions;
    var ids := Sample(db.questionOrder, InCategory(qs, category, difficulty), draws, Cap(limit));
    Scan(qs, ids)
  }

  /** No question twice; as many as the cap allows; and when the cap covers
      every match, every matching question is there. */
  lemma GetQuestionsByCategorySpec(
    db: Database, category: string, difficulty: Option<string>, limit: Option<int>, draws: seq<nat>)
    requires db.Valid()
    ensures var r := GetQuestionsByCategory(db, category, difficulty, limit, draws);
            var n := |Matching(db.questions, category, difficulty)|;
            && (forall i, j :: 0 <= i < j < |r| ==> r[i].id != r[j].id)
            && (Cap(limit) >= 0 ==> |r| == Min(Cap(limit), n))
            && (Cap(limit) < 0 ==> |r| == Max(n + Cap(limit), 0))
            && (n <= Cap(limit) ==>
                  forall id :: id in Matching(db.questions, category, difficulty) ==> Doc(id, db.questions[id]) in r)
            && ((limit.None? || limit == Some(0)) ==> |r| == Min(10, n))
  {
    var qs := db.questions;
    ScanSample(qs, db.questionOrder, InCategory(qs, category, difficulty), draws, Cap(limit), Matching(qs, category, difficulty));
  }

  // ---------------------------------------------------------------------
  // getAllCategories

  function CategoryColumn(qs: seq<Question>): (r: seq<string>)
  {
    seq(|qs|, i requires 0 <= i < |qs| => qs[i].category)
  }

  /** The categories of the stored questions, each once, in scan order. */
  function GetAllCategories(db: Database): (r: seq<string>)
    reads db
    requires db.Valid()
  {
    Dedup(CategoryColumn(Contents(db.questions, db.questionOrder)))
  }

  /** Every category of a stored question appears exactly once and nothing
      else does, in order of first appearance; an empty store has none. */
  lemma GetAllCategoriesSpec(db: Database)
    requires db.Valid()
    ensures var r := GetAllCategories(db);
            var column := CategoryColumn(Contents(db.questions, db.questionOrder));
            && (forall id :: id in db.questions ==> db.questions[id].category in r)
            && (forall c :: c in r ==> exists id :: id in db.questions && db.questions[id].category == c)
            && Distinct(r)
            && (forall i, j :: 0 <= i < j < |r| ==> FirstIndex(column, r[i]) < FirstIndex(column, r[j]))
            && (db.questions == map[] ==> r == [])
  {
    var column := CategoryColumn(Contents(db.questions, db.questionOrder));
    var r := GetAllCategories(db);
    DedupDistinct(column);
    DedupOrder(column);
    forall id | id in db.questions
      ensures db.questions[id].category in r
    {
      var k :| 0 <= k < |db.questionOrder| && db.questionOrder[k] == id;
      assert column[k] == db.questions[id].category;
    }
    forall c | c in r
      ensures exists id :: id in db.questions && db.questions[id].category == c
    {
      var k :| 0 <= k < |column| && column[k] == c;
      assert db.questions[db.questionOrder[k]].category == c;
    }
    if db.questions == map[] {
      TableSize(db.questions, db.questionOrder);
    }
  }

  // ---------------------------------------------------------------------
  // addSampleQuestions

  /** The fixed sample catalogue, in insertion order. The wording of each
      question, its options, verse and explanation is kept as a short
      placeholder; answer indices, categories and difficulties are exact. */
  function SampleQuestions(): (r: seq<Question>)
    ensures |r| == 8
    ensures forall i :: 0 <= i < |r| ==>
              |r[i].options| == 4 && 0 <= r[i].correctAnswer < |r[i].options|
  {
    [ Question("Q1", ["Q1.a", "Q1.b", "Q1.c", "Q1.d"], 1, OldTestament, Easy, Some("Q1.verse"), Some("Q1.explanation")),
      Question("Q2", ["Q2.a", "Q2.b", "Q2.c", "Q2.d"], 1, NewTestament, Easy, Some("Q2.verse"), Some("Q2.explanation")),
      Question("Q3", ["Q3.a", "Q3.b", "Q3.c", "Q3.d"], 1, OldTestament, Easy, Some("Q3.verse"), Some("Q3.explanation")),
      Question("Q4", ["Q4.a", "Q4.b", "Q4.c", "Q4.d"], 2, NewTestament, Easy, Some("Q4.verse"), Some("Q4.explanation")),
      Question("Q5", ["Q5.a", "Q5.b", "Q5.c", "Q5.d"], 0, OldTestament, Medium, Some("Q5.verse"), Some("Q5.explanation")),
      Question("Q6", ["Q6.a", "Q6.b", "Q6.c", "Q6.d"], 2, NewTestament, Medium, Some("Q6.verse"), Some("Q6.explanation")),
      Question("Q7", ["Q7.a", "Q7.b", "Q7.c", "Q7.d"], 2, OldTestament, Hard, Some("Q7.verse"), Some("Q7.explanation")),
      Question("Q8", ["Q8.a", "Q8.b", "Q8.c", "Q8.d"], 1, NewTestament, Hard, Some("Q8.verse"), Some("Q8.explanation"))
    ]
  }

  /** The catalogue alternates between the two testaments. */
  lemma SampleColumn()
    ensures CategoryColumn(SampleQuestions())
         == [OldTestament, NewTestament, OldTestament, NewTestament,
             OldTestament, NewTestament, OldTestament, NewTestament]
  {
  }

  /** Two different values are both kept, in order. */
  lemma DedupPair<T>(a: T, b: T)
    requires a != b
    ensures Dedup([a, b]) == [a, b]
  {
    DedupSnoc([], a);
    assert [] + [a] == [a];
    DedupSnoc([a], b);
    assert [a] + [b] == [a, b];
  }

  /** Alternating two different values, first-occurrence order keeps both once. */
  lemma AlternatingDedup<T>(a: T, b: T)
    requires a != b
    ensures Dedup([a, b, a, b, a, b, a, b]) == [a, b]
  {
    DedupPair(a, b);
    DedupAbsorbs([a, b], [a, b, a, b, a, b]);
    assert [a, b] + [a, b, a, b, a, b] == [a, b, a, b, a, b, a, b];
  }

  /** The catalogue's categories, de-duplicated, are the two testaments. */
  lemma SampleCategories()
    ensures Dedup(CategoryColumn(SampleQuestions())) == [OldTestament, NewTestament]
  {
    SampleColumn();
    assert OldTestament != NewTestament by {
      assert OldTestament[0] != NewTestament[0];
    }
    AlternatingDedup(OldTestament, NewTestament);
  }

  /** Seeding an empty store leaves the two testaments as its categories. */
  lemma SeededCategories(db: Database)
    requires db.Valid()
    requires Contents(db.questions, db.questionOrder) == SampleQuestions()
    ensures GetAllCategories(db) == [OldTestament, NewTestament]
  {
    SampleCategories();
  }

  /** Inserts the catalogue, one question at a time, after whatever is stored.
      Nothing is de-duplicated: every call adds eight more questions. */
  method AddSampleQuestions(db: Database) returns (status: string)
    requires db.Valid()
    modifies db
    ensures db.Valid()
    ensures Contents(db.questions, db.questionOrder)
         == old(Contents(db.questions, db.questionOrder)) + SampleQuestions()
    ensures |db.questions| == old(|db.questions|) + 8
    ensures db.questionOrder[..old(|db.questionOrder|)] == old(db.questionOrder)
    ensures forall id :: id in old(db.questions) ==> id in db.questions && db.questions[id] == old(db.questions[id])
    ensures old(db.questions) == map[] ==> GetAllCategories(db) == [OldTestament, NewTestament]
    ensures db.sessions == old(db.sessions)
    ensures db.stats == old(db.stats) && db.statsOrder == old(db.statsOrder)
    ensures status == "Sample questions added successfully!"
  {
    var sample := SampleQuestions();
    TableSize(db.questions, db.questionOrder);
    for i := 0 to |sample|
      invariant db.Valid()
      invariant Contents(db.questions, db.questionOrder)
             == old(Contents(db.questions, db.questionOrder)) + sample[..i]
      invariant |db.questionOrder| == old(|db.questionOrder|) + i
      invariant db.questionOrder[..old(|db.questionOrder|)] == old(db.questionOrder)
      invariant forall id :: id in old(db.questions) ==> id in db.questions && db.questions[id] == old(db.questions[id])
      invariant db.sessions == old(db.sessions)
      invariant db.stats == old(db.stats) && db.statsOrder == old(db.statsOrder)
    {
      ghost var before := Contents(db.questions, db.questionOrder);
      ghost var (table, order) := (db.questions, db.questionOrder);
      var id := db.InsertQuestion(sample[i]);
      ContentsAppend(table, order, id, sample[i]);
      TakeSnoc(sample, i);
    }
    assert sample[..|sample|] == sample;
    TableSize(db.questions, db.questionOrder);
    if old(db.questions) == map[] {
      SeededCategories(db);
    }
    status := "Sample questions added successfully!";
  }
}
