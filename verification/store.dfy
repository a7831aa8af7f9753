/** The database behind the backend: three tables keyed by document id.
    A full scan of a table (`collect()`) returns documents in insertion
    order, which a map does not keep, so the two tables that are scanned
    (questions and userStats) carry their scan order beside the map. */
module Store {

  import opened Schema
  import opened Sequences

  /** `order` lists every key of `table` exactly once. */
  ghost predicate ScanOrder<T>(table: map<Id, T>, order: seq<Id>) {
    && Distinct(order)
    && (forall id :: id in order ==> id in table)
    && (forall id :: id in table ==> id in order)
  }

  /** The documents of a table in scan order: what `collect()` returns. */
  function Scan<T>(table: map<Id, T>, order: seq<Id>): (docs: seq<Doc<T>>)
    requires forall id :: id in order ==> id in table
  {
    seq(|order|, i requires 0 <= i < |order| => Doc(order[i], table[order[i]]))
  }

  /** The fields of a table's documents in scan order. */
  function Contents<T>(table: map<Id, T>, order: seq<Id>): (r: seq<T>)
    requires forall id :: id in order ==> id in table
  {
    seq(|order|, i requires 0 <= i < |order| => table[order[i]])
  }

  /** Inserting under a fresh id appends the new document to the contents. */
  lemma ContentsAppend<T>(table: map<Id, T>, order: seq<Id>, id: Id, x: T)
    requires forall k :: k in order ==> k in table
    requires id !in table
    ensures Contents(table[id := x], order + [id]) == Contents(table, order) + [x]
  {
    var after := Contents(table[id := x], order + [id]);
    forall i | 0 <= i < |order|
      ensures after[i] == Contents(table, order)[i]
    {
      assert order[i] in table;
    }
  }

  /** Scanning one more id first puts its document first. */
  lemma ScanCons<T>(table: map<Id, T>, id: Id, order: seq<Id>)
    requires id in table
    requires forall k :: k in order ==> k in table
    ensures Scan(table, [id] + order) == [Doc(id, table[id])] + Scan(table, order)
  {
  }

  /** A table holds as many documents as its scan order lists. */
  lemma TableSize<T>(table: map<Id, T>, order: seq<Id>)
    requires ScanOrder(table, order)
    ensures |table| == |order|
  {
    DistinctCardinality(order, table.Keys);
    assert |table.Keys| == |table|;
  }

  /** The number of stored documents satisfying p, counted along the scan. */
  lemma MatchCount<T>(table: map<Id, T>, order: seq<Id>, p: Id -> bool, matches: set<Id>)
    requires ScanOrder(table, order)
    requires forall id :: id in matches ==> id in table && p(id)
    requires forall id :: id in table && p(id) ==> id in matches
    ensures |Filter(order, p)| == |matches|
  {
    FilterDistinct(order, p);
    DistinctCardinality(Filter(order, p), matches);
  }

  /** Sampling a table's scan order and fetching the sampled documents gives
      no document twice, as many as the end allows, and every match when the
      end covers them all. `matches` is the set of stored ids satisfying p. */
  lemma ScanSample<T>(table: map<Id, T>, order: seq<Id>, p: Id -> bool, draws: seq<nat>, end: int, matches: set<Id>)
    requires ScanOrder(table, order)
    requires forall id :: id in matches ==> id in table && p(id)
    requires forall id :: id in table && p(id) ==> id in matches
    ensures forall id :: id in Sample(order, p, draws, end) ==> id in table
    ensures var r := Scan(table, Sample(order, p, draws, end));
            && (forall i, j :: 0 <= i < j < |r| ==> r[i].id != r[j].id)
            && |r| == SliceEnd(|matches|, end)
            && (|matches| <= end ==> forall id :: id in matches ==> Doc(id, table[id]) in r)
  {
    var ids := Sample(order, p, draws, end);
    var r := Scan(table, ids);
    SampleSpec(order, p, draws, end);
    MatchCount(table, order, p, matches);
    forall i, j | 0 <= i < j < |r|
      ensures r[i].id != r[j].id
    {
      assert r[i].id == ids[i] && r[j].id == ids[j];
    }
    if |matches| <= end {
      forall id | id in matches
        ensures Doc(id, table[id]) in r
      {
        assert id in order;
        var k :| 0 <= k < |ids| && ids[k] == id;
        assert r[k] == Doc(id, table[id]);
      }
    }
  }

  /** A scan holds each stored document once, and nothing else. */
  lemma ScanSpec<T>(table: map<Id, T>, order: seq<Id>)
    requires ScanOrder(table, order)
    ensures |Scan(table, order)| == |table|
    ensures Distinct(Scan(table, order))
    ensures forall d :: d in Scan(table, order) ==> d.id in table && table[d.id] == d.fields
    ensures forall id :: id in table ==> Doc(id, table[id]) in Scan(table, order)
  {
    var docs := Scan(table, order);
    TableSize(table, order);
    assert |docs| == |order|;
    forall i, j | 0 <= i < j < |docs|
      ensures docs[i] != docs[j]
    {
      assert docs[i].id == order[i] && docs[j].id == order[j];
    }
    forall id | id in table
      ensures Doc(id, table[id]) in docs
    {
      var i :| 0 <= i < |order| && order[i] == id;
      assert docs[i] == Doc(id, table[id]);
    }
  }

  class Database {
    var questions: map<Id, Question>
    var questionOrder: seq<Id>
    var sessions: map<Id, QuizSession>
    var stats: map<Id, UserStats>
    var statsOrder: seq<Id>
    /** Every id handed out so far is below this one. */
    var nextId: nat

    ghost predicate Valid()
      reads this
    {
      && ScanOrder(questions, questionOrder)
      && ScanOrder(stats, statsOrder)
      && (forall id :: id in questions ==> id < nextId)
      && (forall id :: id in sessions ==> id < nextId)
      && (forall id :: id in stats ==> id < nextId)
    }

    /** An empty database. */
    constructor ()
      ensures Valid()
      ensures questions == map[] && questionOrder == []
      ensures sessions == map[]
      ensures stats == map[] && statsOrder == []
    {
      questions, questionOrder := map[], [];
      sessions := map[];
      stats, statsOrder := map[], [];
      nextId := 0;
    }

    /** `insert("questions", q)`: a fresh id, appended to the scan order. */
    method InsertQuestion(q: Question) returns (id: Id)
      requires Valid()
      modifies this
      ensures Valid()
      ensures id !in old(questions)
      ensures questions == old(questions)[id := q]
      ensures questionOrder == old(questionOrder) + [id]
      ensures sessions == old(sessions)
      ensures stats == old(stats) && statsOrder == old(statsOrder)
    {
      id := nextId;
      nextId := nextId + 1;
      AppendFresh(questionOrder, id);
      questions := questions[id := q];
      questionOrder := questionOrder + [id];
    }

    /** `insert("quizSessions", s)`. */
    method InsertSession(s: QuizSession) returns (id: Id)
      requires Valid()
      modifies this
      ensures Valid()
      ensures id !in old(sessions)
      ensures sessions == old(sessions)[id := s]
      ensures questions == old(questions) && questionOrder == old(questionOrder)
      ensures stats == old(stats) && statsOrder == old(statsOrder)
    {
      id := nextId;
      nextId := nextId + 1;
      sessions := sessions[id := s];
    }

    /** `insert("userStats", st)`: a fresh id, appended to the scan order. */
    method InsertStats(st: UserStats) returns (id: Id)
      requires Valid()
      modifies this
      ensures Valid()
      ensures id !in old(stats)
      ensures stats == old(stats)[id := st]
      ensures statsOrder == old(statsOrder) + [id]
      ensures questions == old(questions) && questionOrder == old(questionOrder)
      ensures sessions == old(sessions)
    {
      id := nextId;
      nextId := nextId + 1;
      AppendFresh(statsOrder, id);
      stats := stats[id := st];
      statsOrder := statsOrder + [id];
    }
  }
}
