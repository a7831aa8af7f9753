/** Sequence operations the queries are built from: filtering, shuffling,
    JavaScript's `slice(0, end)`, and de-duplication in first-occurrence
    order (what spreading a `Set` gives). */
module Sequences {

  import opened Schema

  function Min(a: int, b: int): int { if a <= b then a else b }

  function Max(a: int, b: int): int { if a >= b then a else b }

  /** No element occurs twice. */
  ghost predicate Distinct<T>(s: seq<T>) {
    forall i, j :: 0 <= i < j < |s| ==> s[i] != s[j]
  }

  /** Taking one more element of a sequence appends that element. */
  lemma TakeSnoc<T>(s: seq<T>, i: nat)
    requires i < |s|
    ensures s[..i + 1] == s[..i] + [s[i]]
  {
  }

  // ---------------------------------------------------------------------
  // Filtering

  function Filter<T>(s: seq<T>, p: T -> bool): (r: seq<T>)
    ensures |r| <= |s|
    ensures forall x :: x in r ==> x in s && p(x)
    ensures forall x :: x in s && p(x) ==> x in r
  {
    if |s| == 0 then []
    else (if p(s[0]) then [s[0]] else []) + Filter(s[1..], p)
  }

  lemma FilterCons<T>(s: seq<T>, p: T -> bool)
    requires |s| > 0
    ensures Filter(s, p) == (if p(s[0]) then [s[0]] else []) + Filter(s[1..], p)
  {
  }

  lemma {:induction false} FilterDistinct<T>(s: seq<T>, p: T -> bool)
    requires Distinct(s)
    ensures Distinct(Filter(s, p))
  {
    if |s| > 0 {
      FilterDistinct(s[1..], p);
      var rest := Filter(s[1..], p);
      assert s[0] !in s[1..];
      assert s[0] !in rest;
    }
  }

  // ---------------------------------------------------------------------
  // Counting distinct elements

  lemma AppendFresh<T>(s: seq<T>, x: T)
    requires Distinct(s) && x !in s
    ensures Distinct(s + [x])
  {
  }

  /** A sequence without repeats is as long as the set of its elements. */
  lemma {:induction false} DistinctCardinality<T>(s: seq<T>, elems: set<T>)
    requires Distinct(s)
    requires forall x :: x in elems ==> x in s
    requires forall x :: x in s ==> x in elems
    ensures |elems| == |s|
  {
    if |s| == 0 {
      assert elems == {};
    } else {
      var rest := elems - {s[0]};
      assert s[0] !in s[1..];
      forall x | x in s[1..]
        ensures x in rest
      {
        assert x != s[0];
      }
      DistinctCardinality(s[1..], rest);
    }
  }

  lemma {:induction false} DistinctMultiplicity<T>(s: seq<T>, x: T)
    requires Distinct(s)
    ensures multiset(s)[x] <= 1
  {
    if |s| > 0 {
      assert s == [s[0]] + s[1..];
      assert multiset(s) == multiset{s[0]} + multiset(s[1..]);
      DistinctMultiplicity(s[1..], x);
      if x == s[0] {
        assert x !in s[1..];
        assert multiset(s[1..])[x] == 0;
      }
    }
  }

  lemma RepeatMultiplicity<T>(s: seq<T>, i: nat, j: nat)
    requires i < j < |s| && s[i] == s[j]
    ensures multiset(s)[s[i]] >= 2
  {
    assert s == s[..j] + s[j..];
    assert s[i] in s[..j];
    assert s[j] == s[j..][0];
    assert multiset(s) == multiset(s[..j]) + multiset(s[j..]);
  }

  /** A rearrangement of a sequence without repeats has no repeats. */
  lemma PermutationDistinct<T>(a: seq<T>, b: seq<T>)
    requires multiset(a) == multiset(b) && Distinct(a)
    ensures Distinct(b)
  {
    forall i, j | 0 <= i < j < |b|
      ensures b[i] != b[j]
    {
      if b[i] == b[j] {
        RepeatMultiplicity(b, i, j);
        DistinctMultiplicity(a, b[i]);
      }
    }
  }

  // ---------------------------------------------------------------------
  // Shuffling

  /** A random shuffle, driven by an explicit source of draws: each draw picks
      which of the remaining elements comes next (draw 0 when the source is
      exhausted). Every outcome is a permutation of `s`, and every permutation
      is an outcome (ShuffleCanYield), so nothing about order is assumed. */
  function Shuffle<T>(s: seq<T>, draws: seq<nat>): (r: seq<T>)
    ensures multiset(r) == multiset(s)
    decreases |s|
  {
    if |s| == 0 then []
    else
      var k := if |draws| == 0 then 0 else Pick(draws[0], |s|);
      var rest := s[..k] + s[k + 1..];
      assert s == s[..k] + [s[k]] + s[k + 1..];
      [s[k]] + Shuffle(rest, if |draws| == 0 then [] else draws[1..])
  }

  /** The element a draw selects among n remaining ones. */
  function Pick(draw: nat, n: nat): (k: nat)
    requires n > 0
    ensures k < n
  {
    draw % n
  }

  lemma PickSmall(k: nat, n: nat)
    requires k < n
    ensures Pick(k, n) == k
  {
  }

  lemma {:induction false} ShuffleCanYield<T>(s: seq<T>, p: seq<T>) returns (draws: seq<nat>)
    requires multiset(p) == multiset(s)
    ensures Shuffle(s, draws) == p
    decreases |s|
  {
    if |s| == 0 {
      assert |p| == |multiset(p)| == 0;
      draws := [];
    } else {
      assert |p| == |multiset(p)| == |s|;
      assert p[0] in s by {
        assert p[0] in multiset(p);
      }
      var k :| 0 <= k < |s| && s[k] == p[0];
      var rest := s[..k] + s[k + 1..];
      RemoveMatching(s, k, p);
      var tail := ShuffleCanYield(rest, p[1..]);
      draws := [k] + tail;
      ShuffleStep(s, k, tail);
      assert p == [p[0]] + p[1..];
    }
  }

  /** A draw below the length picks exactly that element. */
  lemma ShuffleStep<T>(s: seq<T>, k: nat, tail: seq<nat>)
    requires k < |s|
    ensures Shuffle(s, [k] + tail) == [s[k]] + Shuffle(s[..k] + s[k + 1..], tail)
  {
    var draws := [k] + tail;
    PickSmall(k, |s|);
    assert draws[1..] == tail;
  }

  /** Taking out matching first elements keeps two permutations permutations. */
  lemma RemoveMatching<T>(s: seq<T>, k: nat, p: seq<T>)
    requires multiset(p) == multiset(s) && k < |s| && |p| > 0 && s[k] == p[0]
    ensures multiset(p[1..]) == multiset(s[..k] + s[k + 1..])
  {
    assert s == s[..k] + [s[k]] + s[k + 1..];
    assert p == [p[0]] + p[1..];
    var rest := multiset(s[..k] + s[k + 1..]);
    assert multiset(s) == rest + multiset{s[k]};
    assert multiset(p) == multiset(p[1..]) + multiset{s[k]};
    assert rest == multiset(s) - multiset{s[k]};
  }

  // ---------------------------------------------------------------------
  // `slice(0, end)` and `limit || 10`

  const DefaultLimit := 10

  /** The end index `slice(0, end)` uses on a sequence of length n: a negative
      end counts back from the end, and the result is clamped to 0..n. */
  function SliceEnd(n: nat, end: int): (k: nat)
    ensures k <= n
    ensures end >= 0 ==> k == Min(end, n)
    ensures end < 0 ==> k == Max(n + end, 0)
  {
    if end < 0 then (if n + end < 0 then 0 else n + end)
    else if end < n then end
    else n
  }

  /** `s.slice(0, end)`. */
  function Prefix<T>(s: seq<T>, end: int): (r: seq<T>)
    ensures |r| <= |s| && r == s[..|r|]
  {
    s[..SliceEnd(|s|, end)]
  }

  /** `limit || 10`: an absent or zero limit falls back to the default. */
  function Cap(limit: Option<int>): (c: int)
    ensures c != 0
    ensures limit.Some? && limit.value != 0 ==> c == limit.value
  {
    if limit.None? || limit.value == 0 then DefaultLimit else limit.value
  }

  /** Filter, then shuffle, then keep a prefix: the sampling policy shared by
      starting a quiz and listing questions of a category. */
  function Sample<T>(s: seq<T>, p: T -> bool, draws: seq<nat>, end: int): (r: seq<T>)
    ensures forall x :: x in r ==> x in s && p(x)
  {
    var r := Prefix(Shuffle(Filter(s, p), draws), end);
    assert forall x :: x in r ==> x in multiset(Filter(s, p));
    r
  }

  lemma SampleSpec<T>(s: seq<T>, p: T -> bool, draws: seq<nat>, end: int)
    requires Distinct(s)
    ensures Distinct(Sample(s, p, draws, end))
    ensures |Sample(s, p, draws, end)| == SliceEnd(|Filter(s, p)|, end)
    ensures |Filter(s, p)| <= end ==>
              forall x :: x in s && p(x) ==> x in Sample(s, p, draws, end)
  {
    var f := Filter(s, p);
    var sh := Shuffle(f, draws);
    FilterDistinct(s, p);
    PermutationDistinct(f, sh);
    assert |sh| == |multiset(sh)| == |f|;
    if |f| <= end {
      assert Sample(s, p, draws, end) == sh;
      forall x | x in s && p(x)
        ensures x in Sample(s, p, draws, end)
      {
        assert x in multiset(f);
      }
    }
  }

  // ---------------------------------------------------------------------
  // De-duplication in first-occurrence order

  /** The position of the first occurrence of x in s. */
  function FirstIndex<T(==)>(s: seq<T>, x: T): (i: nat)
    requires x in s
    ensures i < |s| && s[i] == x && x !in s[..i]
  {
    var n := |s| - 1;
    if x in s[..n] then
      assert s[..n][..FirstIndex(s[..n], x)] == s[..FirstIndex(s[..n], x)];
      FirstIndex(s[..n], x)
    else
      assert s == s[..n] + [s[n]];
      n
  }

  /** `[...new Set(s)]`: each element once, in order of first occurrence. */
  function Dedup<T(==)>(s: seq<T>): (r: seq<T>)
    ensures forall x :: x in r ==> x in s
    ensures forall x :: x in s ==> x in r
  {
    if |s| == 0 then []
    else
      var d := Dedup(s[..|s| - 1]);
      var x := s[|s| - 1];
      assert s == s[..|s| - 1] + [x];
      if x in d then d else d + [x]
  }

  /** One more element is kept only if it is new. */
  lemma DedupSnoc<T>(s: seq<T>, x: T)
    ensures Dedup(s + [x]) == if x in Dedup(s) then Dedup(s) else Dedup(s) + [x]
  {
    assert (s + [x])[..|s|] == s;
  }

  /** Appending only elements already present changes nothing. */
  lemma {:induction false} DedupAbsorbs<T>(s: seq<T>, t: seq<T>)
    requires forall x :: x in t ==> x in s
    ensures Dedup(s + t) == Dedup(s)
  {
    if |t| == 0 {
      assert s + t == s;
    } else {
      var t', x := t[..|t| - 1], t[|t| - 1];
      DedupAbsorbs(s, t');
      assert s + t == (s + t') + [x];
      DedupSnoc(s + t', x);
      assert x in s + t';
      assert x in Dedup(s + t');
    }
  }

  lemma {:induction false} DedupDistinct<T>(s: seq<T>)
    ensures Distinct(Dedup(s))
  {
    if |s| > 0 {
      DedupDistinct(s[..|s| - 1]);
    }
  }

  /** Elements of Dedup(s) appear in the order of their first occurrence in s. */
  lemma {:induction false} DedupOrder<T>(s: seq<T>)
    ensures forall i, j :: 0 <= i < j < |Dedup(s)| ==>
              FirstIndex(s, Dedup(s)[i]) < FirstIndex(s, Dedup(s)[j])
  {
    if |s| > 0 {
      var t := s[..|s| - 1];
      var x := s[|s| - 1];
      var d := Dedup(t);
      DedupOrder(t);
      assert s == t + [x];
      forall y | y in t
        ensures FirstIndex(s, y) == FirstIndex(t, y) < |t|
      {
        FirstIndexPrefix(t, x, y);
      }
      if x !in d {
        assert x !in t;
        assert FirstIndex(s, x) == |t|;
      }
    }
  }

  lemma FirstIndexPrefix<T>(t: seq<T>, x: T, y: T)
    requires y in t
    ensures FirstIndex(t + [x], y) == FirstIndex(t, y)
  {
    var s := t + [x];
    assert s[..|s| - 1] == t;
  }
}
