/** The ranking step of the search endpoint in server.py: one scored result per
    index entry, then Python's stable `sorted(..., reverse=True)` on the score. */
module Ranking {
  import opened Index

  /** The dictionary the search endpoint returns for one entry. */
  datatype ScoredResult = ScoredResult(website: string, score: real, content: string, title: string)

  /** The result for one entry: its distance from the query plus its stored relevance. */
  function ResultFor(dist: (seq<real>, seq<real>) -> real, query: seq<real>, e: IndexEntry): ScoredResult {
    ScoredResult(e.url, dist(query, e.vector) + e.relevance, e.content, e.title)
  }

  /** The unsorted results, in index order. */
  function ScoreAll(dist: (seq<real>, seq<real>) -> real, query: seq<real>, entries: seq<IndexEntry>): seq<ScoredResult> {
    seq(|entries|, k requires 0 <= k < |entries| => ResultFor(dist, query, entries[k]))
  }

  predicate NonIncreasing(rs: seq<ScoredResult>) {
    forall i, j :: 0 <= i < j < |rs| ==> rs[i].score >= rs[j].score
  }

  /** The results carrying score `s`, in their order in `rs`. */
  function WithScore(rs: seq<ScoredResult>, s: real): seq<ScoredResult> {
    if rs == [] then []
    else (if rs[0].score == s then [rs[0]] else []) + WithScore(rs[1..], s)
  }

  /** Insert `x` into a list sorted highest first, ahead of every result whose
      score it equals or exceeds. */
  function InsertByScore(x: ScoredResult, ys: seq<ScoredResult>): (r: seq<ScoredResult>)
    ensures |r| == |ys| + 1
    ensures multiset(r) == multiset(ys) + multiset{x}
  {
    if ys == [] || ys[0].score <= x.score then [x] + ys
    else
      assert ys == [ys[0]] + ys[1..];
      [ys[0]] + InsertByScore(x, ys[1..])
  }

  lemma {:induction false} InsertKeepsNonIncreasing(x: ScoredResult, ys: seq<ScoredResult>)
    requires NonIncreasing(ys)
    ensures NonIncreasing(InsertByScore(x, ys))
  {
    if ys != [] && ys[0].score > x.score {
      var rest := InsertByScore(x, ys[1..]);
      InsertKeepsNonIncreasing(x, ys[1..]);
      forall k | 0 <= k < |rest|
        ensures rest[k].score <= ys[0].score
      {
        assert rest[k] in multiset(rest);
        if rest[k] != x {
          assert rest[k] in multiset(ys[1..]);
          var m :| 0 <= m < |ys[1..]| && ys[1..][m] == rest[k];
          assert ys[m + 1] == rest[k];
        }
      }
      assert InsertByScore(x, ys) == [ys[0]] + rest;
    }
  }

  /** `sorted(results, key=score, reverse=True)`, as an insertion sort. */
  function SortByScoreDesc(rs: seq<ScoredResult>): (r: seq<ScoredResult>)
    ensures |r| == |rs|
    ensures multiset(r) == multiset(rs)
    ensures NonIncreasing(r)
  {
    if rs == [] then []
    else
      assert rs == [rs[0]] + rs[1..];
      var sortedRest := SortByScoreDesc(rs[1..]);
      InsertKeepsNonIncreasing(rs[0], sortedRest);
      InsertByScore(rs[0], sortedRest)
  }

  /** Filtering a list with a result in front. */
  lemma WithScoreCons(x: ScoredResult, tail: seq<ScoredResult>, s: real)
    ensures WithScore([x] + tail, s) == (if x.score == s then [x] else []) + WithScore(tail, s)
  {
    assert ([x] + tail)[1..] == tail;
  }

  lemma {:induction false} WithScoreConcat(a: seq<ScoredResult>, b: seq<ScoredResult>, s: real)
    ensures WithScore(a + b, s) == WithScore(a, s) + WithScore(b, s)
  {
    if a == [] {
      assert a + b == b;
    } else {
      var x, rest := a[0], a[1..];
      assert a == [x] + rest;
      assert a + b == [x] + (rest + b);
      WithScoreCons(x, rest + b, s);
      WithScoreCons(x, rest, s);
      WithScoreConcat(rest, b, s);
    }
  }

  /** Inserting keeps the new result ahead of the results whose score it equals:
      it passes over only results of higher score. */
  lemma {:induction false} InsertKeepsOrderOfEqualScores(x: ScoredResult, ys: seq<ScoredResult>, s: real)
    ensures WithScore(InsertByScore(x, ys), s) == WithScore([x] + ys, s)
  {
    if ys != [] && ys[0].score > x.score {
      var y, tail := ys[0], ys[1..];
      var rest := InsertByScore(x, tail);
      assert InsertByScore(x, ys) == [y] + rest;
      assert ys == [y] + tail;
      InsertKeepsOrderOfEqualScores(x, tail, s);
      WithScoreCons(y, rest, s);
      WithScoreCons(x, tail, s);
      WithScoreCons(x, ys, s);
      WithScoreCons(y, tail, s);
      if x.score == s {
        assert y.score != s;
      } else if y.score == s {
        assert x.score != s;
      }
    } else {
      assert InsertByScore(x, ys) == [x] + ys;
    }
  }

  /** The sort is stable: the results of any one score keep their input order. */
  lemma {:induction false} SortIsStable(rs: seq<ScoredResult>, s: real)
    ensures WithScore(SortByScoreDesc(rs), s) == WithScore(rs, s)
  {
    if rs != [] {
      var x, tail := rs[0], rs[1..];
      var sortedTail := SortByScoreDesc(tail);
      assert SortByScoreDesc(rs) == InsertByScore(x, sortedTail);
      SortIsStable(tail, s);
      InsertKeepsOrderOfEqualScores(x, sortedTail, s);
      assert rs == [x] + tail;
      WithScoreCons(x, sortedTail, s);
      WithScoreCons(x, tail, s);
    }
  }

  /** What `sorted(results, key=score, reverse=True)` promises: a permutation
      of `results`, highest score first, keeping the input order among results of
      equal score. */
  ghost predicate StableSortOf(ranked: seq<ScoredResult>, results: seq<ScoredResult>) {
    |ranked| == |results| &&
    multiset(ranked) == multiset(results) &&
    NonIncreasing(ranked) &&
    forall s :: WithScore(ranked, s) == WithScore(results, s)
  }

  /** The insertion sort is a stable descending sort. */
  lemma SortByScoreDescIsStableSort(rs: seq<ScoredResult>)
    ensures StableSortOf(SortByScoreDesc(rs), rs)
  {
    forall s
      ensures WithScore(SortByScoreDesc(rs), s) == WithScore(rs, s)
    {
      SortIsStable(rs, s);
    }
  }

  /** When exactly one result has score `s`, it is all that `WithScore` keeps. */
  lemma {:induction false} WithScoreOfUnique(rs: seq<ScoredResult>, j: nat, s: real)
    requires j < |rs| && rs[j].score == s
    requires forall k :: 0 <= k < |rs| && k != j ==> rs[k].score != s
    ensures WithScore(rs, s) == [rs[j]]
  {
    if j == 0 {
      WithScoreNone(rs[1..], s);
    } else {
      WithScoreOfUnique(rs[1..], j - 1, s);
    }
  }

  lemma {:induction false} WithScoreNone(rs: seq<ScoredResult>, s: real)
    requires forall k :: 0 <= k < |rs| ==> rs[k].score != s
    ensures WithScore(rs, s) == []
  {
    if rs != [] {
      WithScoreNone(rs[1..], s);
    }
  }

  /** A last result with score `s` is also the last of the results with score `s`. */
  lemma WithScoreLast(rs: seq<ScoredResult>, s: real)
    requires rs != [] && rs[|rs| - 1].score == s
    ensures WithScore(rs, s) != [] && WithScore(rs, s)[|WithScore(rs, s)| - 1] == rs[|rs| - 1]
  {
    var n := |rs| - 1;
    assert rs == rs[..n] + [rs[n]];
    WithScoreConcat(rs[..n], [rs[n]], s);
  }

  /** A permutation keeps every lower bound on the scores. */
  lemma PermutationKeepsLowerBound(rs: seq<ScoredResult>, ranked: seq<ScoredResult>, bound: real)
    requires multiset(ranked) == multiset(rs)
    requires forall k :: 0 <= k < |rs| ==> rs[k].score >= bound
    ensures forall i :: 0 <= i < |ranked| ==> ranked[i].score >= bound
  {
    forall i | 0 <= i < |ranked|
      ensures ranked[i].score >= bound
    {
      assert ranked[i] in multiset(rs);
      var k :| 0 <= k < |rs| && rs[k] == ranked[i];
    }
  }

  /** In a list sorted highest first, the last result scores at most any member. */
  lemma LastIsLowest(ranked: seq<ScoredResult>, r: ScoredResult)
    requires NonIncreasing(ranked) && r in multiset(ranked)
    ensures ranked[|ranked| - 1].score <= r.score
  {
    var p :| 0 <= p < |ranked| && ranked[p] == r;
  }

  /** In any permutation sorted highest first, a result scoring no more than
      any other bounds every score from below and gives the last result its score. */
  lemma LowestIsLast(results: seq<ScoredResult>, ranked: seq<ScoredResult>, j: nat, low: real)
    requires |ranked| == |results| && multiset(ranked) == multiset(results) && NonIncreasing(ranked)
    requires j < |results| && results[j].score == low
    requires forall k :: 0 <= k < |results| ==> results[k].score >= low
    ensures forall i :: 0 <= i < |ranked| ==> ranked[i].score >= low
    ensures ranked[|ranked| - 1].score == low
  {
    PermutationKeepsLowerBound(results, ranked, low);
    assert results[j] in multiset(results);
    LastIsLowest(ranked, results[j]);
  }

  /** If moreover no other result has that score and the results of that score
      keep their order, the lowest result is the last. */
  lemma UniqueLowestIsLast(results: seq<ScoredResult>, ranked: seq<ScoredResult>, j: nat, low: real)
    requires ranked != [] && ranked[|ranked| - 1].score == low
    requires WithScore(ranked, low) == WithScore(results, low)
    requires j < |results| && results[j].score == low
    requires forall k :: 0 <= k < |results| && k != j ==> results[k].score != low
    ensures ranked[|ranked| - 1] == results[j]
  {
    WithScoreOfUnique(results, j, low);
    WithScoreLast(ranked, low);
  }

  /** With equal relevance everywhere, scores differ only by distance, so the
      entries closest to the query sort last under a stable descending sort:
      every result scores at least as much as a zero-distance entry, the last
      result has its score, and when it is the only zero-distance entry it is
      the last. */
  lemma ClosestEntrySortsLast(dist: (seq<real>, seq<real>) -> real, query: seq<real>,
                              entries: seq<IndexEntry>, ranked: seq<ScoredResult>, j: nat, rel: real)
    requires forall a, b :: dist(a, b) >= 0.0
    requires forall k :: 0 <= k < |entries| ==> entries[k].relevance == rel
    requires j < |entries| && dist(query, entries[j].vector) == 0.0
    requires StableSortOf(ranked, ScoreAll(dist, query, entries))
    ensures |ranked| == |entries|
    ensures forall i :: 0 <= i < |ranked| ==> ranked[i].score >= rel
    ensures ranked[|ranked| - 1].score == rel
    ensures (forall k :: 0 <= k < |entries| && k != j ==> dist(query, entries[k].vector) > 0.0)
      ==> ranked[|ranked| - 1] == ResultFor(dist, query, entries[j])
  {
    var results := ScoreAll(dist, query, entries);
    forall k | 0 <= k < |results|
      ensures results[k].score >= rel
    {
      assert results[k].score == dist(query, entries[k].vector) + rel;
    }
    LowestIsLast(results, ranked, j, rel);
    if forall k :: 0 <= k < |entries| && k != j ==> dist(query, entries[k].vector) > 0.0 {
      forall k | 0 <= k < |results| && k != j
        ensures results[k].score != rel
      {
        assert results[k].score == dist(query, entries[k].vector) + rel;
      }
      assert WithScore(ranked, rel) == WithScore(results, rel);
      UniqueLowestIsLast(results, ranked, j, rel);
    }
  }
}
