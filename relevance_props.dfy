/** Properties of the relevance score of relevance.py: how many terms it sums,
    how a short history is padded, how older weeks are folded into one term,
    and how the score moves when a week's count rises. */
module RelevanceProperties {
  import opened Store
  import opened Relevance

  /** The partial harmonic sum of the first `n` recency weights. */
  function Harmonic(n: nat): real {
    if n == 0 then 0.0 else Harmonic(n - 1) + Weight(n - 1)
  }

  lemma HarmonicEleven()
    ensures Harmonic(Weeks) == 83711.0 / 27720.0
  {
    assert Harmonic(1) == 1.0;
    assert Harmonic(2) == 3.0 / 2.0;
    assert Harmonic(3) == 11.0 / 6.0;
    assert Harmonic(4) == 25.0 / 12.0;
    assert Harmonic(5) == 137.0 / 60.0;
    assert Harmonic(6) == 49.0 / 20.0;
    assert Harmonic(7) == 363.0 / 140.0;
    assert Harmonic(8) == 761.0 / 280.0;
    assert Harmonic(9) == 7129.0 / 2520.0;
    assert Harmonic(10) == 7381.0 / 2520.0;
  }

  /** A history whose first `n` weeks all read `v` accumulates `Harmonic(n)` times `Term(v)`. */
  lemma {:induction false} WeeksSumOfConstant(exp: real -> PosReal, views: seq<nat>, n: nat, v: nat)
    requires forall w :: 0 <= w < n ==> ViewAt(views, w) == v
    ensures WeeksSum(exp, views, n) == Harmonic(n) * Term(exp, v)
  {
    if n > 0 {
      WeeksSumOfConstant(exp, views, n - 1, v);
    }
  }

  /** An empty history is padded with zero-view weeks: it scores eleven weighted
      `Term(0)` terms plus the older-weeks term of `Term(0)`, never 0. */
  lemma EmptyHistoryScore(exp: real -> PosReal)
    ensures Score(exp, []) == 86231.0 / 27720.0 * Term(exp, 0)
    ensures Score(exp, []) > 0.0
  {
    WeeksSumOfConstant(exp, [], Weeks, 0);
    HarmonicEleven();
  }

  /** Eleven weeks of 10000 views: eleven weighted `1 / (1 + exp(e))` terms, and the
      older-weeks term of a zero sum is still added. */
  lemma SteadyTrafficScore(exp: real -> PosReal)
    ensures Score(exp, seq(Weeks, _ => 10000))
         == 83711.0 / 27720.0 * (1.0 / (1.0 + exp(E))) + 1.0 / 11.0 * Term(exp, 0)
  {
    var views := seq(Weeks, _ => 10000);
    WeeksSumOfConstant(exp, views, Weeks, 10000);
    HarmonicEleven();
    assert Exponent(10000) == E;
  }

  lemma {:induction false} WeeksSumAgree(exp: real -> PosReal, a: seq<nat>, b: seq<nat>, n: nat)
    requires forall w :: 0 <= w < n ==> ViewAt(a, w) == ViewAt(b, w)
    ensures WeeksSum(exp, a, n) == WeeksSum(exp, b, n)
  {
    if n > 0 {
      WeeksSumAgree(exp, a, b, n - 1);
    }
  }

  /** Weeks at index 11 and beyond reach the score only through their sum. */
  lemma ScoreDependsOnOlderWeeksOnlyThroughSum(exp: real -> PosReal, a: seq<nat>, b: seq<nat>)
    requires forall w :: 0 <= w < Weeks ==> ViewAt(a, w) == ViewAt(b, w)
    requires OlderViews(a) == OlderViews(b)
    ensures Score(exp, a) == Score(exp, b)
  {
    WeeksSumAgree(exp, a, b, Weeks);
  }

  lemma {:induction false} SumConcat(a: seq<nat>, b: seq<nat>)
    ensures Sum(a + b) == Sum(a) + Sum(b)
  {
    if a == [] {
      assert a + b == b;
    } else {
      assert (a + b)[1..] == a[1..] + b;
      SumConcat(a[1..], b);
    }
  }

  lemma SumSplitAt(s: seq<nat>, i: nat)
    requires i < |s|
    ensures Sum(s) == Sum(s[..i]) + s[i] + Sum(s[i + 1..])
  {
    assert s == s[..i] + ([s[i]] + s[i + 1..]);
    SumConcat(s[..i], [s[i]] + s[i + 1..]);
    SumConcat([s[i]], s[i + 1..]);
  }

  /** Taking one copy of `x` out of a sequence takes `x` off its sum and one
      copy of `x` out of its multiset. */
  lemma SumWithout(pre: seq<nat>, x: nat, post: seq<nat>)
    ensures Sum(pre + ([x] + post)) == x + Sum(pre + post)
    ensures multiset(pre + post) == multiset(pre + ([x] + post)) - multiset{x}
  {
    SumConcat(pre, [x] + post);
    SumConcat(pre, post);
    assert ([x] + post)[1..] == post;
  }

  /** A value in a sequence's multiset occurs in it, between some prefix and suffix. */
  lemma Occurrence(t: seq<nat>, x: nat) returns (pre: seq<nat>, post: seq<nat>)
    requires x in multiset(t)
    ensures t == pre + ([x] + post)
  {
    var i :| 0 <= i < |t| && t[i] == x;
    pre, post := t[..i], t[i + 1..];
    assert t == pre + ([x] + post);
  }

  /** The sum of a sequence depends only on its multiset of elements. */
  lemma {:induction false} SumOfPermutation(s: seq<nat>, t: seq<nat>)
    requires multiset(s) == multiset(t)
    ensures Sum(s) == Sum(t)
    decreases |s|
  {
    if s == [] {
      assert |t| == |multiset(t)| == 0;
    } else {
      var x, rest := s[0], s[1..];
      assert s == [] + ([x] + rest);
      var pre, post := Occurrence(t, x);
      SumWithout(pre, x, post);
      SumWithout([], x, rest);
      assert [] + rest == rest;
      SumOfPermutation(rest, pre + post);
    }
  }

  /** Reordering the weeks older than the eleventh leaves the score unchanged. */
  lemma OlderWeeksPermutationInvariant(exp: real -> PosReal, a: seq<nat>, b: seq<nat>)
    requires |a| == |b| > Weeks
    requires a[..Weeks] == b[..Weeks]
    requires multiset(a[Weeks..]) == multiset(b[Weeks..])
    ensures Score(exp, a) == Score(exp, b)
  {
    forall w | 0 <= w < Weeks
      ensures ViewAt(a, w) == ViewAt(b, w)
    {
      assert a[w] == a[..Weeks][w];
      assert b[w] == b[..Weeks][w];
    }
    SumOfPermutation(a[Weeks..], b[Weeks..]);
    ScoreDependsOnOlderWeeksOnlyThroughSum(exp, a, b);
  }

  /** Appending a zero-view week to the oldest end changes nothing: a missing
      week already counts as zero, and a zero adds nothing to the older sum. */
  lemma AppendZeroWeek(exp: real -> PosReal, views: seq<nat>)
    ensures Score(exp, views + [0]) == Score(exp, views)
  {
    var longer := views + [0];
    forall w | 0 <= w < Weeks
      ensures ViewAt(longer, w) == ViewAt(views, w)
    {
    }
    if |views| >= Weeks {
      assert Older(longer) == Older(views) + [0];
      SumConcat(Older(views), [0]);
    }
    ScoreDependsOnOlderWeeksOnlyThroughSum(exp, longer, views);
  }

  lemma ReciprocalDecreasing(x: real, y: real)
    requires 0.0 < x < y
    ensures 1.0 / y < 1.0 / x
  {
  }

  /** With a strictly increasing exponential the exponent falls as views rise,
      so the logistic term rises. */
  lemma TermStrictlyIncreasing(exp: real -> PosReal, v: nat, v': nat)
    requires StrictlyIncreasing(exp)
    requires v < v'
    ensures Term(exp, v) < Term(exp, v')
  {
    assert (v as real) / ViewScale < (v' as real) / ViewScale;
    assert Exponent(v') < Exponent(v);
    assert exp(Exponent(v')) < exp(Exponent(v));
    ReciprocalDecreasing(1.0 + exp(Exponent(v')), 1.0 + exp(Exponent(v)));
  }

  lemma TermMonotone(exp: real -> PosReal, v: nat, v': nat)
    requires StrictlyIncreasing(exp)
    requires v <= v'
    ensures Term(exp, v) <= Term(exp, v')
  {
    if v < v' {
      TermStrictlyIncreasing(exp, v, v');
    }
  }

  lemma ScaleLess(c: real, x: real, y: real)
    requires c > 0.0 && x < y
    ensures c * x < c * y
  {
  }

  /** One weighted weekly term, as a function of that week's views. */
  lemma WeightedTermMonotone(exp: real -> PosReal, w: nat, v: nat, v': nat)
    requires StrictlyIncreasing(exp)
    requires v <= v'
    ensures Weight(w) * Term(exp, v) <= Weight(w) * Term(exp, v')
    ensures v < v' ==> Weight(w) * Term(exp, v) < Weight(w) * Term(exp, v')
  {
    if v < v' {
      TermStrictlyIncreasing(exp, v, v');
      ScaleLess(Weight(w), Term(exp, v), Term(exp, v'));
    }
  }

  /** One step of the weekly loop, with the two weeks' counts named. */
  lemma WeeksSumStep(exp: real -> PosReal, a: seq<nat>, b: seq<nat>, n: nat, x: nat, y: nat)
    requires n > 0 && x == ViewAt(a, n - 1) && y == ViewAt(b, n - 1)
    requires Weight(n - 1) * Term(exp, x) <= Weight(n - 1) * Term(exp, y)
    ensures WeeksSum(exp, a, n - 1) <= WeeksSum(exp, b, n - 1) ==> WeeksSum(exp, a, n) <= WeeksSum(exp, b, n)
    ensures WeeksSum(exp, a, n - 1) < WeeksSum(exp, b, n - 1) ==> WeeksSum(exp, a, n) < WeeksSum(exp, b, n)
    ensures WeeksSum(exp, a, n - 1) <= WeeksSum(exp, b, n - 1) && Weight(n - 1) * Term(exp, x) < Weight(n - 1) * Term(exp, y)
        ==> WeeksSum(exp, a, n) < WeeksSum(exp, b, n)
  {
  }

  lemma {:induction false} WeeksSumMonotone(exp: real -> PosReal, a: seq<nat>, b: seq<nat>, n: nat)
    requires StrictlyIncreasing(exp)
    requires forall w :: 0 <= w < n ==> ViewAt(a, w) <= ViewAt(b, w)
    ensures WeeksSum(exp, a, n) <= WeeksSum(exp, b, n)
  {
    if n > 0 {
      WeeksSumMonotone(exp, a, b, n - 1);
      var x, y := ViewAt(a, n - 1), ViewAt(b, n - 1);
      WeightedTermMonotone(exp, n - 1, x, y);
      WeeksSumStep(exp, a, b, n, x, y);
    }
  }

  /** Raising one of the first `n` weeks strictly raises the partial sum. */
  lemma {:induction false} WeeksSumStrict(exp: real -> PosReal, a: seq<nat>, b: seq<nat>, n: nat, i: nat)
    requires StrictlyIncreasing(exp)
    requires forall w :: 0 <= w < n ==> ViewAt(a, w) <= ViewAt(b, w)
    requires i < n && ViewAt(a, i) < ViewAt(b, i)
    ensures WeeksSum(exp, a, n) < WeeksSum(exp, b, n)
  {
    var x, y := ViewAt(a, n - 1), ViewAt(b, n - 1);
    WeightedTermMonotone(exp, n - 1, x, y);
    if i == n - 1 {
      WeeksSumMonotone(exp, a, b, n - 1);
    } else {
      WeeksSumStrict(exp, a, b, n - 1, i);
    }
    WeeksSumStep(exp, a, b, n, x, y);
  }

  /** Raising any single week's count strictly raises the score: within the
      eleven weighted weeks through its own term, beyond them through the older sum. */
  lemma ScoreStrictlyIncreasing(exp: real -> PosReal, views: seq<nat>, i: nat, v: nat)
    requires StrictlyIncreasing(exp)
    requires i < |views| && views[i] < v
    ensures Score(exp, views) < Score(exp, views[i := v])
  {
    var raised := views[i := v];
    if i < Weeks {
      WeeksSumStrict(exp, views, raised, Weeks, i);
      assert Older(raised) == Older(views);
    } else {
      WeeksSumAgree(exp, views, raised, Weeks);
      var j := i - Weeks;
      assert Older(raised) == Older(views)[j := v];
      SumSplitAt(Older(views), j);
      SumSplitAt(Older(raised), j);
      assert Older(raised)[..j] == Older(views)[..j];
      assert Older(raised)[j + 1..] == Older(views)[j + 1..];
      TermStrictlyIncreasing(exp, OlderViews(views), OlderViews(raised));
    }
  }

  /** Never lowering: raising a week's count to any value at least as large. */
  lemma ScoreMonotone(exp: real -> PosReal, views: seq<nat>, i: nat, v: nat)
    requires StrictlyIncreasing(exp)
    requires i < |views| && views[i] <= v
    ensures Score(exp, views) <= Score(exp, views[i := v])
  {
    if views[i] < v {
      ScoreStrictlyIncreasing(exp, views, i, v);
    } else {
      assert views[i := v] == views;
    }
  }

  lemma {:induction false} WeeksSumBounds(exp: real -> PosReal, views: seq<nat>, n: nat)
    requires n > 0
    ensures 0.0 < WeeksSum(exp, views, n) < Harmonic(n)
  {
    if n > 1 {
      WeeksSumBounds(exp, views, n - 1);
    }
    ScaleLess(Weight(n - 1), Term(exp, ViewAt(views, n - 1)), 1.0);
  }

  /** Every term lies strictly between 0 and 1, so the score lies strictly
      between 0 and the sum of the twelve weights. */
  lemma ScoreBounds(exp: real -> PosReal, views: seq<nat>)
    ensures 0.0 < Score(exp, views) < 86231.0 / 27720.0
  {
    WeeksSumBounds(exp, views, Weeks);
    HarmonicEleven();
  }

  /** The history is the reverse of store order, not a sort by (year, week):
      a store that yields the newer week first puts the older week at index 0. */
  lemma LastWeeksIgnoresWeekNumbers()
    ensures LastWeeks([ViewCounter("a", 2, 2024, 5), ViewCounter("a", 1, 2024, 7)], "a") == [7, 5]
  {
    var table := [ViewCounter("a", 2, 2024, 5), ViewCounter("a", 1, 2024, 7)];
    assert FindByUrl(table, "a") == table;
    assert ViewsOf(table) == [5, 7];
    assert Reverse([5, 7]) == [7, 5];
  }

  lemma FirstWithoutUrlSameUrls(a: seq<Document>, b: seq<Document>)
    requires |a| == |b|
    requires forall k :: 0 <= k < |a| ==> a[k].url == b[k].url
    ensures FirstWithoutUrl(a) == FirstWithoutUrl(b)
  {
  }

  /** The refresh pass rewrites only `relevance`, and only on the websites it reaches,
      each with the score of its own url's history. */
  lemma RescoreChangesOnlyRelevance(exp: real -> PosReal, table: seq<ViewCounter>, websites: seq<Document>)
    ensures |RescoredWebsites(exp, table, websites)| == |websites|
    ensures forall k :: 0 <= k < |websites| ==>
      RescoredWebsites(exp, table, websites)[k].(relevance := websites[k].relevance) == websites[k]
    ensures forall k :: 0 <= k < FirstWithoutUrl(websites) ==>
      RescoredWebsites(exp, table, websites)[k].relevance
        == Some(Score(exp, LastWeeks(table, websites[k].url.value)))
    ensures forall k :: FirstWithoutUrl(websites) <= k < |websites| ==>
      RescoredWebsites(exp, table, websites)[k] == websites[k]
  {
  }

  /** The refresh pass is an idempotent overwrite: running it twice over the
      same view table leaves the same Website collection as running it once. */
  lemma RescoreIdempotent(exp: real -> PosReal, table: seq<ViewCounter>, websites: seq<Document>)
    ensures RescoredWebsites(exp, table, RescoredWebsites(exp, table, websites))
         == RescoredWebsites(exp, table, websites)
  {
    var once := RescoredWebsites(exp, table, websites);
    FirstWithoutUrlSameUrls(websites, once);
  }
}
