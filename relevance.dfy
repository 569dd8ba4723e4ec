/** The relevance scorer and refresher of relevance.py: a time-decayed,
    logistic weighting of a url's weekly view counts, and the pass that
    writes that score onto every website document. */
module Relevance {
  import opened Store

  /** Strictly positive reals: the range of `math.exp`. */
  type PosReal = r: real | r > 0.0 witness 1.0

  /** What the model assumes of the exponential it is given. */
  ghost predicate StrictlyIncreasing(exp: real -> PosReal) {
    forall x: real, y: real :: x < y ==> exp(x) < exp(y)
  }

  /** Number of recent weeks weighted one by one (`range(11)`). */
  const Weeks: nat := 11

  /** `math.e`, as the double the source uses. */
  const E: real := 2.718281828459045

  /** The divisor applied to a view count inside the exponent. */
  const ViewScale: real := 10000.0

  /** The exponent `1 - v/10000 + e` of the logistic term. */
  function Exponent(v: nat): real {
    1.0 - (v as real) / ViewScale + E
  }

  /** `1 / (1 + exp(1 - v/10000 + e))`, the squashed view count. */
  function Term(exp: real -> PosReal, v: nat): (t: real)
    ensures 0.0 < t < 1.0
  {
    1.0 / (1.0 + exp(Exponent(v)))
  }

  /** The recency weight `1 / (w + 1)` of week index `w`. */
  function Weight(w: nat): (r: real)
    ensures 0.0 < r <= 1.0
  {
    1.0 / ((w + 1) as real)
  }

  /** `views[w] if w < len(views) else 0`: weeks past the history count as zero views. */
  function ViewAt(views: seq<nat>, w: nat): nat {
    if w < |views| then views[w] else 0
  }

  function Sum(s: seq<nat>): nat {
    if s == [] then 0 else s[0] + Sum(s[1..])
  }

  /** `views[11:]`: the weeks older than the eleven weighted ones. */
  function Older(views: seq<nat>): seq<nat> {
    if |views| <= Weeks then [] else views[Weeks..]
  }

  /** `sum(views[11:])`, the argument of the older-weeks term. */
  function OlderViews(views: seq<nat>): (r: nat)
    ensures |views| <= Weeks ==> r == 0
  {
    Sum(Older(views))
  }

  /** The accumulator after the first `n` iterations of the weekly loop. */
  function WeeksSum(exp: real -> PosReal, views: seq<nat>, n: nat): real {
    if n == 0 then 0.0
    else WeeksSum(exp, views, n - 1) + Weight(n - 1) * Term(exp, ViewAt(views, n - 1))
  }

  /** The relevance score of a history (index 0 is taken as the most recent week):
      eleven weighted weekly terms plus one eleventh of the term of all older weeks. */
  function Score(exp: real -> PosReal, views: seq<nat>): real {
    WeeksSum(exp, views, Weeks) + 1.0 / 11.0 * Term(exp, OlderViews(views))
  }

  /** calculate_relevance_score: accumulate the eleven weekly terms in a loop,
      then add the older-weeks term. */
  method CalculateRelevanceScore(exp: real -> PosReal, views: seq<nat>) returns (score: real)
    ensures score == Score(exp, views)
  {
    score := 0.0;
    for w := 0 to Weeks
      invariant score == WeeksSum(exp, views, w)
    {
      var wTerm := 1.0 / ((w + 1) as real);
      var viewsW := if w < |views| then views[w] else 0;
      var eTerm := 1.0 / (1.0 + exp(1.0 - (viewsW as real) / 10000.0 + E));
      score := score + wTerm * eTerm;
    }
    var olderViews := Sum(if |views| > Weeks then views[Weeks..] else []);
    var olderTerm := 1.0 / 11.0 * (1.0 / (1.0 + exp(1.0 - (olderViews as real) / 10000.0 + E)));
    score := score + olderTerm;
  }

  /** `db.Views.find({"url": url})`: the counters of one url, in store order. */
  function FindByUrl(table: seq<ViewCounter>, url: string): (found: seq<ViewCounter>)
    ensures |found| <= |table|
    ensures forall c :: c in found <==> c in table && c.url == url
  {
    if table == [] then []
    else (if table[0].url == url then [table[0]] else []) + FindByUrl(table[1..], url)
  }

  /** The query keeps the store order and the multiplicity of the counters:
      it distributes over concatenation, and a single counter is kept exactly
      when its url matches. */
  lemma {:induction false} FindByUrlConcat(a: seq<ViewCounter>, b: seq<ViewCounter>, url: string)
    ensures FindByUrl(a + b, url) == FindByUrl(a, url) + FindByUrl(b, url)
  {
    if a == [] {
      assert a + b == b;
    } else {
      assert (a + b)[1..] == a[1..] + b;
      FindByUrlConcat(a[1..], b, url);
    }
  }

  lemma FindByUrlSingle(c: ViewCounter, url: string)
    ensures FindByUrl([c], url) == if c.url == url then [c] else []
  {
    assert [c][1..] == [];
  }

  /** The `views` member of each counter, week and year dropped. */
  function ViewsOf(counters: seq<ViewCounter>): seq<nat> {
    seq(|counters|, i requires 0 <= i < |counters| => counters[i].views)
  }

  function Reverse<T>(s: seq<T>): (r: seq<T>)
    ensures |r| == |s|
  {
    if s == [] then [] else Reverse(s[1..]) + [s[0]]
  }

  lemma {:induction false} ReverseAt<T>(s: seq<T>, k: nat)
    requires k < |s|
    ensures Reverse(s)[k] == s[|s| - 1 - k]
  {
    if k < |s| - 1 {
      ReverseAt(s[1..], k);
    }
  }

  /** The history `get_last_weeks` yields: the fetched counts in reverse fetch order. */
  function LastWeeks(table: seq<ViewCounter>, url: string): seq<nat> {
    Reverse(ViewsOf(FindByUrl(table, url)))
  }

  /** get_last_weeks, with the reversed view materialised as a list
      (see AsWrittenRefreshRaises for the iterator the source returns). */
  method GetLastWeeks(table: seq<ViewCounter>, url: string) returns (views: seq<nat>)
    ensures |views| == |FindByUrl(table, url)|
    ensures forall i :: 0 <= i < |views| ==>
      views[i] == FindByUrl(table, url)[|views| - 1 - i].views
    ensures views == LastWeeks(table, url)
  {
    var viewsData := FindByUrl(table, url);
    var collected: seq<nat> := [];
    for i := 0 to |viewsData|
      invariant |collected| == i
      invariant forall k :: 0 <= k < i ==> collected[k] == viewsData[k].views
    {
      collected := collected + [viewsData[i].views];
    }
    assert collected == ViewsOf(viewsData);
    views := Reverse(collected);
    forall i | 0 <= i < |views|
      ensures views[i] == viewsData[|views| - 1 - i].views
    {
      ReverseAt(collected, i);
    }
  }

  /** The two kinds of value `calculate_relevance_score` can be handed: a list,
      or the reverse iterator that `reversed(views)` returns, which has no length. */
  datatype PyHistory = PyList(items: seq<nat>) | PyReverseIterator(over: seq<nat>)

  datatype PyError = TypeError

  datatype Result<+T, +E> = Success(value: T) | Failure(error: E)

  /** get_last_weeks as written: it returns `reversed(views)` itself. */
  function LastWeeksAsWritten(table: seq<ViewCounter>, url: string): PyHistory {
    PyReverseIterator(ViewsOf(FindByUrl(table, url)))
  }

  /** calculate_relevance_score as written, on either kind of value: its first
      step evaluates `len(views)`, which raises TypeError on an iterator. */
  function ScoreAsWritten(exp: real -> PosReal, h: PyHistory): Result<real, PyError> {
    match h
    case PyList(items) => Success(Score(exp, items))
    case PyReverseIterator(_) => Failure(TypeError)
  }

  /** Composed as updateRelevanceScores composes them, the two functions fail for
      every website: whatever its history, the score raises TypeError. */
  lemma AsWrittenRefreshRaises(exp: real -> PosReal, table: seq<ViewCounter>, url: string)
    ensures ScoreAsWritten(exp, LastWeeksAsWritten(table, url)) == Failure(TypeError)
    ensures ScoreAsWritten(exp, PyList(LastWeeks(table, url))) == Success(Score(exp, LastWeeks(table, url)))
  {
  }

  /** Index of the first website without a `url` member, or the length if none. */
  function FirstWithoutUrl(websites: seq<Document>): (n: nat)
    ensures n <= |websites|
    ensures forall k :: 0 <= k < n ==> websites[k].url.Some?
    ensures n < |websites| ==> websites[n].url.None?
  {
    if websites == [] || websites[0].url.None? then 0
    else 1 + FirstWithoutUrl(websites[1..])
  }

  /** One website with its relevance overwritten by the score of its own history. */
  function Rescore(exp: real -> PosReal, table: seq<ViewCounter>, d: Document): Document
    requires d.url.Some?
  {
    d.(relevance := Some(Score(exp, LastWeeks(table, d.url.value))))
  }

  /** The Website collection after updateRelevanceScores: every website up to the
      first one without a url is rescored; that one raises KeyError, ending the pass. */
  function RescoredWebsites(exp: real -> PosReal, table: seq<ViewCounter>, websites: seq<Document>): seq<Document> {
    var n := FirstWithoutUrl(websites);
    seq(|websites|, k requires 0 <= k < |websites| =>
      if k < n then Rescore(exp, table, websites[k]) else websites[k])
  }

  datatype PassOutcome = Completed | RaisedKeyError

  /** updateRelevanceScores: for each website in store order, fetch its history,
      score it and set its `relevance`. */
  method UpdateRelevanceScores(db: Database, exp: real -> PosReal) returns (outcome: PassOutcome)
    modifies db
    ensures db.views == old(db.views)
    ensures db.websites == RescoredWebsites(exp, old(db.views), old(db.websites))
    ensures outcome == if FirstWithoutUrl(old(db.websites)) == |old(db.websites)|
                       then Completed else RaisedKeyError
  {
    var websites := db.websites;
    var n := FirstWithoutUrl(websites);
    var i := 0;
    while i < |websites|
      invariant 0 <= i <= n
      invariant db.views == old(db.views)
      invariant |db.websites| == |websites|
      invariant forall k :: 0 <= k < |websites| ==>
        db.websites[k] == if k < i then Rescore(exp, db.views, websites[k]) else websites[k]
    {
      if websites[i].url.None? {
        // website["url"] raises KeyError, which nothing catches
        outcome := RaisedKeyError;
        return;
      }
      assert i < n;
      var url := websites[i].url.value;
      var data := GetLastWeeks(db.views, url);
      var relevanceScore := CalculateRelevanceScore(exp, data);
      db.websites := db.websites[i := db.websites[i].(relevance := Some(relevanceScore))];
      i := i + 1;
    }
    outcome := Completed;
  }
}
