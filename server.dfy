/** The two HTTP endpoints of server.py: `/search`, which ranks the in-memory
    index against a query vector, and `/addView`, which counts one view of a
    site in the current (ISO week number, calendar year). */
module Server {
  import opened Store
  import opened Index
  import opened Ranking
  import opened ViewLedger

  /** A JSON object request body, as far as the endpoints look at it: its
      `Vector` and `site` members, and how many other members it has (which
      matters only to whether the object is empty). */
  datatype JsonObject = JsonObject(vector: Option<seq<real>>, site: Option<string>, otherMembers: nat)

  /** `not data` is false: a body was parsed and it is not the empty object. */
  predicate Provided(body: Option<JsonObject>) {
    body.Some? && (body.value.vector.Some? || body.value.site.Some? || body.value.otherMembers > 0)
  }

  /** `query_vector.any()`: some component is nonzero. */
  predicate AnyNonzero(v: seq<real>) {
    exists i :: 0 <= i < |v| && v[i] != 0.0
  }

  /** The query a search runs with: the `Vector` member of a provided body,
      when it has a nonzero component. A missing member becomes `np.array(None)`,
      whose `any()` is falsy, so it is rejected like the all-zero vector. */
  function QueryOf(body: Option<JsonObject>): Option<seq<real>> {
    if Provided(body) && body.value.vector.Some? && AnyNonzero(body.value.vector.value)
    then Some(body.value.vector.value)
    else None
  }

  /** Whether `cdist` accepts the pair: both rows have the same number of columns. */
  predicate SameDimension(q: seq<real>, e: IndexEntry) {
    |e.vector| == |q|
  }

  /** An endpoint's reply: a JSON body with status 200, or an error status with
      the message the client sees. */
  datatype Reply<+T> = Ok(body: T) | Error(status: nat, message: string)

  const NoJsonData: string := "No JSON data provided"
  const NoVector: string := "No vector provided"
  /** Flask's reply to an exception the view function does not catch. */
  const InternalError: string := "Internal Server Error"

  /** `search`: reject a missing or empty body and a missing or all-zero vector
      with 400; score every index entry in index order (an entry whose vector
      has another dimension makes `cdist` raise, which Flask turns into a 500);
      return the results sorted highest score first, stably. `dist` is the
      distance `cdist` computes. */
  method Search(dist: (seq<real>, seq<real>) -> real, body: Option<JsonObject>, indexList: seq<IndexEntry>)
    returns (reply: Reply<seq<ScoredResult>>)
    ensures reply == Error(400, NoJsonData) <==> !Provided(body)
    ensures reply == Error(400, NoVector) <==> Provided(body) && QueryOf(body).None?
    ensures reply == Error(500, InternalError) <==>
      QueryOf(body).Some? && exists k :: 0 <= k < |indexList| && !SameDimension(QueryOf(body).value, indexList[k])
    ensures reply.Ok? <==>
      QueryOf(body).Some? && forall k :: 0 <= k < |indexList| ==> SameDimension(QueryOf(body).value, indexList[k])
    ensures reply.Ok? ==>
      reply.body == SortByScoreDesc(ScoreAll(dist, QueryOf(body).value, indexList)) &&
      StableSortOf(reply.body, ScoreAll(dist, QueryOf(body).value, indexList))
  {
    if !Provided(body) {
      return Error(400, NoJsonData);
    }
    var vector := body.value.vector;
    if vector.None? || !AnyNonzero(vector.value) {
      return Error(400, NoVector);
    }
    var query := vector.value;
    var results: seq<ScoredResult> := [];
    for k := 0 to |indexList|
      invariant |results| == k
      invariant forall m :: 0 <= m < k ==> SameDimension(query, indexList[m])
      invariant forall m :: 0 <= m < k ==> results[m] == ResultFor(dist, query, indexList[m])
    {
      var document := indexList[k];
      if |document.vector| != |query| {
        // cdist raises ValueError; nothing in the view catches it
        return Error(500, InternalError);
      }
      var similarity := dist(query, document.vector);
      results := results + [ScoredResult(document.url, similarity + document.relevance,
                                         document.content, document.title)];
    }
    var unsorted := results;
    assert unsorted == ScoreAll(dist, query, indexList);
    var ranked := SortByScoreDesc(unsorted);
    SortByScoreDescIsStableSort(unsorted);
    reply := Ok(ranked);
  }

  /** `add_view`: reject a missing or empty body with 400; a body without `site`
      raises KeyError (a 500); otherwise count one view for (site, week, year) in
      the `Views` collection. The ISO week number and the calendar year of the
      current date are parameters. The table may already hold several counters
      with one key; `find_one` and `update_one` then act on the first. */
  method AddView(db: Database, body: Option<JsonObject>, currentWeek: nat, currentYear: int)
    returns (reply: Reply<()>)
    modifies db
    ensures old(db.Valid()) ==> db.Valid()
    ensures db.websites == old(db.websites)
    ensures !Provided(body) ==> reply == Error(400, NoJsonData) && db.views == old(db.views)
    ensures Provided(body) && body.value.site.None? ==>
      reply == Error(500, InternalError) && db.views == old(db.views)
    ensures Provided(body) && body.value.site.Some? ==>
      reply == Ok(()) &&
      db.views == Upsert(old(db.views), CounterKey(body.value.site.value, currentWeek, currentYear))
  {
    if !Provided(body) {
      return Error(400, NoJsonData);
    }
    if body.value.site.None? {
      // data["site"] raises KeyError
      return Error(500, InternalError);
    }
    var url := body.value.site.value;
    var query := CounterKey(url, currentWeek, currentYear);
    if db.Valid() {
      UpsertKeepsKeysUnique(db.views, query);
    }
    var found := FindCounter(db.views, query);
    if found.Some? {
      var viewDocument := db.views[found.value];
      var newViews := viewDocument.views + 1;
      db.views := db.views[found.value := viewDocument.(views := newViews)];
    } else {
      db.views := db.views + [ViewCounter(url, currentWeek, currentYear, 1)];
    }
    reply := Ok(());
  }
}
