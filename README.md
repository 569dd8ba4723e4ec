# Search server ranking core, modelled in Dafny

The search server keeps a MongoDB database with two collections. `Website`
holds one document per site: an embedding `vector`, the `url`, `title` and
`content`, and a `relevance` score. `Views` holds view counters keyed by
(url, ISO week number, calendar year). Three pieces of Python work on them:

- `relevance.py` turns a url's weekly view counts into a relevance score.
  The score is eleven weekly logistic terms weighted `1/(w+1)`, plus one
  eleventh of the term of all older weeks. A pass writes this score onto
  every website.
- `index.py` keeps an in-memory `index_list`. Each refresh rebuilds it from
  the `Website` documents, five fields per entry.
- `server.py` has two endpoints. `/search` scores every index entry as
  distance-to-query plus relevance and returns the results sorted highest
  first. `/addView` increments or creates the counter of the current week.

The model has seven modules:

| file | module | contents |
|---|---|---|
| store.dfy | `Store` | documents, view counters, the database object |
| relevance.dfy | `Relevance` | the score, the history fetch, the rescoring pass |
| relevance_props.dfy | `RelevanceProperties` | closed forms, tail folding, monotonicity, bounds of the score |
| index.dfy | `Index` | `IndexUpdater` and one refresh cycle |
| ranking.dfy | `Ranking` | per-entry results and the stable descending sort |
| views.dfy | `ViewLedger` | the (url, week, year) counter upsert |
| server.dfy | `Server` | the `/search` and `/addView` handlers |

Numbers are Dafny `real`s. `math.exp` is a parameter `exp: real -> PosReal`
(positive everywhere). The monotonicity lemmas also assume it is strictly
increasing. The distance `cdist` computes is a parameter `dist`. The
ranking lemma about the closest entry assumes `dist` is non-negative, as a
Euclidean distance is. The database is a `Database` object whose two
collections are sequences in store order.

Three behaviours of the code that a reader might not expect, and that the
model keeps:

- An empty history does not score 0. Every score has eleven weekly terms
  (missing weeks count as 0 views) plus the older-weeks term, which is added
  even when there are 11 weeks or fewer (then its argument is 0).
- The history is not sorted by (year, week). `get_last_weeks` reverses the
  order in which the store returns the counters.
- An index entry whose vector has a different dimension from the query does
  not just drop out of the results. `cdist` raises, and the whole request
  fails with status 500.

## Model

| member | source | states |
|---|---|---|
| Relevance.Term | relevance.py:56 | the logistic term lies strictly between 0 and 1 |
| Relevance.Weight | relevance.py:50 | the recency weight `1/(w+1)` lies in (0, 1] |
| Relevance.OlderViews | relevance.py:62 | the older-weeks argument is 0 when the history has at most 11 weeks |
| Relevance.CalculateRelevanceScore | relevance.py:44-65 | the loop's result is `Score`: eleven weighted weekly terms over weeks 0..10, padded with zero views, plus the older-weeks term |
| Relevance.FindByUrl | relevance.py:11-13 | as a set: a counter is fetched exactly when it is in the table and has that url |
| Relevance.FindByUrlConcat | relevance.py:11-13 | the fetch keeps store order and multiplicity: the counters of a concatenated table are those of the first part followed by those of the second |
| Relevance.FindByUrlSingle | relevance.py:11-13 | a single counter is fetched, once, exactly when its url matches |
| Relevance.GetLastWeeks | relevance.py:9-19 | the history has one entry per fetched counter, its `views` value only, in reverse of fetch order |
| Relevance.AsWrittenRefreshRaises | relevance.py:19 | the reverse iterator returned as written makes the scorer's `len(views)` raise TypeError for every url; the materialised list scores as `Score` |
| Relevance.FirstWithoutUrl | relevance.py:28-29 | the position where the pass stops: every earlier website has a url, the website there has none |
| Relevance.UpdateRelevanceScores | relevance.py:22-33 | the views table is unchanged; every website before the first url-less one gets `relevance` = score of its own history; the rest are untouched; the outcome says whether a KeyError ended the pass |
| RelevanceProperties.WeeksSumOfConstant | relevance.py:48-59 | eleven-step loop over a constant history gives the harmonic weight sum times one term |
| RelevanceProperties.HarmonicEleven | relevance.py:48-50 | the eleven weights `1/(w+1)`, w = 0..10, add up to 83711/27720 |
| RelevanceProperties.EmptyHistoryScore | relevance.py:53 | an empty history scores 86231/27720 times `term(0)`, which is positive and not 0 |
| RelevanceProperties.SteadyTrafficScore | relevance.py:48-64 | eleven weeks of 10000 views give eleven terms `1/(1+exp(e))` with their weights plus the older term of 0 views |
| RelevanceProperties.WeeksSumAgree | relevance.py:53 | the weekly loop reads the history only through the padded week values |
| RelevanceProperties.ScoreDependsOnOlderWeeksOnlyThroughSum | relevance.py:62-63 | two histories with equal first eleven weeks and equal older-week sums score the same |
| RelevanceProperties.SumOfPermutation | relevance.py:62 | `sum` depends only on the multiset of the values |
| RelevanceProperties.OlderWeeksPermutationInvariant | relevance.py:62-63 | permuting `views[11:]` leaves the score unchanged |
| RelevanceProperties.AppendZeroWeek | relevance.py:53 | appending a zero-view week leaves the score unchanged |
| RelevanceProperties.TermStrictlyIncreasing | relevance.py:56 | with a strictly increasing `exp`, more views give a strictly larger term |
| RelevanceProperties.TermMonotone | relevance.py:63 | with a strictly increasing `exp`, the term never falls as views rise |
| RelevanceProperties.WeightedTermMonotone | relevance.py:59 | a weighted weekly term grows with its week's views |
| RelevanceProperties.WeeksSumMonotone | relevance.py:48-59 | raising weeks pointwise never lowers the weekly sum |
| RelevanceProperties.WeeksSumStrict | relevance.py:48-59 | raising one of the summed weeks strictly raises the weekly sum |
| RelevanceProperties.ScoreStrictlyIncreasing | relevance.py:53-64 | raising any single week's count strictly raises the score, whether the week is one of the first eleven or an older one |
| RelevanceProperties.ScoreMonotone | relevance.py:53-64 | raising any single week's count never lowers the score |
| RelevanceProperties.WeeksSumBounds | relevance.py:48-59 | the weekly sum is positive and below the sum of its weights |
| RelevanceProperties.ScoreBounds | relevance.py:44-65 | every score lies strictly between 0 and 86231/27720 |
| RelevanceProperties.LastWeeksIgnoresWeekNumbers | relevance.py:16-19 | counters fetched as (week 2: 5 views), (week 1: 7 views) yield the history [7, 5]: store order reversed, week numbers ignored |
| RelevanceProperties.FirstWithoutUrlSameUrls | relevance.py:29 | where the pass stops depends only on which websites carry a url |
| RelevanceProperties.RescoreChangesOnlyRelevance | relevance.py:28-33 | the pass keeps the number of websites and every field but `relevance`; it sets `relevance` exactly on the websites it reaches |
| RelevanceProperties.RescoreIdempotent | relevance.py:33 | running the pass twice over the same views gives the same websites as running it once |
| Index.FirstIncomplete | index.py:52-60 | the first document lacking one of the five members: all earlier ones have them, and it is the length exactly when every document has them |
| Index.IndexUpdater.constructor | index.py:18-27 | a new updater has an empty `index_list` and keeps its database address |
| Index.IndexUpdater.Refresh | index.py:45-67 | a failed fetch leaves `index_list` as it was; a successful fetch replaces it wholesale with the projections of the documents before the first incomplete one |
| Index.ProjectionsOfCompleteDocuments | index.py:51-61 | when every document is complete, the list has one entry per document, in fetch order, each copied from its document |
| Index.ProjectionsStopAtMissingMember | index.py:52-63 | a document lacking a member leaves a strict prefix: the entries of the complete documents before the first incomplete one |
| Index.ProjectRoundTrip | index.py:54-60 | an entry holds exactly the five members of its document: projecting and rebuilding a document are inverse |
| Index.ProjectionsOfPublishedEntries | index.py:51-61 | re-indexing the documents that hold a list's entries reproduces that list |
| Ranking.InsertByScore | server.py:55 | inserting a result into a sorted list adds exactly that result |
| Ranking.InsertKeepsNonIncreasing | server.py:55 | inserting into a list sorted highest first keeps it sorted |
| Ranking.SortByScoreDesc | server.py:55 | the sorted results are a permutation of the input and never increase in score |
| Ranking.WithScoreConcat | server.py:55 | filtering one score commutes with concatenation |
| Ranking.InsertKeepsOrderOfEqualScores | server.py:55 | an inserted result lands before the results of equal score, as it came before them in the input |
| Ranking.SortIsStable | server.py:55 | the results of any one score keep their input order after sorting |
| Ranking.WithScoreOfUnique | server.py:55 | a result whose score no other result has is the only one of that score |
| Ranking.WithScoreLast | server.py:55 | the last result is also the last among the results of its score |
| Ranking.SortByScoreDescIsStableSort | server.py:55 | the insertion sort is a stable descending sort: a permutation, highest score first, equal scores in input order |
| Ranking.PermutationKeepsLowerBound | server.py:55 | a lower bound on all scores holds after sorting |
| Ranking.LastIsLowest | server.py:55 | in a list sorted highest first, the last result scores at most any member |
| Ranking.LowestIsLast | server.py:55 | after a descending sort, a result scoring no more than any other bounds every score from below and the last result has its score |
| Ranking.UniqueLowestIsLast | server.py:55 | when no other result has the lowest score and equal scores keep their order, the lowest result is the last |
| Ranking.ClosestEntrySortsLast | server.py:44-55 | with equal relevance and non-negative distance, after any stable descending sort every result scores at least that relevance and the last result has a zero-distance entry's score; a unique zero-distance entry is the last result |
| ViewLedger.FindCounter | server.py:80-81 | the lookup finds the first counter with the (url, week, year) key, or reports that none has it |
| ViewLedger.FindCounterSameKeys | server.py:81 | the lookup depends only on the counters' keys, not their view counts |
| ViewLedger.FindCounterAppend | server.py:95 | an inserted counter is found only by a lookup that found nothing before |
| ViewLedger.UpsertIncrementsOnlyItsKey | server.py:83-95 | one event adds one to its own key's count (0 to 1 for a new key) and changes no other key's count |
| ViewLedger.UpsertSize | server.py:83-95 | an event adds a counter exactly when its key had none, and afterwards its key has a counter |
| ViewLedger.UpsertKeepsKeysUnique | server.py:80-95 | the table keeps at most one counter per (url, week, year) |
| ViewLedger.TwoViewsSameWeek | server.py:80-95 | two events for one key leave one new counter reading 2 |
| ViewLedger.ViewsInTwoWeeks | server.py:80-95 | events for two different keys leave two new counters each reading 1 |
| Server.Search | server.py:23-57 | 400 "No JSON data provided" exactly for a missing or empty body; 400 "No vector provided" exactly for a missing, empty or all-zero vector; 500 exactly when some entry's vector has another dimension; otherwise the per-entry results (score = distance + relevance, with the entry's url, content and title), one per entry, put through the stable descending sort |
| Server.AddView | server.py:59-97 | 400 for a missing or empty body and 500 for a body without `site`, both with the table unchanged; otherwise status 200 and, on any table, the counter table after the upsert of (site, week, year), which acts on the first counter with that key; a table with one counter per key keeps that property; websites untouched |

## Left out

- MongoDB connections, queries, reconnects and the hourly `time.sleep` loops (index.py:40-70, relevance.py:36-42). The collections are passed in as sequences. `IndexUpdater.Refresh` models one loop iteration. A failed `find()` is a `FetchFailed` value.
- Flask routing, JSON parsing and the thread start-up in server.py:10-21 and server.py:99-109. Request bodies are a `JsonObject` with the `Vector` and `site` members and a count of other members.
- `periodic_task` takes no parameters, but server.py:101 starts its thread with one argument. The thread start-up is not modelled.
- Request bodies that are JSON but not an object, and vectors that are not flat lists of numbers, are not modelled.
- The `threading.Lock` around the index rebuild, and the unlocked read of `index_list` in `search`, are concurrency and are not modelled. The non-atomic find-then-update in `add_view` is too: lost updates need concurrent requests.
- Floating point. Scores are exact reals. `math.exp` and the `cdist` distance are parameters. `math.e` is the constant `E` with the double's decimal digits.
- The ISO week number and the calendar year from `datetime.now()` (server.py:76-77) are parameters of `Server.AddView`. The year is the calendar year, not the ISO year, as in the source.
- JSON null and members of another type. In request bodies and in Website documents an `Option` member is `None` only when the member is absent. A member that is present with null or with another type is not modelled. In server.py `{"site": null}` is counted under url None with status 200, `{"Vector": null}` gets "No vector provided", and a document with `"relevance": null` is indexed, after which every search fails at server.py:49.
- The `_id` key of `update_one` in relevance.py:33: documents are identified by their position in the collection.
- datatest.py, which seeds test data, is not part of this model.
- Relevance.UpdateRelevanceScores: models the pass with the history materialised as a list (see Findings). As written, each iteration raises TypeError before any write.
- Relevance.CalculateRelevanceScore: takes the history as a list of counts. It does not model the iterator that `get_last_weeks` returns as written (see `Relevance.ScoreAsWritten`).
- Ranking.ClosestEntrySortsLast: takes the non-negativity of the distance as a hypothesis; the model does not prove it of `cdist`, whose distance is a parameter.

## Findings

| source | as written | input that shows it | evidently intended | confidence | as-written member | corrected member |
|---|---|---|---|---|---|---|
| relevance.py:19 | `get_last_weeks` returns `reversed(views)`, a reverse iterator; `calculate_relevance_score` then evaluates `len(views)` at relevance.py:53, which raises TypeError | any website, for example one with no counters at all: `len(reversed([]))` raises | return the reversed list, so each website is scored from its history | not executed | Relevance.AsWrittenRefreshRaises | Relevance.GetLastWeeks |
