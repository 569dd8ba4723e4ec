/** The two MongoDB collections the ranking engine reads and writes
    (`searchDatabase.Website` and `searchDatabase.Views`), as plain values.
    Queries against them are modelled as functions over the stored sequences. */
module Store {

  datatype Option<+T> = None | Some(value: T)

  /** A document of the `Website` collection. The collection has no schema,
      so every member may be absent; reading an absent one with `doc[key]`
      raises KeyError. The `_id` and `added` members are never read by the
      ranking engine except to address the document, and are left out. */
  datatype Document = Document(
    url: Option<string>,
    title: Option<string>,
    content: Option<string>,
    vector: Option<seq<real>>,
    relevance: Option<real>)

  /** A document of the `Views` collection: the views of one url under one
      (ISO week number, calendar year) key. The year is not the ISO year, so one
      key can cover two ISO weeks: ISO week 1 in early January, and the last
      days of December that already belong to ISO week 1 of the next year. */
  datatype ViewCounter = ViewCounter(url: string, week: nat, year: int, views: nat)

  /** The triple `add_view` queries by. */
  datatype CounterKey = CounterKey(url: string, week: nat, year: int)

  function KeyOf(c: ViewCounter): CounterKey {
    CounterKey(c.url, c.week, c.year)
  }

  /** At most one counter per (url, week, year). */
  predicate UniqueKeys(table: seq<ViewCounter>) {
    forall i, j :: 0 <= i < j < |table| ==> KeyOf(table[i]) != KeyOf(table[j])
  }

  /** The database handle: both collections, in their natural (insertion) order. */
  class Database {
    var websites: seq<Document>
    var views: seq<ViewCounter>

    /** One counter per key: the view endpoint keeps this, but does not need it. */
    predicate Valid()
      reads this
    {
      UniqueKeys(views)
    }
  }
}
