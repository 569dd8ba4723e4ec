/** The `Views` collection as the view-event endpoint of server.py updates it:
    the first counter with the (url, ISO week number, calendar year) key is
    incremented, or a new one created, per event. */
module ViewLedger {
  import opened Store

  /** `db.Views.find_one(query)`: the position of the first counter with the key. */
  function FindCounter(table: seq<ViewCounter>, key: CounterKey): (r: Option<nat>)
    ensures r.Some? ==> r.value < |table| && KeyOf(table[r.value]) == key
    ensures r.Some? ==> forall j :: 0 <= j < r.value ==> KeyOf(table[j]) != key
    ensures r.None? ==> forall j :: 0 <= j < |table| ==> KeyOf(table[j]) != key
  {
    if table == [] then None
    else if KeyOf(table[0]) == key then Some(0)
    else
      match FindCounter(table[1..], key)
      case None => None
      case Some(i) => Some(i + 1)
  }

  /** The views recorded for a key: its counter's `views`, or 0 when it has none. */
  function ViewsFor(table: seq<ViewCounter>, key: CounterKey): nat {
    match FindCounter(table, key)
    case None => 0
    case Some(i) => table[i].views
  }

  /** The table after one view event for `key`: the found counter's `views` set
      to one more, or a new counter with `views = 1` appended. */
  function Upsert(table: seq<ViewCounter>, key: CounterKey): seq<ViewCounter> {
    match FindCounter(table, key)
    case Some(i) => table[i := table[i].(views := table[i].views + 1)]
    case None => table + [ViewCounter(key.url, key.week, key.year, 1)]
  }

  /** The lookup reads only the keys of the counters. */
  lemma {:induction false} FindCounterSameKeys(a: seq<ViewCounter>, b: seq<ViewCounter>, key: CounterKey)
    requires |a| == |b|
    requires forall j :: 0 <= j < |a| ==> KeyOf(a[j]) == KeyOf(b[j])
    ensures FindCounter(a, key) == FindCounter(b, key)
  {
    if a != [] && KeyOf(a[0]) != key {
      FindCounterSameKeys(a[1..], b[1..], key);
    }
  }

  /** Appending a counter only matters to a lookup that found nothing before. */
  lemma {:induction false} FindCounterAppend(table: seq<ViewCounter>, c: ViewCounter, key: CounterKey)
    ensures FindCounter(table + [c], key) ==
      if FindCounter(table, key).Some? then FindCounter(table, key)
      else if KeyOf(c) == key then Some(|table|)
      else None
  {
    if table != [] && KeyOf(table[0]) != key {
      assert (table + [c])[1..] == table[1..] + [c];
      FindCounterAppend(table[1..], c, key);
    }
  }

  /** One view event adds one to the views of its own key and changes the views
      of no other key; a key without a counter goes from 0 to 1. */
  lemma UpsertIncrementsOnlyItsKey(table: seq<ViewCounter>, key: CounterKey, other: CounterKey)
    ensures ViewsFor(Upsert(table, key), other)
         == if other == key then ViewsFor(table, key) + 1 else ViewsFor(table, other)
  {
    match FindCounter(table, key)
    case Some(i) =>
      var after := table[i := table[i].(views := table[i].views + 1)];
      FindCounterSameKeys(table, after, other);
    case None =>
      FindCounterAppend(table, ViewCounter(key.url, key.week, key.year, 1), other);
  }

  /** An event creates a counter exactly when its key had none, and never
      removes one. */
  lemma UpsertSize(table: seq<ViewCounter>, key: CounterKey)
    ensures |Upsert(table, key)| == if FindCounter(table, key).None? then |table| + 1 else |table|
    ensures FindCounter(Upsert(table, key), key).Some?
  {
    if FindCounter(table, key).None? {
      FindCounterAppend(table, ViewCounter(key.url, key.week, key.year, 1), key);
    } else {
      var i := FindCounter(table, key).value;
      FindCounterSameKeys(table, table[i := table[i].(views := table[i].views + 1)], key);
    }
  }

  /** Events keep a table with one counter per key that way. */
  lemma UpsertKeepsKeysUnique(table: seq<ViewCounter>, key: CounterKey)
    requires UniqueKeys(table)
    ensures UniqueKeys(Upsert(table, key))
  {
    var after := Upsert(table, key);
    if FindCounter(table, key).None? {
      forall i, j | 0 <= i < j < |after|
        ensures KeyOf(after[i]) != KeyOf(after[j])
      {
        if j == |table| {
          assert KeyOf(after[j]) == key && KeyOf(table[i]) != key;
        }
      }
    }
  }

  /** Two events for one url in one week leave a single counter reading 2. */
  lemma TwoViewsSameWeek(table: seq<ViewCounter>, key: CounterKey)
    requires UniqueKeys(table)
    requires FindCounter(table, key).None?
    ensures var after := Upsert(Upsert(table, key), key);
      |after| == |table| + 1 && UniqueKeys(after) && ViewsFor(after, key) == 2 &&
      after[|table|] == ViewCounter(key.url, key.week, key.year, 2)
  {
    var once := Upsert(table, key);
    UpsertSize(table, key);
    UpsertKeepsKeysUnique(table, key);
    UpsertKeepsKeysUnique(once, key);
    UpsertIncrementsOnlyItsKey(table, key, key);
    UpsertIncrementsOnlyItsKey(once, key, key);
    FindCounterAppend(table, ViewCounter(key.url, key.week, key.year, 1), key);
  }

  /** Events for one url in two different weeks leave two counters reading 1. */
  lemma ViewsInTwoWeeks(table: seq<ViewCounter>, first: CounterKey, second: CounterKey)
    requires first != second
    requires FindCounter(table, first).None? && FindCounter(table, second).None?
    ensures var after := Upsert(Upsert(table, first), second);
      |after| == |table| + 2 && ViewsFor(after, first) == 1 && ViewsFor(after, second) == 1
  {
    var once := Upsert(table, first);
    UpsertSize(table, first);
    FindCounterAppend(table, ViewCounter(first.url, first.week, first.year, 1), second);
    UpsertSize(once, second);
    UpsertIncrementsOnlyItsKey(table, first, first);
    UpsertIncrementsOnlyItsKey(once, second, first);
    UpsertIncrementsOnlyItsKey(table, first, second);
    UpsertIncrementsOnlyItsKey(once, second, second);
  }
}
