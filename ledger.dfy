/**
 * The StockHistory table: an append-only ledger of quantity snapshots, one
 * row per (medicine, day, quantity). Rows belong to a medicine and vanish
 * with it (ON DELETE CASCADE); the timeline reads one medicine's rows
 * ordered by day.
 */
module Ledger {

  /** One StockHistory row. */
  datatype HistoryEntry = HistoryEntry(medicineId: int, day: int, quantity: int)

  /** The rows of medicine `id`, in insertion order (`WHERE medicine_id = id`). */
  function EntriesOf(h: seq<HistoryEntry>, id: int): (r: seq<HistoryEntry>)
    ensures forall e :: e in r <==> e in h && e.medicineId == id
    ensures |r| <= |h|
  {
    if h == [] then []
    else (if h[0].medicineId == id then [h[0]] else []) + EntriesOf(h[1..], id)
  }

  /** What the cascade leaves of the ledger once medicine `id` is deleted. */
  function WithoutEntriesOf(h: seq<HistoryEntry>, id: int): (r: seq<HistoryEntry>)
    ensures forall e :: e in r <==> e in h && e.medicineId != id
    ensures |r| <= |h|
  {
    if h == [] then []
    else (if h[0].medicineId != id then [h[0]] else []) + WithoutEntriesOf(h[1..], id)
  }

  /** Appending one row extends exactly its own medicine's history, by that row. */
  lemma {:induction false} EntriesOfAppend(h: seq<HistoryEntry>, e: HistoryEntry, id: int)
    ensures EntriesOf(h + [e], id) == EntriesOf(h, id) + (if e.medicineId == id then [e] else [])
  {
    if h == [] {
      assert h + [e] == [e];
      assert EntriesOf([e], id) == (if e.medicineId == id then [e] else []) + EntriesOf([], id);
    } else {
      assert (h + [e])[0] == h[0];
      assert (h + [e])[1..] == h[1..] + [e];
      assert EntriesOf(h + [e], id)
          == (if h[0].medicineId == id then [h[0]] else []) + EntriesOf(h[1..] + [e], id);
      EntriesOfAppend(h[1..], e, id);
    }
  }

  /** The cascade empties the deleted medicine's history and leaves every other one as it was. */
  lemma {:induction false} EntriesOfWithout(h: seq<HistoryEntry>, gone: int, id: int)
    ensures EntriesOf(WithoutEntriesOf(h, gone), id) == if id == gone then [] else EntriesOf(h, id)
  {
    if h != [] {
      EntriesOfWithout(h[1..], gone, id);
      var rest := WithoutEntriesOf(h[1..], gone);
      if h[0].medicineId != gone {
        assert WithoutEntriesOf(h, gone) == [h[0]] + rest;
        assert ([h[0]] + rest)[1..] == rest;
      } else {
        assert WithoutEntriesOf(h, gone) == rest;
        assert id != gone ==> EntriesOf(h, id) == EntriesOf(h[1..], id);
      }
    }
  }

  /** Rows in non-decreasing order of day (`ORDER BY change_date ASC`). */
  predicate DateOrdered(s: seq<HistoryEntry>) {
    forall i, j :: 0 <= i < j < |s| ==> s[i].day <= s[j].day
  }

  /** Inserts `e` into a date-ordered sequence, after every row of the same day or earlier. */
  function InsertByDate(e: HistoryEntry, s: seq<HistoryEntry>): (r: seq<HistoryEntry>)
  {
    if s == [] then [e]
    else if e.day < s[0].day then [e] + s
    else [s[0]] + InsertByDate(e, s[1..])
  }

  /** Insertion adds `e` and keeps every other row: the result is `s` with one more `e`. */
  lemma {:induction false} InsertByDatePermutes(e: HistoryEntry, s: seq<HistoryEntry>)
    ensures multiset(InsertByDate(e, s)) == multiset(s) + multiset{e}
  {
    if s != [] && e.day >= s[0].day {
      InsertByDatePermutes(e, s[1..]);
      assert s == [s[0]] + s[1..];
    }
  }

  /** Insertion keeps a date-ordered sequence date-ordered. */
  lemma {:induction false} InsertByDateOrdered(e: HistoryEntry, s: seq<HistoryEntry>)
    requires DateOrdered(s)
    ensures DateOrdered(InsertByDate(e, s))
  {
    if s != [] && e.day >= s[0].day {
      var t := InsertByDate(e, s[1..]);
      InsertByDateOrdered(e, s[1..]);
      InsertByDatePermutes(e, s[1..]);
      forall k | 0 <= k < |t|
        ensures s[0].day <= t[k].day
      {
        assert t[k] in multiset(s[1..]) + multiset{e};
      }
    }
  }

  /** A stable sort by day: the order the timeline query returns one medicine's rows in. */
  function SortByDate(s: seq<HistoryEntry>): (r: seq<HistoryEntry>)
    ensures DateOrdered(r)
    ensures multiset(r) == multiset(s)
  {
    if s == [] then []
    else
      var n := |s| - 1;
      var sorted := SortByDate(s[..n]);
      InsertByDateOrdered(s[n], sorted);
      InsertByDatePermutes(s[n], sorted);
      assert s == s[..n] + [s[n]];
      InsertByDate(s[n], sorted)
  }

  /** The history of medicine `id` as the timeline reads it: all of its rows and only those, by day. */
  function HistoryFor(h: seq<HistoryEntry>, id: int): (r: seq<HistoryEntry>)
    ensures DateOrdered(r)
    ensures multiset(r) == multiset(EntriesOf(h, id))
    ensures forall e :: e in r <==> e in h && e.medicineId == id
  {
    var r := SortByDate(EntriesOf(h, id));
    assert forall e :: e in r <==> e in multiset(r);
    r
  }

  /** A medicine's timeline is empty exactly when it has no ledger rows. */
  lemma HistoryForEmpty(h: seq<HistoryEntry>, id: int)
    ensures HistoryFor(h, id) == [] <==> EntriesOf(h, id) == []
  {
  }
}
