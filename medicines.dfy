/**
 * The Medicines table as the read-side queries see it: the record of one
 * medicine, the table scan behind `SELECT * FROM Medicines`, and the two
 * row filters (low stock, text search) plus the expiry tag of one row.
 */
module Medicines {

  import opened Wrappers
  import opened Expiry

  /**
   * One Medicines row without its id. `price` is the store's reading of the
   * price text (floating point is not modelled); `mfg` and `exp` are the
   * store's reading of the date texts as day numbers, None when the text is
   * not a date the store can give back.
   */
  datatype Medicine = Medicine(
    name: string,
    category: string,
    price: int,
    quantity: int,
    mfg: Option<int>,
    exp: Option<int>,
    supplier: string)

  /** A row as fetched and shown in the Treeview: the id column followed by the record. */
  datatype Row = Row(id: int, med: Medicine)

  /** The rows of `m` whose ids lie in [0, n), in ascending id order (a primary-key scan). */
  function Table(m: map<int, Medicine>, n: nat): (t: seq<Row>)
    ensures forall r :: r in t <==> 0 <= r.id < n && r.id in m && m[r.id] == r.med
    ensures forall i, j :: 0 <= i < j < |t| ==> t[i].id < t[j].id
  {
    if n == 0 then []
    else
      var t := Table(m, n - 1);
      assert forall k :: 0 <= k < |t| ==> t[k].id < n - 1 by {
        forall k | 0 <= k < |t| ensures t[k].id < n - 1 {
          assert t[k] in t;
        }
      }
      t + (if n - 1 in m then [Row(n - 1, m[n - 1])] else [])
  }

  /** The fixed low-stock threshold. */
  const LowStockThreshold := 10

  /** `WHERE quantity < 10`: the rows strictly below the threshold, each as often as in the input. */
  function LowStock(rows: seq<Row>): (r: seq<Row>)
    ensures forall x :: x in r <==> x in rows && x.med.quantity < LowStockThreshold
    ensures forall x :: multiset(r)[x] == if x.med.quantity < LowStockThreshold then multiset(rows)[x] else 0
    ensures |r| <= |rows|
  {
    if rows == [] then []
    else
      assert rows == [rows[0]] + rows[1..];
      (if rows[0].med.quantity < LowStockThreshold then [rows[0]] else []) + LowStock(rows[1..])
  }

  /** `text LIKE '%query%'`, read as plain (case-sensitive, wildcard-free) substring containment. */
  predicate Contains(text: string, query: string) {
    exists i | 0 <= i <= |text| - |query| :: OccursAt(text, query, i)
  }

  /** `query` occurs in `text` starting at position `i`. */
  predicate OccursAt(text: string, query: string, i: int) {
    0 <= i <= |text| - |query| && text[i..i + |query|] == query
  }

  /** The search predicate: the query occurs in the name, the category or the supplier. */
  predicate Matches(med: Medicine, query: string) {
    Contains(med.name, query) || Contains(med.category, query) || Contains(med.supplier, query)
  }

  /** The rows the search query selects, each as often as in the input. */
  function SearchRows(rows: seq<Row>, query: string): (r: seq<Row>)
    ensures forall x :: x in r <==> x in rows && Matches(x.med, query)
    ensures forall x :: multiset(r)[x] == if Matches(x.med, query) then multiset(rows)[x] else 0
    ensures |r| <= |rows|
  {
    if rows == [] then []
    else
      assert rows == [rows[0]] + rows[1..];
      (if Matches(rows[0].med, query) then [rows[0]] else []) + SearchRows(rows[1..], query)
  }

  /** Every text contains the empty query. */
  lemma ContainsEmpty(text: string)
    ensures Contains(text, [])
  {
    assert OccursAt(text, [], 0);
  }

  /** A text contains itself and whatever it is a prefix or suffix of. */
  lemma ContainsAffixes(before: string, query: string, after: string)
    ensures Contains(before + query + after, query)
  {
    var text := before + query + after;
    assert OccursAt(text, query, |before|);
  }

  /** An empty query selects every row, in the same order: search("") is the full listing. */
  lemma {:induction false} SearchEmptyQuery(rows: seq<Row>)
    ensures SearchRows(rows, []) == rows
  {
    if rows != [] {
      ContainsEmpty(rows[0].med.name);
      SearchEmptyQuery(rows[1..]);
      assert rows == [rows[0]] + rows[1..];
    }
  }

  /** A medicine whose name, category or supplier is exactly the query is found by it. */
  lemma ExactFieldMatches(rows: seq<Row>, k: nat)
    requires k < |rows|
    ensures rows[k] in SearchRows(rows, rows[k].med.name)
    ensures rows[k] in SearchRows(rows, rows[k].med.supplier)
    ensures rows[k] in SearchRows(rows, rows[k].med.category)
  {
    var med := rows[k].med;
    ContainsAffixes([], med.name, []);
    ContainsAffixes([], med.supplier, []);
    ContainsAffixes([], med.category, []);
    assert [] + med.name + [] == med.name;
    assert [] + med.supplier + [] == med.supplier;
    assert [] + med.category + [] == med.category;
  }

  /** The tag a row gets in an expiry check; a row whose expiry cannot be read stays untagged. */
  function TagOf(row: Row, today: int): (t: Tag)
    ensures t == Expired <==> row.med.exp.Some? && row.med.exp.value < today
    ensures t == ExpiringSoon <==> row.med.exp.Some? && today <= row.med.exp.value <= today + ExpiryWindow
    ensures t == Untagged <==> row.med.exp.None? || today + ExpiryWindow < row.med.exp.value
  {
    match row.med.exp
    case None => Untagged
    case Some(exp) => Classify(exp, today)
  }
}
