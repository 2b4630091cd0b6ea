/**
 * The inventory store behind the button handlers: the Medicines table as a
 * map from id to record, the next auto-increment id, and the StockHistory
 * ledger as a sequence. The Treeview that the handlers refill and re-tag is
 * modelled as a second class holding the shown rows and their tags.
 *
 * Today's date, the operator's selection and confirmation, and the outcome of
 * converting the price and quantity texts are parameters.
 */
module Inventory {

  import opened Wrappers
  import opened Expiry
  import opened Ledger
  import opened Medicines

  /**
   * One text field of a form together with what converting it yields: the
   * number `float`/`int` parse for price and quantity, the day the store reads
   * for a date. An empty text never converts.
   */
  datatype RawInput<T> = Input(text: string, value: Option<T>)
  type Input<T> = f: RawInput<T> | f.text == [] ==> f.value.None? witness Input([], None)

  /** The seven fields of the add and update windows. */
  datatype Form = Form(
    name: string,
    category: string,
    price: Input<int>,
    quantity: Input<int>,
    mfg: Input<int>,
    exp: Input<int>,
    supplier: string)

  /** A required field (everything except category and supplier) was left empty. */
  predicate MissingRequired(form: Form)
    // A form whose name is filled and whose numbers and dates all convert passes the check.
    ensures form.name != [] && Numeric(form) && form.mfg.value.Some? && form.exp.value.Some?
            ==> !MissingRequired(form)
  {
    form.name == [] || form.price.text == [] || form.quantity.text == []
    || form.mfg.text == [] || form.exp.text == []
  }

  /**
   * Both `float(price)` and `int(quantity)` succeed. Since an empty text never
   * converts (the `Input` type), a form that passes has a non-empty price and quantity.
   */
  predicate Numeric(form: Form) {
    form.price.value.Some? && form.quantity.value.Some?
  }

  /** The record the INSERT or UPDATE writes for a form whose numbers converted. */
  function Record(form: Form): (med: Medicine)
    requires Numeric(form)
  {
    Medicine(form.name, form.category, form.price.value.value, form.quantity.value.value,
             form.mfg.value, form.exp.value, form.supplier)
  }

  /** What a handler reports to the operator. */
  datatype Outcome =
    | NoSelection        // "Selection Error"
    | Cancelled          // delete not confirmed
    | MissingField       // "Please fill all required fields"
    | NotNumeric         // ValueError from float()/int(): "Input Error"
    | HistoryRejected    // the ledger row was refused (its medicine is gone)
    | Added(id: int)
    | Updated
    | Deleted

  /** One plotted line of the timeline: a medicine's name and its ledger rows by day. */
  datatype Series = Series(name: string, points: seq<HistoryEntry>)

  /** The timeline report: nothing when no medicine was selected, else one figure. */
  datatype Plot = NothingSelected | Figure(series: seq<Series>)

  /** The series drawn for the selected (id, name) pairs: one per medicine with any history, in selection order. */
  function PlottedSeries(h: seq<HistoryEntry>, selected: seq<(int, string)>): (r: seq<Series>)
    ensures |r| <= |selected|
    ensures forall s :: s in r ==> s.points != [] && DateOrdered(s.points)
  {
    if selected == [] then []
    else
      var n := |selected| - 1;
      var points := HistoryFor(h, selected[n].0);
      PlottedSeries(h, selected[..n]) + (if points != [] then [Series(selected[n].1, points)] else [])
  }

  /** Every selected medicine that has ledger rows gets its line, holding its whole history by day. */
  lemma {:induction false} PlottedSeriesComplete(h: seq<HistoryEntry>, selected: seq<(int, string)>, k: nat)
    requires k < |selected| && EntriesOf(h, selected[k].0) != []
    ensures Series(selected[k].1, HistoryFor(h, selected[k].0)) in PlottedSeries(h, selected)
  {
    var n := |selected| - 1;
    if k == n {
      HistoryForEmpty(h, selected[k].0);
    } else {
      assert selected[..n][k] == selected[k];
      PlottedSeriesComplete(h, selected[..n], k);
    }
  }

  /** Every line drawn is the by-day history of one of the selected medicines. */
  lemma {:induction false} PlottedSeriesSound(h: seq<HistoryEntry>, selected: seq<(int, string)>, s: Series)
    requires s in PlottedSeries(h, selected)
    ensures exists k :: 0 <= k < |selected| && s == Series(selected[k].1, HistoryFor(h, selected[k].0))
  {
    var n := |selected| - 1;
    var points := HistoryFor(h, selected[n].0);
    if s in PlottedSeries(h, selected[..n]) {
      PlottedSeriesSound(h, selected[..n], s);
      var k :| 0 <= k < n && s == Series(selected[..n][k].1, HistoryFor(h, selected[..n][k].0));
      assert selected[..n][k] == selected[k];
    } else {
      assert s == Series(selected[n].1, points);
    }
  }

  class Store {
    /** The Medicines table, keyed by id. */
    var medicines: map<int, Medicine>
    /** The id the next INSERT receives (auto-increment; ids are never reused). */
    var nextId: nat
    /** The StockHistory table, in insertion order. */
    var history: seq<HistoryEntry>

    /**
     * Ids are positive and below the auto-increment counter; every ledger row
     * belongs to an existing medicine (the foreign key); every medicine has at
     * least its initial ledger row.
     */
    ghost predicate Valid()
      reads this
    {
      && 0 < nextId
      && (forall id :: id in medicines ==> 0 < id < nextId)
      && (forall k :: 0 <= k < |history| ==> history[k].medicineId in medicines)
      && (forall id :: id in medicines ==> EntriesOf(history, id) != [])
    }

    /** Both tables empty; AUTO_INCREMENT starts at 1. */
    constructor ()
      ensures Valid()
      ensures medicines == map[] && history == [] && nextId == 1
    {
      medicines := map[];
      history := [];
      nextId := 1;
    }

    /** `SELECT * FROM Medicines`, in primary-key order. */
    function Rows(): (rows: seq<Row>)
      reads this
      ensures Valid() ==> forall r :: r in rows <==> r.id in medicines && medicines[r.id] == r.med
      ensures forall i, j :: 0 <= i < j < |rows| ==> rows[i].id < rows[j].id
    {
      Table(medicines, nextId)
    }

    /** The table scan: every row of the table, each once, in ascending id order. */
    method SelectAll() returns (rows: seq<Row>)
      ensures rows == Rows()
    {
      rows := [];
      var id := 0;
      while id < nextId
        invariant 0 <= id <= nextId
        invariant rows == Table(medicines, id)
      {
        if id in medicines {
          rows := rows + [Row(id, medicines[id])];
        }
        id := id + 1;
      }
    }

    /**
     * add_medicine: reject a form with an empty required field or a price or
     * quantity that does not convert, writing nothing; otherwise insert the
     * record under a fresh id and append its initial ledger row dated today.
     */
    method Add(form: Form, today: int) returns (outcome: Outcome)
      requires Valid()
      modifies this
      ensures Valid()
      ensures MissingRequired(form) ==> outcome == MissingField
      ensures !MissingRequired(form) && !Numeric(form) ==> outcome == NotNumeric
      ensures !MissingRequired(form) && Numeric(form) ==> outcome == Added(old(nextId))
      ensures !outcome.Added? ==>
                medicines == old(medicines) && history == old(history) && nextId == old(nextId)
      ensures outcome.Added? ==>
                && Numeric(form)
                && outcome.id !in old(medicines)
                && medicines == old(medicines)[outcome.id := Record(form)]
                && history == old(history) + [HistoryEntry(outcome.id, today, form.quantity.value.value)]
                && nextId == old(nextId) + 1
    {
      if MissingRequired(form) {
        return MissingField;
      }
      if !Numeric(form) {
        return NotNumeric;
      }
      var med := Record(form);
      var id := nextId;
      ghost var oldHistory := history;
      medicines := medicines[id := med];
      nextId := nextId + 1;
      var entry := HistoryEntry(id, today, med.quantity);
      history := history + [entry];
      forall other | other in medicines
        ensures EntriesOf(history, other) != []
      {
        EntriesOfAppend(oldHistory, entry, other);
      }
      outcome := Added(id);
    }

    /**
     * update_medicine: overwrite all seven fields of the selected row's id and,
     * when the new quantity differs from the quantity the selected row shows,
     * append one ledger row dated today with the new quantity. Nothing is
     * written when nothing is selected or a number does not convert. If the
     * selected id is no longer in the table, the UPDATE touches no row and a
     * ledger row for it is refused by the foreign key.
     */
    method Update(selected: Option<Row>, form: Form, today: int) returns (outcome: Outcome)
      requires Valid()
      modifies this
      ensures Valid()
      ensures nextId == old(nextId)
      ensures selected.None? ==> outcome == NoSelection
      ensures selected.Some? && !Numeric(form) ==> outcome == NotNumeric
      ensures outcome != Updated ==> medicines == old(medicines) && history == old(history)
      ensures selected.Some? && Numeric(form) ==>
                var id, qty := selected.value.id, form.quantity.value.value;
                var changed := qty != selected.value.med.quantity;
                if id in old(medicines) then
                  && outcome == Updated
                  && medicines == old(medicines)[id := Record(form)]
                  && history == old(history) + (if changed then [HistoryEntry(id, today, qty)] else [])
                else
                  && outcome == (if changed then HistoryRejected else Updated)
                  && medicines == old(medicines) && history == old(history)
      // Against a current selection: a ledger row is written iff the quantity changed.
      ensures selected.Some? && selected.value.id in old(medicines)
              && old(medicines)[selected.value.id] == selected.value.med && Numeric(form) ==>
                (|history| == |old(history)| + 1 <==>
                   form.quantity.value.value != old(medicines)[selected.value.id].quantity)
    {
      if selected.None? {
        return NoSelection;
      }
      if !Numeric(form) {
        return NotNumeric;
      }
      var id := selected.value.id;
      var qty := form.quantity.value.value;
      var changed := qty != selected.value.med.quantity;
      if id !in medicines {
        // UPDATE ... WHERE id = %s matches no row; the ledger INSERT violates the foreign key.
        outcome := if changed then HistoryRejected else Updated;
        return;
      }
      medicines := medicines[id := Record(form)];
      if changed {
        ghost var oldHistory := history;
        var entry := HistoryEntry(id, today, qty);
        history := history + [entry];
        forall other | other in medicines
          ensures EntriesOf(history, other) != []
        {
          EntriesOfAppend(oldHistory, entry, other);
        }
      }
      outcome := Updated;
    }

    /**
     * delete_medicine: after confirmation, remove the selected medicine; the
     * cascade removes its ledger rows and no others.
     */
    method Delete(selected: Option<int>, confirmed: bool) returns (outcome: Outcome)
      requires Valid()
      modifies this
      ensures Valid()
      ensures nextId == old(nextId)
      ensures outcome == (if selected.None? then NoSelection else if !confirmed then Cancelled else Deleted)
      ensures !outcome.Deleted? ==> medicines == old(medicines) && history == old(history)
      ensures outcome.Deleted? ==>
                && medicines == old(medicines) - {selected.value}
                && history == WithoutEntriesOf(old(history), selected.value)
      ensures outcome.Deleted? ==>
                && EntriesOf(history, selected.value) == []
                && forall id :: id != selected.value ==> EntriesOf(history, id) == EntriesOf(old(history), id)
    {
      if selected.None? {
        return NoSelection;
      }
      if !confirmed {
        return Cancelled;
      }
      var id := selected.value;
      ghost var oldHistory := history;
      medicines := medicines - {id};
      history := WithoutEntriesOf(history, id);
      forall other
        ensures EntriesOf(history, other) == if other == id then [] else EntriesOf(oldHistory, other)
      {
        EntriesOfWithout(oldHistory, id, other);
      }
      forall k | 0 <= k < |history|
        ensures history[k].medicineId in medicines
      {
        assert history[k] in history;
        assert history[k] in oldHistory;
      }
      outcome := Deleted;
    }

    /**
     * generate_timeline_graph: for each selected medicine, fetch its ledger
     * rows ordered by day and draw a line only when there are any.
     */
    method Timeline(selected: seq<(int, string)>) returns (plot: Plot)
      ensures selected == [] ==> plot == NothingSelected
      ensures selected != [] ==> plot == Figure(PlottedSeries(history, selected))
    {
      if selected == [] {
        return NothingSelected;
      }
      var series := [];
      for i := 0 to |selected|
        invariant series == PlottedSeries(history, selected[..i])
      {
        var (id, name) := selected[i];
        var points := HistoryFor(history, id);
        if points != [] {
          series := series + [Series(name, points)];
        }
        assert selected[..i + 1][..i] == selected[..i];
      }
      assert selected[..|selected|] == selected;
      plot := Figure(series);
    }
  }

  /** The main Treeview: the rows on show and the tag of each. */
  class TreeView {
    var rows: seq<Row>
    var tags: seq<Tag>

    ghost predicate Valid()
      reads this
    {
      |tags| == |rows|
    }

    constructor ()
      ensures Valid() && rows == [] && tags == []
    {
      rows := [];
      tags := [];
    }

    /** populate_treeview: delete every item, then insert the records in order, untagged. */
    method Populate(records: seq<Row>)
      requires Valid()
      modifies this
      ensures Valid()
      ensures rows == records
      ensures forall k :: 0 <= k < |tags| ==> tags[k] == Untagged
    {
      while rows != []
        invariant Valid()
        decreases |rows|
      {
        rows, tags := rows[1..], tags[1..];
      }
      for i := 0 to |records|
        invariant Valid()
        invariant rows == records[..i]
        invariant forall k :: 0 <= k < |tags| ==> tags[k] == Untagged
      {
        rows, tags := rows + [records[i]], tags + [Untagged];
      }
    }

    /** The loop in fetch_all_medicines that clears every item's tags. */
    method ClearTags()
      requires Valid()
      modifies this
      ensures Valid() && rows == old(rows)
      ensures forall k :: 0 <= k < |tags| ==> tags[k] == Untagged
    {
      for i := 0 to |tags|
        invariant Valid() && rows == old(rows)
        invariant forall k :: 0 <= k < i ==> tags[k] == Untagged
      {
        tags := tags[i := Untagged];
      }
    }

    /** fetch_all_medicines ("View All"): show every row of the table, untagged. */
    method ShowAll(store: Store)
      requires Valid()
      modifies this
      ensures Valid()
      ensures rows == store.Rows()
      ensures forall k :: 0 <= k < |tags| ==> tags[k] == Untagged
    {
      var all := store.SelectAll();
      Populate(all);
      ClearTags();
    }

    /**
     * search_medicine: an empty query shows the whole table; otherwise the
     * rows whose name, category or supplier contains the query. Reports
     * whether a non-empty query found nothing.
     */
    method Search(store: Store, query: string) returns (nothingFound: bool)
      requires Valid()
      modifies this
      ensures Valid()
      ensures rows == SearchRows(store.Rows(), query)
      ensures nothingFound <==> query != [] && rows == []
      ensures forall k :: 0 <= k < |tags| ==> tags[k] == Untagged
    {
      if query == [] {
        ShowAll(store);
        SearchEmptyQuery(store.Rows());
        return false;
      }
      var all := store.SelectAll();
      var found := SearchRows(all, query);
      nothingFound := found == [];
      Populate(found);
    }

    /** view_low_stock: show the rows with quantity below 10; reports whether there were none. */
    method ShowLowStock(store: Store) returns (nothingFound: bool)
      requires Valid()
      modifies this
      ensures Valid()
      ensures rows == LowStock(store.Rows())
      ensures nothingFound <==> rows == []
      ensures forall k :: 0 <= k < |tags| ==> tags[k] == Untagged
    {
      var all := store.SelectAll();
      var low := LowStock(all);
      nothingFound := low == [];
      Populate(low);
    }

    /**
     * check_expiry_status: refresh the full listing (clearing old tags), then
     * tag each row whose expiry day has passed as expired and each row expiring
     * within thirty days as expiring soon; a row whose expiry cannot be read is
     * skipped and the loop goes on.
     */
    method CheckExpiry(store: Store, today: int)
      requires Valid()
      modifies this
      ensures Valid()
      ensures rows == store.Rows()
      ensures forall k :: 0 <= k < |rows| ==> tags[k] == TagOf(rows[k], today)
    {
      ShowAll(store);
      for i := 0 to |rows|
        invariant Valid() && rows == store.Rows()
        invariant forall k :: 0 <= k < i ==> tags[k] == TagOf(rows[k], today)
        invariant forall k :: i <= k < |rows| ==> tags[k] == Untagged
      {
        match rows[i].med.exp
        case None =>
          // the expiry value does not parse: leave the row untagged
        case Some(exp) =>
          if exp < today {
            tags := tags[i := Expired];
          } else if today <= exp <= today + ExpiryWindow {
            tags := tags[i := ExpiringSoon];
          }
      }
    }
  }
}
