/**
 * A client of the store and the Treeview: add a medicine, check expiry on 2024-07-01, a
 * month after it expired, change its quantity, read its timeline and delete
 * it. Everything asserted follows from the handlers' contracts alone.
 */
module Scenario {

  import opened Wrappers
  import opened Expiry
  import opened Ledger
  import opened Medicines
  import opened Inventory

  /** Day number of 2024-07-01, counted from 1970-01-01. */
  const July1st2024 := 19905

  /** The form for Paracetamol, 100 units, made 2024-01-01 and expiring 2024-06-01. */
  function Paracetamol(): Form {
    Form("Paracetamol", "Analgesic", Input("2.50", Some(250)), Input("100", Some(100)),
         Input("2024-01-01", Some(19723)), Input("2024-06-01", Some(19875)), "")
  }

  method AddThenCheckExpiry()
  {
    var today := July1st2024;
    var store := new Store();
    var view := new TreeView();
    var added := store.Add(Paracetamol(), today);
    assert added == Added(1);
    assert store.history == [HistoryEntry(1, today, 100)];

    view.CheckExpiry(store, today);
    var med := Record(Paracetamol());
    assert store.medicines == map[1 := med] && store.nextId == 2;
    assert Table(store.medicines, 1) == Table(store.medicines, 0) == [];
    assert view.rows == Table(store.medicines, 2) == [Row(1, med)];
    assert view.tags[0] == Expired;
  }

  method UpdateThenTimeline()
  {
    var today := July1st2024;
    var store := new Store();
    var form := Paracetamol();
    var added := store.Add(form, today);
    var lower := form.(quantity := Input("80", Some(80)));
    var updated := store.Update(Some(Row(1, Record(form))), lower, today);
    assert updated == Updated;
    assert store.history == [HistoryEntry(1, today, 100), HistoryEntry(1, today, 80)];

    var again := store.Update(Some(Row(1, Record(lower))), lower, today);
    assert |store.history| == 2;

    var plot := store.Timeline([(1, "Paracetamol")]);
    assert HistoryEntry(1, today, 80) in EntriesOf(store.history, 1);
    PlottedSeriesComplete(store.history, [(1, "Paracetamol")], 0);
    assert Series("Paracetamol", HistoryFor(store.history, 1)) in plot.series;

    var deleted := store.Delete(Some(1), true);
    assert deleted == Deleted;
    assert EntriesOf(store.history, 1) == [];
  }
}
