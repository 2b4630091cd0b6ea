# Medicine expiry and stock management: a verified model of the inventory core

The application is a pharmacy desktop tool with two tables. `Medicines` holds one
row per medicine: id, name, category, price, quantity, manufacture date, expiry
date and supplier. `StockHistory` holds one row per recorded quantity of a
medicine: medicine id, change date and quantity. Button handlers add, update and
delete medicines. A handler may also write a history row. Read-side handlers
refill the main Treeview with the whole table, a text search, the low-stock
rows, or the whole table tagged by expiry. A timeline report plots each selected
medicine's history ordered by date.

This project models that core in Dafny.

- `wrappers.dfy`: `Option`.
- `expiry.dfy` (module `Expiry`): the expiry classifier, a pure function of
  (expiry day, today) with a 30-day window that includes both ends.
- `ledger.dfy` (module `Ledger`): the history rows and the query for one
  medicine's history. It also holds the cascade filter and a stable sort by day.
- `medicines.dfy` (module `Medicines`): the medicine record and the table scan
  (ascending ids). It also holds the low-stock filter (`quantity < 10`), the
  search filter (substring of name, category or supplier), and the tag of one row.
- `inventory.dfy` (module `Inventory`): the class `Store`. It holds the
  `medicines` map, the auto-increment counter `nextId` and the `history`
  sequence, and its methods `Add`, `Update`, `Delete`, `SelectAll` and
  `Timeline` mirror the handlers. The class `TreeView` holds the shown rows and
  their tags, and its methods are the refill and re-tag loops.
- `scenario.dfy`: a client that uses only the contracts. It adds Paracetamol,
  finds it expired a month later, lowers its quantity from 100 to 80, and sees
  both history rows. It then deletes the medicine and sees the history empty.

The store invariant `Store.Valid()` has three parts:

- ids are positive and below `nextId`;
- every history row names an existing medicine, as the foreign key requires;
- every medicine has at least its initial history row.

Every handler keeps the invariant.

Inputs that the program reads from the clock, from widgets or from dialogs are
parameters:

- `today` is a day number;
- the selected Treeview row (`Option`);
- the delete confirmation (`bool`);
- each numeric or date text comes with the result of converting it (`Input`,
  whose value is `None` when the conversion fails; an empty text never converts).

In four places the code checks less than a reader might expect, and the model follows the code:

- `update_medicine` does not check for empty fields;
- `update_medicine` does not report a missing id (see `Store.Update`);
- quantities may be negative, because `int()` accepts them;
- the history comparison in `update_medicine` uses the quantity shown in the
  selected row.

## Model

| member | source | states |
|---|---|---|
| Expiry.Classify | main.py:198-214 | Expired iff expiry < today; ExpiringSoon iff today <= expiry <= today + 30; untagged iff expiry > today + 30 |
| Expiry.WindowBoundaries | main.py:199-214 | yesterday is Expired; today and today + 30 are ExpiringSoon; today + 31 gets no tag |
| Expiry.ClassifyMonotone | main.py:211-214 | a later expiry day never gets a more urgent tag |
| Ledger.EntriesOf | main.py:255 | the history of one id holds exactly the ledger rows carrying that id |
| Ledger.WithoutEntriesOf | main.py:166-168 | after the cascade the ledger holds exactly the rows not carrying the deleted id |
| Ledger.EntriesOfAppend | main.py:92-94 | appending a ledger row extends only its own medicine's history, by that row |
| Ledger.EntriesOfWithout | main.py:159-168 | the cascade empties the deleted medicine's history and leaves every other medicine's history identical |
| Ledger.InsertByDatePermutes | main.py:255 | inserting a row adds exactly that row and keeps every other row |
| Ledger.InsertByDateOrdered | main.py:255 | inserting a row into a date-ordered history keeps it date-ordered |
| Ledger.SortByDate | main.py:255 | the result is ordered by non-decreasing date and is a permutation of the input |
| Ledger.HistoryFor | main.py:255-257 | a medicine's timeline history is date-ordered and holds exactly that medicine's ledger rows, with multiplicity |
| Ledger.HistoryForEmpty | main.py:257-259 | the timeline history is empty iff the medicine has no ledger rows |
| Medicines.Table | main.py:58-61 | the scan lists each stored medicine under its id exactly when the id is in range, in strictly increasing id order |
| Medicines.LowStock | main.py:223-229 | a row is listed iff it is in the table and its quantity is strictly below 10, so quantity 10 is excluded |
| Medicines.SearchRows | main.py:183-187 | a row is listed iff it is in the table and its name, category or supplier contains the query |
| Medicines.ContainsEmpty | main.py:185 | every text contains the empty query |
| Medicines.ContainsAffixes | main.py:185 | a text contains any query that occurs inside it |
| Medicines.SearchEmptyQuery | main.py:178-181 | searching for the empty query gives the full listing, in the same order |
| Medicines.ExactFieldMatches | main.py:184-186 | searching for a row's own name, category or supplier finds that row |
| Medicines.TagOf | main.py:201-217 | a row is Expired iff its expiry reads as a day before today, ExpiringSoon iff it reads as a day within today to today + 30, and untagged iff it is unreadable (skipped) or later |
| Inventory.PlottedSeries | main.py:253-262 | every line drawn is non-empty and date-ordered, and there are no more lines than selected medicines |
| Inventory.PlottedSeriesComplete | main.py:253-262 | every selected medicine with history gets a line with its whole history by date |
| Inventory.PlottedSeriesSound | main.py:253-262 | every line drawn is the by-date history of a selected medicine, under that medicine's name |
| Inventory.MissingRequired | main.py:80 | a form with a filled name and converting price, quantity and dates passes the required-field check |
| Inventory.Store.Rows | main.py:60 | under the invariant the scan holds exactly the stored medicines under their ids, in strictly increasing id order |
| Inventory.Store.SelectAll | main.py:58-61 | the loop returns the full table scan |
| Inventory.Store.Add | main.py:68-103 | an empty required field, or a price or quantity that does not convert, writes nothing. Otherwise it inserts the record under the fresh id `nextId`, appends exactly one ledger row (id, today, quantity) and keeps the invariant |
| Inventory.Store.Update | main.py:106-149 | no selection or a non-numeric price or quantity writes nothing. Otherwise only the selected id's record is replaced by the seven new fields. One ledger row (id, today, new quantity) is appended iff the quantity differs from the one shown, and against a current row iff it differs from the stored one |
| Inventory.Store.Delete | main.py:152-173 | with a selection and confirmation the medicine is removed, and the ledger loses exactly its rows. Every other medicine's history is unchanged. Otherwise nothing changes |
| Inventory.Store.Timeline | main.py:238-266 | an empty selection draws nothing; otherwise the figure holds exactly the plotted series of the selection |
| Inventory.TreeView.Populate | main.py:47-54 | the view ends up holding exactly the given records, in order and all untagged |
| Inventory.TreeView.ClearTags | main.py:63-65 | every tag is cleared and the rows are unchanged |
| Inventory.TreeView.ShowAll | main.py:58-65 | the view shows the full table scan, untagged |
| Inventory.TreeView.Search | main.py:176-192 | the view shows the search result; an empty query shows the whole table; "not found" is reported iff a non-empty query matched nothing |
| Inventory.TreeView.ShowLowStock | main.py:223-234 | the view shows exactly the low-stock rows; "none" is reported iff there are none |
| Inventory.TreeView.CheckExpiry | main.py:195-217 | the view shows the whole table. Each row's tag is the classifier's verdict on its expiry day, or untagged when the expiry cannot be read. No tag from an earlier check survives |

## Left out

- The Tkinter windows, widgets, styling and message boxes are not modelled. Neither are the form and selection windows for add, update and the graph (main.py:41-44, 282-509). This is user-interface code. Its results enter the model as parameters: the selection, the confirmation and the form.
- The MySQL connection, cursor, commits and teardown are replaced by the in-memory `Store` (main.py:14-37, 511-515).
- Statement failures (`mysql.connector.Error`) are not modelled. This includes a failure between the two commits of `add_medicine`, which would leave a medicine without its initial history row. The `Store.Valid()` invariant assumes both writes succeed. The one statement failure that follows from the model's own state is modelled: a ledger row for an id that is no longer in the table, refused by the foreign key (`HistoryRejected`).
- Inventory.Store.Timeline: the real program stops the whole report on the first failed history fetch. Statement failures are not modelled, so this does not arise.
- Matplotlib drawing and axis formatting are not modelled. The timeline ends at the series handed to the plot.
- Inventory.Store.Add, Inventory.Store.Update: the price is carried as the integer its conversion yields. Floating-point values and arithmetic are not modelled.
- Inventory.Store.Add, Inventory.Store.Update: a date text is stored as the store's reading of it, `None` when the text is not a date. Update has no empty-field check, so an empty date text is stored as `None` too. MySQL in strict mode rejects such a statement instead. That rejection is a statement failure and is not modelled.
- Inventory.Store.Update: the history comparison is against the quantity shown in the selected row, as in the code. The stronger "iff the stored quantity changed" holds when the selected row is current.
- Medicines.SearchRows: `LIKE` is read as plain, case-sensitive substring containment. Case- and accent-insensitive collations, `%`/`_` wildcards and the default `\` escape character inside the query are properties of the SQL dialect and are not modelled.
- Ledger.HistoryFor: only non-decreasing dates are stated for the ordering. `ORDER BY change_date` does not fix the order of same-day rows (the sort used here happens to be stable).
- Date parsing with `strptime` and `YYYY-MM-DD` text are not modelled. Dates are day numbers, and a date that cannot be read is `None`.
- `SELECT * FROM Medicines` has no `ORDER BY`. The model lists rows in ascending id order, the primary-key order of a table scan.
