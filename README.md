# Task list store — a verified Dafny model

The page keeps one ordered list of task records `{name, priority, status}`.
Submitting the form appends a pending task. Each row of the list has a check
button and a trash button, and both pass on the row's number. The store then
flips the status of, or removes, the task at that position in the whole list.
That is the row's own task only when the filter hides no earlier task. The list view shows the tasks that pass two drop-down filters (priority
and status, each with the wildcard `all`). The summary lines and the bar chart
show the number of completed and pending tasks.

The model has four modules:

- `Tasks` (tasks.dfy): the record, the status strings, and `Toggled`, the status flip.
- `View` (view.dfy): the filter test `Matches` and the filtered list `Filter`.
  It also has `Rows`, which gives the store position of the task shown on each
  row of the list.
- `Counts` (counts.dfy): `StatusCount` (how many tasks have a given status) and
  how each store operation changes it.
- `Store` (store.dfy): the class `TaskStore`. Its field `tasks: seq<Task>` is
  the list. The methods `Add`, `ToggleStatus` and `DeleteTask` change it, and
  `Summary` reads the totals.

Status and priority are kept as text, as the page keeps them. The program
writes only `"pending"` and `"completed"` as statuses. A list read back from
storage may hold any text there, so the flip and the counts are stated for
any status. `WellFormed` is the invariant "every status is one of the two";
every operation preserves it.

Rows of the list are numbered by their place in the filtered list. The toggle
and delete operations index the whole store. `View.RowAddressesShownTask` shows
that the number on row k addresses the task shown on that row exactly when the
filter drops no task that comes before it. When the filter drops nothing, row k
always shows the task at position k (`View.FilterKeepsAll`, `View.RowsKeepAll`). When a dropped
task comes before a shown one, the shown task's buttons act on a different
position (`View.RowMisaddressed`, and a concrete case in
`View.NarrowedFilterExample`).

## Model

| member | source | states |
|---|---|---|
| Tasks.Toggled | script.js:133 | the new status is always pending or completed, and it is completed exactly when the old status was pending |
| Tasks.ToggleTwice | script.js:133 | for a pending or completed task, one flip changes the status and two flips restore it |
| Tasks.ToggleTwiceOther | script.js:133 | any other status becomes pending after one flip and completed after two, so it is not restored |
| View.Matches | script.js:88-91 | the filter test: with both drop-downs on `all` every task passes; a drop-down not on `all` lets through only tasks whose field equals it |
| View.MatchesSplit | script.js:88-91 | the two drop-downs are independent: a task passes both exactly when it passes each with the other on `all` |
| View.Filter | script.js:87-92 | the view is never longer than the store |
| View.Rows | script.js:87-93 | for each shown row, a store position: no more rows than tasks, every position in range, positions strictly increasing down the list (order kept) |
| View.RowsShowFilter | script.js:87-93 | there are as many rows as tasks in the view, and row k shows the task at its recorded store position |
| View.RowsComplete | script.js:87-92 | a store position appears among the rows exactly when its task passes both filters |
| View.FilterMembership | script.js:87-92 | a task is in the view exactly when it is in the store and passes both filters |
| View.FilterKeepsAll | script.js:87-92 | when every task passes, the view equals the store |
| View.RowsKeepAll | script.js:87-93 | when every task passes, there is one row per task and row k shows position k |
| View.FilterAllIsIdentity | script.js:89-90 | with both filters on `all`, the view equals the store and row k shows position k |
| View.FilterAppend | script.js:87-92 | the view of a concatenation is the concatenation of the views |
| View.DroppedTaskShrinks | script.js:87-92 | if some task fails the filter, there are fewer rows than tasks |
| View.RowShifted | script.js:87-93 | a dropped task before the one on row k puts that task past position k |
| View.RowExact | script.js:87-93 | if no task before the one on row k is dropped, that task is at position k |
| View.RowAddressesShownTask | script.js:93-100 | every row number is a valid store index; it addresses the shown task exactly when no earlier task is dropped |
| View.RowMisaddressed | script.js:93-100 | a dropped task before a shown one gives the shown task a row number below its store position |
| View.NarrowedFilterExample | script.js:89-100 | with the filter on `high` and tasks [low, high], row 0 shows the second task while index 0 addresses the first |
| Counts.StatusCount | script.js:69-70 | the count of a status is at most the number of tasks |
| Counts.CountAppend | script.js:69-70 | the count of a concatenation is the sum of the counts |
| Counts.CountIsFilterLength | script.js:69-70 | for a status other than `all`, the count equals the length of the view filtered on that status with priority `all` |
| Counts.CountsAtMostTotal | script.js:111-113 | completed plus pending is at most the total |
| Counts.CountsPartition | script.js:111-113 | if every status is pending or completed, completed plus pending equals the total |
| Counts.CountAfterAppend | script.js:123 | appending a task adds one to the count of its own status and changes no other count |
| Counts.CountAfterUpdate | script.js:133 | replacing the task at i takes one from its old status's count and adds one to its new status's count |
| Counts.CountAfterRemove | script.js:139 | removing the task at i takes one from the count of its status and changes no other count |
| Store.TaskStore.FromStorage | script.js:14 | the store starts as the stored list, or as the empty list when nothing is stored |
| Store.TaskStore.Add | script.js:116-127 | the list grows by one; earlier tasks are unchanged; the last is the new pending task; the pending count rises by one and the completed count stays; the invariant is preserved |
| Store.TaskStore.ToggleStatus | script.js:132-136 | only the status of task `index` changes, to the flipped status; the length and the name and priority stay; counts move between pending and completed; the invariant is preserved |
| Store.TaskStore.DeleteTask | script.js:138-142 | a valid index gives `tasks[..index] + tasks[index+1..]`, one shorter, with order kept and one taken from the removed status's count; an index past the end leaves the list unchanged; the invariant is preserved |
| Store.TaskStore.Summary | script.js:110-114 | the total, completed and pending counts shown; completed plus pending is at most the total, and equals it when every status is pending or completed |

## Left out

- DOM lookups, `innerHTML` rendering, listener wiring and form reset. This is view code; only what it computes (the filtered list and the row numbers) is modelled.
- Chart.js construction and redraws. This is a foreign library; the bar chart's data is the pair of counts from `Summary`.
- Pie-chart percentages (script.js:77-79): floating-point division.
- Saving to `localStorage` and JSON encoding/decoding. This is I/O. The value read at start-up is a parameter of `FromStorage`. Stored data of the wrong shape (a missing field, a non-string status) is not modelled.
- Store.TaskStore.ToggleStatus: requires `index < |tasks|`. Out of range, the script throws when it reads `.status` of `undefined`. Every row number is below the length of the view, and so below `|tasks|` (`View.RowAddressesShownTask`), so calls from the list always meet this requirement.
- Store.TaskStore.DeleteTask: takes a `nat`. The page numbers rows from 0, so `splice` never gets a negative index.
- Task identity: the script changes the task object in place, and the filtered list shares those objects. The view is rebuilt after every change, so the model treats tasks as values.
