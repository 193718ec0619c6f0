# Daily Activity Tracker — a Dafny model of its task logic

The tracker is a single-user task list. A task has a name, a category, a
priority, a due date, a description, a status and a creation time. Tasks
live in one file that is rewritten in full on every change. The page lets the
user add a task through a form, narrow the list with three multi-select
filters (category, priority, status; the entry "All" switches a filter off),
change a task's status with a per-row selector, and see three charts: tasks
per category, tasks per priority, and the completion rate.

The model covers the logic behind those actions:

- `tasks.dfy` (module `Tasks`): the task record, the three filterable
  dimensions, and rows that carry their label. A collection is a
  `seq<Task>`. A task's label is its position, because every collection the
  tracker holds is numbered from 0: a file read back, and a concatenation
  that renumbers.
- `utils.dfy` (module `Utils`): the priority colour lookup and the filter.
  The filter is written as three successive stages over a labelled copy of
  the collection, one stage per dimension, like the source. It is proved
  equal to a one-pass reference filter. It is also proved to return a
  subsequence in order, with original labels, holding exactly the tasks
  that pass every active criterion.
- `data_handler.dfy` (module `DataHandler`): the store is a class whose
  `file` field stands for the task file (`None` when the file does not
  exist). Load, save, add and status update are methods. Add and update
  each load the stored collection, change it, write it back and return what
  they wrote.
- `visualizations.dfy` (module `Visualizations`): value counts per category
  and per priority, and the completion rate as an exact `real`.
- `main.dfy` (module `Main`): the page state is a class holding the session's
  collection and the store. It has two handlers. The add-task handler
  validates the name. The status dispatch visits the filtered rows in order
  and updates a row only when its selector differs from the status the row
  was listed with. The pass ends at the first row not listed as Pending,
  because its selector lookup or its time column raises an error. The
  class invariant `Valid()` says the session's
  collection is the stored one. Because of it, a label taken from the
  filtered view names the right row of the stored collection.

Inputs that come from the outside world are parameters. The form's fields
and the creation timestamp (`now`, the formatted wall-clock time) are
parameters of `SubmitNewTask`. The selector values are a map `picks` from
row label to the chosen status; this is the per-row widget state, keyed by
label. A row with no entry in `picks` shows its default, which is its
current status.

## Model

| member | source | states |
|---|---|---|
| `Tasks.LabelledAppend` | data_handler.py:24 | after appending one task, the earlier rows keep their labels and the new task gets label n, so labels run 0..n without a gap |
| `Utils.PriorityColor` | utils.py:1-9 | the four levels map to their colour codes; the result is the default `#000000` exactly when the priority is none of the four |
| `Utils.PriorityColorsDistinct` | utils.py:3-8 | no two priority levels share a colour |
| `Utils.Where` | utils.py:16 | one `isin` mask: keeps exactly the rows whose value is listed, never more rows, and keeps labels increasing |
| `Utils.Narrow` | utils.py:15-22 | one filter stage: a list holding "All" leaves the rows as they are; otherwise it keeps exactly the rows whose value passes, in order, never more rows |
| `Utils.FilterTasks` | utils.py:11-24 | the view has labels strictly increasing, each row is the collection's row under its original label, and the row of task i is present exactly when task i passes all three criteria (a list holding "All" accepts everything) |
| `Utils.FilterAllSentinels` | utils.py:13-24 | with "All" in all three lists the view is the whole collection in order, labels 0..n-1 |
| `Utils.SentinelSkipsDimension` | utils.py:15 | a category list that holds "All" restricts nothing, whatever else it lists |
| `Utils.EmptyCriterionEmptiesView` | utils.py:15-22 | an empty criterion list yields an empty view |
| `Utils.KeepAccepted` | utils.py:11-24 | the one-pass reference filter keeps exactly the rows whose task passes all three criteria, never more rows |
| `Utils.FilterIsOnePass` | utils.py:15-22 | the three successive stages equal the one-pass reference filter on the labelled collection |
| `Utils.DefaultFiltersListEverything` | main.py:63-87 | with the filters' default selection ("All" each) every task is listed, in order |
| `DataHandler.SetStatus` | data_handler.py:30 | row idx gets the new status, every other field of the row and every other row are unchanged, the length is unchanged |
| `DataHandler.SetStatusUnchanged` | data_handler.py:30 | setting a row to the status it already has leaves the collection unchanged |
| `DataHandler.SetStatusTwice` | data_handler.py:30 | two updates of one row: the later one wins |
| `DataHandler.TaskStore.Missing` | data_handler.py:9-14 | a store with no task file loads as the empty collection |
| `DataHandler.TaskStore.Existing` | data_handler.py:9-10 | a store whose file holds a collection loads as that collection |
| `DataHandler.TaskStore.LoadTasks` | data_handler.py:7-14 | returns the file's collection, or the empty collection when no file exists |
| `DataHandler.TaskStore.SaveTasks` | data_handler.py:16-19 | the file then holds exactly the given collection, and that same collection is returned |
| `DataHandler.TaskStore.AddTask` | data_handler.py:21-25 | the stored collection grows by one; the new task is last under label n; earlier tasks are unchanged; the returned value is the new stored state |
| `DataHandler.TaskStore.UpdateTaskStatus` | data_handler.py:27-31 | for idx within the collection, the stored collection becomes the old one with only row idx's status replaced; the returned value is the new stored state |
| `Visualizations.Occurrences` | visualizations.py:40 | the count is at most the length, and is 0 exactly when the value does not occur |
| `Visualizations.OccurrencesAll` | visualizations.py:40 | the count equals the length exactly when every entry is the value |
| `Visualizations.Distinct` | visualizations.py:7 | lists each value of the column exactly once |
| `Visualizations.ValueCounts` | visualizations.py:7 | the table's keys are exactly the values present; each entry is that value's number of rows, positive and at most the size |
| `Visualizations.ValueCountsTotal` | visualizations.py:7 | the table's entries, one per distinct value, sum to the number of rows |
| `Visualizations.CategoryCounts` | visualizations.py:7 | the keys are exactly the categories some task has; each entry is that category's number of tasks, positive and at most the collection's size |
| `Visualizations.CategoryCountsTotal` | visualizations.py:7 | each category's count is its number of tasks, and the counts sum to the collection's size |
| `Visualizations.PriorityCounts` | visualizations.py:20 | the keys are exactly the priorities some task has; each entry is that priority's number of tasks, positive and at most the collection's size |
| `Visualizations.PriorityCountsTotal` | visualizations.py:20 | each priority's count is its number of tasks, and the counts sum to the collection's size |
| `Visualizations.CompletedCount` | visualizations.py:40 | the number of Completed tasks is at most the size, is 0 exactly when no task is Completed, and equals the size exactly when every task is |
| `Visualizations.Percent` | visualizations.py:40 | the percentage p of a whole w satisfies p × w = 100 × part, lies in [0, 100], is 100 exactly when part = whole and 0 exactly when part = 0 |
| `Visualizations.CompletionRate` | visualizations.py:39-42 | 0 for an empty collection with no division; otherwise the percentage of Completed tasks; always within the gauge's range [0, 100]; 100 for a non-empty collection exactly when every task is Completed; 0 exactly when no task is Completed |
| `Main.IndexOf` | main.py:98 | the list lookup: fails exactly when the value is absent; otherwise gives the first position holding the value |
| `Main.StatusSelectorIndex` | main.py:96-98 | the selector starts at position 0, 1 or 2 for Pending, In Progress, Completed, and has no position for any other status |
| `Main.Selection` | main.py:95-101 | a row's selector holds the user's pick when there is one and the row's listed status otherwise; with valid picks and a known status it holds one of the three options |
| `Main.PendingPrefix` | main.py:90-133 | the number of leading rows listed as Pending; the row after them, if any, is not listed as Pending |
| `Main.PendingPrefixPending` | main.py:90-133 | every row before that point is listed as Pending |
| `Main.Reached` | main.py:90-133 | the rows whose selector step runs: all of the leading Pending rows, plus the first other row when its status has a selector position, and no more |
| `Main.Dispatched` | main.py:90-103 | the collection after the selector steps of the given rows, in order: the length is unchanged and every row no step names is untouched |
| `Main.DispatchedEffect` | main.py:90-103 | after the pass over a view in label order, each listed row has the status its selector holds and all other fields unchanged; unlisted rows are untouched; the length is unchanged |
| `Main.DispatchedUntouched` | main.py:102 | when no selector was changed, no update is issued and the collection is unchanged |
| `Main.DispatchedKeepsKnown` | main.py:95-103 | with every stored status and every selector among the three options, the pass leaves every status among them |
| `Main.KnownStatusesReachAll` | main.py:96-98 | when every stored status is one of the options, the lookup never fails: the pass runs to the end or ends right after the first row not listed as Pending |
| `Main.TimedRowEndsPass` | main.py:90-131 | in any view in label order, a row listed as In Progress or Completed with only Pending rows before it is the last row the pass reaches, and after the pass every later row, whatever its selector holds, keeps its task |
| `Main.DispatchOutcome` | main.py:82-103 | the same effect for the rows of the filtered view the pass reaches, addressed by their original labels |
| `Main.DispatchWithoutPicks` | main.py:82-103 | filtering and dispatching with no selector touched leaves the collection unchanged |
| `Main.App.constructor` | main.py:15-17 | the first run loads the stored collection into the session |
| `Main.App.SubmitNewTask` | main.py:38-52 | an empty name gives the error notice and changes nothing; otherwise exactly one Pending task built from the form is appended, its category and priority among the form's options, and the session equals the store; statuses that were all known stay known |
| `Main.App.VisitRow` | main.py:95-103 | one row's selector: the lookup fails exactly for a status with no position, and then nothing changes; otherwise the row its label names is updated exactly when the selector holds another status |
| `Main.App.DispatchRows` | main.py:90-133 | the store and session end as `Dispatched` over the rows `Reached` names; `ok` is true exactly when every listed row is Pending, so the pass ran through the whole view; the session equals the store |
| `Main.App.DispatchStatusChanges` | main.py:82-133 | filters the session's collection, then dispatches over the view; the labels of the view index the stored collection; statuses that were all known stay known |

## Left out

- The page layout, widgets, HTML markup and the script-rerun behaviour are UI only. The form fields and the selector values are parameters instead.
- Chart construction and rendering are calls into a plotting library. Only the numbers behind the charts are modelled.
- Reading and writing the CSV file, and its date parsing, are file I/O. The file is the `file` field holding a task sequence, and due date and creation time are plain strings.
- The wall clock (the creation timestamp, the elapsed-time and time-spent display) is nondeterministic. The timestamp is the `now` parameter.
- The `started_at`, `completed_at` and `time_spent` columns are only read by the display code, and nothing in the code sets them. They are not fields of `Task`.
- DataHandler.TaskStore.UpdateTaskStatus: an index outside the collection is excluded by a precondition. The table library would silently add a new row for such a label, and that behaviour is not modelled.
- Visualizations.ValueCounts: the library orders its counts by frequency. The model is a map, so it keeps the counts and not that order, which only affects how the charts are drawn.
- Visualizations.CompletionRate: the source computes the rate in floating point. The model uses exact reals, so rounding is not modelled.
- The filter works on a copy, so its input is never modified. In the model this holds automatically, because sequences are values.
- The charts are drawn from the filtered view. Applying the aggregates to that view means applying them to `TasksOf(view)`.
- Main.App.DispatchRows: an error that ends the page run is modelled as stopping the pass with `ok == false`; updates issued before it stay stored. Two errors end it: a status with no selector position fails the lookup before that row's selector, and a row listed as In Progress or Completed reads a time column the task file does not have, right after that row's own update. The model assumes the file holds only the seven columns this code writes; a file that also had the time columns would let the pass go on past such rows, and that case is not modelled.
- Main.App.DispatchRows: the selector values are constrained to the three options (`ValidPicks`), as the widget allows nothing else.
- Empty cells read back from the file (missing values) are not modelled. Every field is a string.
