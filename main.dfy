/**
 * The two handlers of the tracker's page that decide something: submitting
 * the add-task form, and dispatching status changes made in the per-row
 * status selectors of the filtered list. The application state holds the
 * session's copy of the collection and the store it came from; every handler
 * replaces the session copy with what the store returned, so the two never
 * drift apart, and a row label taken from the filtered view names the same
 * row of the stored collection.
 */
module Main {
  import opened Tasks
  import opened Utils
  import opened DataHandler

  /** The options of the form's category selector. */
  const CategoryOptions: seq<string> := ["Work", "Personal", "Shopping", "Health", "Other"]

  /** The options of the form's priority selector. */
  const PriorityOptions: seq<string> := ["Urgent", "High", "Normal", "Low"]

  /** The options of each row's status selector, in selector order. */
  const StatusOptions: seq<string> := [Pending, InProgress, Completed]

  const TaskAdded: string := "Task added successfully!"
  const NameRequired: string := "Task name is required!"

  /** The message the add-task form shows. */
  datatype Notice = Success(message: string) | Error(message: string)

  /** The position of the first `v` in `xs`, or None where the lookup would fail. */
  function IndexOf(xs: seq<string>, v: string): (found: Option<nat>)
    ensures found.None? <==> v !in xs
    ensures found.Some? ==> found.value < |xs| && xs[found.value] == v && v !in xs[..found.value]
  {
    if xs == [] then None
    else if xs[0] == v then Some(0)
    else
      match IndexOf(xs[1..], v)
      case None => None
      case Some(i) =>
        assert xs[..i + 1] == [xs[0]] + xs[1..][..i];
        Some(i + 1)
  }

  /**
   * The status selector starts at the position of the task's status among
   * the three options; a status outside them has no position.
   */
  lemma StatusSelectorIndex(status: string)
    ensures IndexOf(StatusOptions, status).Some? <==> status in StatusOptions
    ensures status == Pending ==> IndexOf(StatusOptions, status) == Some(0)
    ensures status == InProgress ==> IndexOf(StatusOptions, status) == Some(1)
    ensures status == Completed ==> IndexOf(StatusOptions, status) == Some(2)
  {
  }

  /** Each selector can only hold one of its three options. */
  predicate ValidPicks(picks: map<nat, string>)
  {
    forall i :: i in picks ==> picks[i] in StatusOptions
  }

  /** Every task's status is one of the selector's options. */
  predicate KnownStatuses(tasks: seq<Task>)
  {
    forall i :: 0 <= i < |tasks| ==> tasks[i].status in StatusOptions
  }

  /** What a row's status selector holds: the user's pick for that row, else the row's status. */
  function Selection(row: Row, picks: map<nat, string>): (chosen: string)
    ensures row.idx !in picks ==> chosen == row.task.status
    ensures row.idx in picks ==> chosen == picks[row.idx]
    ensures ValidPicks(picks) && row.task.status in StatusOptions ==> chosen in StatusOptions
  {
    if row.idx in picks then picks[row.idx] else row.task.status
  }

  /** The number of leading rows listed as Pending. */
  function PendingPrefix(rows: seq<Row>): (n: nat)
    ensures n <= |rows|
    ensures n < |rows| ==> rows[n].task.status != Pending
  {
    if rows == [] || rows[0].task.status != Pending then 0
    else 1 + PendingPrefix(rows[1..])
  }

  /** Every row before the first one not listed as Pending is listed as Pending. */
  lemma {:induction false} PendingPrefixPending(rows: seq<Row>, k: nat)
    requires k < PendingPrefix(rows)
    ensures rows[k].task.status == Pending
  {
    if k > 0 {
      PendingPrefixPending(rows[1..], k - 1);
    }
  }

  /** A row not listed as Pending, with only Pending rows before it, ends the Pending prefix. */
  lemma {:induction false} PendingPrefixAt(rows: seq<Row>, k: nat)
    requires k <= PendingPrefix(rows) && k < |rows| && rows[k].task.status != Pending
    ensures PendingPrefix(rows) == k
  {
    if k > 0 {
      PendingPrefixAt(rows[1..], k - 1);
    }
  }

  /** A row listed as Pending, with only Pending rows before it, extends the Pending prefix. */
  lemma {:induction false} PendingPrefixExtends(rows: seq<Row>, k: nat)
    requires k <= PendingPrefix(rows) && k < |rows| && rows[k].task.status == Pending
    ensures k + 1 <= PendingPrefix(rows)
  {
    if k > 0 {
      PendingPrefixExtends(rows[1..], k - 1);
    }
  }

  /** The two options other than Pending are the statuses that have a time column. */
  lemma TimedStatuses(status: string)
    ensures status == Completed || status == InProgress <==> status in StatusOptions && status != Pending
    ensures Pending in StatusOptions
  {
  }

  /**
   * The number of rows whose selector step runs before the pass ends. The
   * pass ends at the first row not listed as Pending: before that row's
   * selector, when its status has no selector position; right after that
   * row's own update otherwise, because the time column of a row listed as
   * In Progress or Completed reads a column the task file does not have.
   */
  function Reached(rows: seq<Row>): (n: nat)
    ensures PendingPrefix(rows) <= n <= |rows|
    ensures n <= PendingPrefix(rows) + 1
    ensures n == PendingPrefix(rows) + 1 <==> PendingPrefix(rows) < |rows| && rows[PendingPrefix(rows)].task.status in StatusOptions
  {
    var p := PendingPrefix(rows);
    if p < |rows| && rows[p].task.status in StatusOptions then p + 1 else p
  }

  predicate LabelsBelow(rows: seq<Row>, n: nat)
  {
    forall k :: 0 <= k < |rows| ==> rows[k].idx < n
  }

  /**
   * The collection after the rows of the view are visited in order, each
   * row whose selector differs from the status it was listed with causing
   * an update of the row its label names.
   */
  function Dispatched(tasks: seq<Task>, rows: seq<Row>, picks: map<nat, string>): (result: seq<Task>)
    requires LabelsBelow(rows, |tasks|)
    ensures |result| == |tasks|
    ensures forall i :: 0 <= i < |tasks| && Unlisted(rows, i) ==> result[i] == tasks[i]
  {
    if rows == [] then tasks
    else
      var last := rows[|rows| - 1];
      assert forall i :: Unlisted(rows, i) ==> Unlisted(rows[..|rows| - 1], i);
      var before := Dispatched(tasks, rows[..|rows| - 1], picks);
      var chosen := Selection(last, picks);
      if chosen != last.task.status then SetStatus(before, last.idx, chosen) else before
  }

  /** No row of the view carries label `i`. */
  predicate Unlisted(rows: seq<Row>, i: nat)
  {
    forall k :: 0 <= k < |rows| ==> rows[k].idx != i
  }

  /**
   * Dispatching over a view in collection order: each listed row ends with
   * the status its selector holds and every other field as it was, and
   * every row not listed is left alone.
   */
  lemma {:induction false} DispatchedEffect(tasks: seq<Task>, rows: seq<Row>, picks: map<nat, string>)
    requires Increasing(rows) && LabelsIndex(tasks, rows)
    ensures LabelsBelow(rows, |tasks|)
    ensures |Dispatched(tasks, rows, picks)| == |tasks|
    ensures forall k :: 0 <= k < |rows| ==>
              Dispatched(tasks, rows, picks)[rows[k].idx] == tasks[rows[k].idx].(status := Selection(rows[k], picks))
    ensures forall i :: 0 <= i < |tasks| && Unlisted(rows, i) ==> Dispatched(tasks, rows, picks)[i] == tasks[i]
  {
    LabelsIndexBelow(tasks, rows);
    if rows != [] {
      var n := |rows| - 1;
      var front, last := rows[..n], rows[n];
      SplitLast(tasks, rows);
      DispatchedEffect(tasks, front, picks);
      var before := Dispatched(tasks, front, picks);
      var after := Dispatched(tasks, rows, picks);
      LastStep(tasks, rows, picks);
      forall i | 0 <= i < |tasks| && Unlisted(rows, i) ensures after[i] == tasks[i] {
        assert rows[n].idx != i;
        assert Unlisted(front, i) by {
          forall k | 0 <= k < n ensures front[k].idx != i {
            assert front[k] == rows[k];
          }
        }
      }
      forall k | 0 <= k < n
        ensures after[rows[k].idx] == tasks[rows[k].idx].(status := Selection(rows[k], picks))
      {
        assert rows[k] == front[k];
        assert rows[k].idx < last.idx;
      }
    }
  }

  /** The view without its last row keeps the view's properties and does not list the last label. */
  lemma SplitLast(tasks: seq<Task>, rows: seq<Row>)
    requires Increasing(rows) && LabelsIndex(tasks, rows) && rows != []
    ensures Increasing(rows[..|rows| - 1]) && LabelsIndex(tasks, rows[..|rows| - 1])
    ensures Unlisted(rows[..|rows| - 1], rows[|rows| - 1].idx)
    ensures rows[|rows| - 1].idx < |tasks| && rows[|rows| - 1].task == tasks[rows[|rows| - 1].idx]
  {
    var front := rows[..|rows| - 1];
    assert forall r :: r in front ==> r in rows;
    assert rows[|rows| - 1] in rows;
  }

  /** The last row's own effect, on top of what the earlier rows did. */
  lemma LastStep(tasks: seq<Task>, rows: seq<Row>, picks: map<nat, string>)
    requires LabelsBelow(rows, |tasks|) && rows != []
    requires rows[|rows| - 1].task == tasks[rows[|rows| - 1].idx]
    requires Dispatched(tasks, rows[..|rows| - 1], picks)[rows[|rows| - 1].idx] == tasks[rows[|rows| - 1].idx]
    ensures var last := rows[|rows| - 1];
            var before := Dispatched(tasks, rows[..|rows| - 1], picks);
            var after := Dispatched(tasks, rows, picks);
            && after[last.idx] == tasks[last.idx].(status := Selection(last, picks))
            && forall i :: 0 <= i < |tasks| && i != last.idx ==> after[i] == before[i]
  {
  }

  lemma LabelsIndexBelow(tasks: seq<Task>, rows: seq<Row>)
    requires LabelsIndex(tasks, rows)
    ensures LabelsBelow(rows, |tasks|)
  {
    assert forall k :: 0 <= k < |rows| ==> rows[k] in rows;
  }

  /** With no selector touched, dispatching changes nothing. */
  lemma {:induction false} DispatchedUntouched(tasks: seq<Task>, rows: seq<Row>)
    requires LabelsIndex(tasks, rows)
    ensures LabelsBelow(rows, |tasks|)
    ensures Dispatched(tasks, rows, map[]) == tasks
  {
    assert forall k :: 0 <= k < |rows| ==> rows[k] in rows;
    if rows != [] {
      var front := rows[..|rows| - 1];
      assert forall r :: r in front ==> r in rows;
      DispatchedUntouched(tasks, front);
    }
  }

  /** The page's state: the session's collection and the task store behind it. */
  class App {
    var store: TaskStore
    var tasks: seq<Task>

    /** The session's collection is the stored one. */
    ghost predicate Valid()
      reads this, store
    {
      tasks == store.Stored()
    }

    /** The first run of the page loads the collection into the session. */
    constructor (store: TaskStore)
      ensures this.store == store && tasks == store.Stored()
      ensures Valid()
    {
      var loaded := store.LoadTasks();
      this.store := store;
      tasks := loaded;
    }

    /**
     * The add-task button: an empty name is refused with an error and
     * nothing changes; otherwise exactly one task built from the form, with
     * status Pending, is appended to the stored collection and the session
     * takes the result.
     */
    method SubmitNewTask(name: string, category: string, priority: string, dueDate: string,
                         description: string, now: string) returns (notice: Notice)
      requires Valid()
      requires category in CategoryOptions && priority in PriorityOptions
      modifies this, store
      ensures Valid() && store == old(store)
      ensures name == "" ==> notice == Error(NameRequired) && tasks == old(tasks) && store.file == old(store.file)
      ensures name != "" ==> notice == Success(TaskAdded)
      ensures name != "" ==> tasks == old(tasks) + [Task(name, category, priority, dueDate, description, Pending, now)]
      ensures name != "" ==> (tasks[|tasks| - 1].status == Pending
                              && tasks[|tasks| - 1].category in CategoryOptions
                              && tasks[|tasks| - 1].priority in PriorityOptions)
      ensures KnownStatuses(old(tasks)) ==> KnownStatuses(tasks)
    {
      if name != "" {
        var task := Task(name, category, priority, dueDate, description, Pending, now);
        tasks := store.AddTask(task);
        notice := Success(TaskAdded);
      } else {
        notice := Error(NameRequired);
      }
    }

    /**
     * Filtering the session's collection and then dispatching the status
     * changes of the listed rows.
     */
    method DispatchStatusChanges(categories: seq<string>, priorities: seq<string>, statuses: seq<string>,
                                 picks: map<nat, string>) returns (ok: bool)
      requires Valid()
      requires ValidPicks(picks)
      modifies this, store
      ensures Valid() && store == old(store)
      ensures var view := FilterTasks(old(tasks), categories, priorities, statuses);
              && LabelsBelow(view, |old(tasks)|)
              && (ok <==> PendingPrefix(view) == |view|)
              && tasks == Dispatched(old(tasks), view[..Reached(view)], picks)
      ensures KnownStatuses(old(tasks)) ==> KnownStatuses(tasks)
    {
      var view := FilterTasks(tasks, categories, priorities, statuses);
      LabelsIndexBelow(tasks, view);
      ok := DispatchRows(view, picks);
      PrefixLabelsIndex(old(tasks), view, Reached(view));
      DispatchedKeepsKnown(old(tasks), view[..Reached(view)], picks);
    }

    /**
     * One row's status selector: it starts at the position of the status the
     * row was listed with, and when it holds another status, the row its label
     * names is updated in the store and the session takes the result. A
     * status with no selector position fails the lookup: `known` is false and
     * nothing changes.
     */
    method VisitRow(row: Row, picks: map<nat, string>) returns (known: bool)
      requires Valid() && row.idx < |tasks|
      modifies this, store
      ensures Valid() && store == old(store)
      ensures known <==> row.task.status in StatusOptions
      ensures !known ==> tasks == old(tasks)
      ensures known ==> tasks == if Selection(row, picks) != row.task.status
                                 then SetStatus(old(tasks), row.idx, Selection(row, picks))
                                 else old(tasks)
    {
      var current := IndexOf(StatusOptions, row.task.status);
      if current.None? {
        return false;
      }
      var status := if row.idx in picks then picks[row.idx] else StatusOptions[current.value];
      if status != row.task.status {
        tasks := store.UpdateTaskStatus(row.idx, status);
      }
      return true;
    }

    /**
     * The list of rows, visited in order: each row's selector starts at the
     * position of the row's status; where it now holds another status, that
     * row, named by its original label, is updated in the store and the
     * session takes the result. A row whose status is not one of the three
     * options stops the pass before its selector (the position lookup fails
     * there); a row listed as In Progress or Completed stops it right after
     * its own update (its time column reads a column the task file does not
     * have). `ok` is false exactly when the pass stopped.
     */
    method DispatchRows(view: seq<Row>, picks: map<nat, string>) returns (ok: bool)
      requires Valid()
      requires LabelsBelow(view, |tasks|)
      requires ValidPicks(picks)
      modifies this, store
      ensures Valid() && store == old(store)
      ensures ok <==> PendingPrefix(view) == |view|
      ensures tasks == Dispatched(old(tasks), view[..Reached(view)], picks)
    {
      ghost var start := tasks;
      var k := 0;
      ok := true;
      while ok && k < |view|
        invariant 0 <= k <= |view|
        invariant store == old(store) && Valid()
        invariant ok ==> k <= PendingPrefix(view)
        invariant !ok ==> PendingPrefix(view) < |view| && k == Reached(view)
        invariant tasks == Dispatched(start, view[..k], picks)
        decreases |view| - k, ok
      {
        var row := view[k];
        DispatchedStep(start, view, k, picks);
        TimedStatuses(row.task.status);
        var known := VisitRow(row, picks);
        if !known {
          PendingPrefixAt(view, k);
          ok := false;
        } else {
          if row.task.status == Completed || row.task.status == InProgress {
            PendingPrefixAt(view, k);
            ok := false;
          } else {
            PendingPrefixExtends(view, k);
          }
          k := k + 1;
        }
      }
    }
  }

  lemma DispatchedStep(tasks: seq<Task>, rows: seq<Row>, k: nat, picks: map<nat, string>)
    requires LabelsBelow(rows, |tasks|) && k < |rows|
    ensures LabelsBelow(rows[..k], |tasks|) && LabelsBelow(rows[..k + 1], |tasks|)
    ensures var before := Dispatched(tasks, rows[..k], picks);
            var chosen := Selection(rows[k], picks);
            Dispatched(tasks, rows[..k + 1], picks)
              == if chosen != rows[k].task.status then SetStatus(before, rows[k].idx, chosen) else before
  {
    assert rows[..k + 1][..k] == rows[..k];
  }

  lemma PrefixLabelsIndex(tasks: seq<Task>, rows: seq<Row>, k: nat)
    requires LabelsIndex(tasks, rows) && k <= |rows|
    ensures LabelsIndex(tasks, rows[..k]) && LabelsBelow(rows[..k], |tasks|)
  {
    assert forall r :: r in rows[..k] ==> r in rows;
    LabelsIndexBelow(tasks, rows[..k]);
  }

  /**
   * With every stored status and every selector among the three options,
   * the dispatch writes only those options back.
   */
  lemma {:induction false} DispatchedKeepsKnown(tasks: seq<Task>, rows: seq<Row>, picks: map<nat, string>)
    requires LabelsIndex(tasks, rows) && ValidPicks(picks)
    ensures LabelsBelow(rows, |tasks|)
    ensures KnownStatuses(tasks) ==> KnownStatuses(Dispatched(tasks, rows, picks))
  {
    LabelsIndexBelow(tasks, rows);
    if rows != [] && KnownStatuses(tasks) {
      var n := |rows| - 1;
      PrefixLabelsIndex(tasks, rows, n);
      DispatchedKeepsKnown(tasks, rows[..n], picks);
      assert rows[n] in rows;
      assert rows[n].task.status in StatusOptions;
      assert Selection(rows[n], picks) in StatusOptions;
    }
  }

  /**
   * With every stored status among the three options, the position lookup
   * never fails: the pass ends right after the first row not listed as
   * Pending, or runs through the whole view.
   */
  lemma KnownStatusesReachAll(tasks: seq<Task>, rows: seq<Row>)
    requires LabelsIndex(tasks, rows) && KnownStatuses(tasks)
    ensures Reached(rows) == if PendingPrefix(rows) < |rows| then PendingPrefix(rows) + 1 else |rows|
  {
    var p := PendingPrefix(rows);
    if p < |rows| {
      assert rows[p] in rows;
    }
  }

  /**
   * A row listed as In Progress or Completed, with only Pending rows before
   * it, ends the pass after its own step: no selector of a later row is acted
   * on, however it was changed.
   */
  lemma TimedRowEndsPass(tasks: seq<Task>, rows: seq<Row>, k: nat, picks: map<nat, string>)
    requires Increasing(rows) && LabelsIndex(tasks, rows)
    requires k < |rows| && k <= PendingPrefix(rows)
    requires rows[k].task.status == Completed || rows[k].task.status == InProgress
    ensures Reached(rows) == k + 1
    ensures LabelsBelow(rows[..k + 1], |tasks|)
    ensures forall j :: k < j < |rows| ==> Dispatched(tasks, rows[..k + 1], picks)[rows[j].idx] == tasks[rows[j].idx]
  {
    TimedStatuses(rows[k].task.status);
    PendingPrefixAt(rows, k);
    var front := rows[..k + 1];
    assert forall r :: r in front ==> r in rows;
    assert Increasing(front);
    DispatchedEffect(tasks, front, picks);
    forall j | k < j < |rows| ensures Dispatched(tasks, front, picks)[rows[j].idx] == tasks[rows[j].idx] {
      assert rows[j] in rows;
      assert Unlisted(front, rows[j].idx) by {
        forall i | 0 <= i < |front| ensures front[i].idx != rows[j].idx {
          assert front[i] == rows[i];
        }
      }
    }
  }

  /**
   * What the dispatch promises for the rows it reaches: each ends with the
   * status its selector holds, all its other fields unchanged, and every
   * row it does not reach keeps its task; the collection keeps its length.
   */
  lemma DispatchOutcome(tasks: seq<Task>, categories: seq<string>, priorities: seq<string>, statuses: seq<string>,
                        picks: map<nat, string>)
    ensures var view := FilterTasks(tasks, categories, priorities, statuses);
            var reached := view[..Reached(view)];
            && LabelsBelow(reached, |tasks|)
            && |Dispatched(tasks, reached, picks)| == |tasks|
            && (forall k :: 0 <= k < |reached| ==>
                  Dispatched(tasks, reached, picks)[reached[k].idx] == tasks[reached[k].idx].(status := Selection(reached[k], picks)))
            && (forall i :: 0 <= i < |tasks| && Unlisted(reached, i) ==> Dispatched(tasks, reached, picks)[i] == tasks[i])
  {
    var view := FilterTasks(tasks, categories, priorities, statuses);
    var reached := view[..Reached(view)];
    assert forall r :: r in reached ==> r in view;
    DispatchedEffect(tasks, reached, picks);
  }

  /** When no selector was touched, the dispatch leaves the collection as it was. */
  lemma DispatchWithoutPicks(tasks: seq<Task>, categories: seq<string>, priorities: seq<string>, statuses: seq<string>)
    ensures var view := FilterTasks(tasks, categories, priorities, statuses);
            var reached := view[..Reached(view)];
            && LabelsBelow(reached, |tasks|)
            && Dispatched(tasks, reached, map[]) == tasks
  {
    var view := FilterTasks(tasks, categories, priorities, statuses);
    var reached := view[..Reached(view)];
    assert forall r :: r in reached ==> r in view;
    DispatchedUntouched(tasks, reached);
  }
}
