/**
 * The task record shared by every part of the tracker, and the row labels a
 * filtered view keeps. A collection of tasks is a sequence; the label of a
 * task is its position, because every collection the tracker builds is
 * renumbered from 0 (a freshly read file, and a concatenation with
 * renumbering).
 */
module Tasks {

  datatype Option<+T> = None | Some(value: T)

  /** One tracked task; the seven fields are the seven columns of the task file. */
  datatype Task = Task(
    name: string,
    category: string,
    priority: string,
    dueDate: string,
    description: string,
    status: string,
    createdAt: string
  )

  /** The status of a newly added task. */
  const Pending: string := "Pending"

  /** The status of a task that has been started. */
  const InProgress: string := "In Progress"

  /** The status of a task that is done. */
  const Completed: string := "Completed"

  /** The three columns that the filter and the charts look at. */
  datatype Dimension = Category | Priority | Status

  function FieldOf(t: Task, d: Dimension): string
  {
    match d
    case Category => t.category
    case Priority => t.priority
    case Status => t.status
  }

  /** A task together with the row label it has in the collection it came from. */
  datatype Row = Row(idx: nat, task: Task)

  /** The collection with its row labels attached: the task at position i has label i. */
  function Labelled(tasks: seq<Task>): (rows: seq<Row>)
    ensures |rows| == |tasks|
    ensures forall i :: 0 <= i < |rows| ==> rows[i].idx == i && rows[i].task == tasks[i]
  {
    seq(|tasks|, i requires 0 <= i < |tasks| => Row(i, tasks[i]))
  }

  /** The tasks of a view, labels dropped. */
  function TasksOf(rows: seq<Row>): (tasks: seq<Task>)
    ensures |tasks| == |rows|
    ensures forall i :: 0 <= i < |rows| ==> tasks[i] == rows[i].task
  {
    seq(|rows|, i requires 0 <= i < |rows| => rows[i].task)
  }

  /** Labels strictly increase along the view: it is in the order of the collection. */
  predicate Increasing(rows: seq<Row>)
  {
    forall i, j :: 0 <= i < j < |rows| ==> rows[i].idx < rows[j].idx
  }

  /** Every row of the view is the row of `tasks` that its label names. */
  predicate LabelsIndex(tasks: seq<Task>, rows: seq<Row>)
  {
    forall r :: r in rows ==> r.idx < |tasks| && r.task == tasks[r.idx]
  }

  /**
   * Labelling a collection that had one task appended: the earlier rows keep
   * their labels and the new task gets the next label, so labels run 0..n
   * without a gap.
   */
  lemma LabelledAppend(tasks: seq<Task>, t: Task)
    ensures Labelled(tasks + [t]) == Labelled(tasks) + [Row(|tasks|, t)]
  {
    var l, r := Labelled(tasks + [t]), Labelled(tasks) + [Row(|tasks|, t)];
    assert |l| == |r|;
    forall i | 0 <= i < |l| ensures l[i] == r[i] {
      if i < |tasks| {
        assert (tasks + [t])[i] == tasks[i];
      }
    }
  }

  /** Stripping the labels of the labelled collection gives the collection back. */
  lemma TasksOfLabelled(tasks: seq<Task>)
    ensures TasksOf(Labelled(tasks)) == tasks
  {
  }
}
