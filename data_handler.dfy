/**
 * The task store. The store object stands for the task file: `file` is None
 * while no file exists and otherwise holds the collection last written. Every
 * change is a full round trip: load the stored collection, change it, write
 * all of it back, and hand back what was written.
 */
module DataHandler {
  import opened Tasks

  /** The collection with the status of row `idx` replaced and nothing else touched. */
  function SetStatus(tasks: seq<Task>, idx: nat, status: string): (updated: seq<Task>)
    requires idx < |tasks|
    ensures |updated| == |tasks|
    ensures updated[idx].status == status
    ensures updated[idx] == tasks[idx].(status := status)
    ensures forall i :: 0 <= i < |tasks| && i != idx ==> updated[i] == tasks[i]
  {
    tasks[idx := tasks[idx].(status := status)]
  }

  /** Setting a row to the status it already has changes nothing. */
  lemma SetStatusUnchanged(tasks: seq<Task>, idx: nat, status: string)
    requires idx < |tasks| && tasks[idx].status == status
    ensures SetStatus(tasks, idx, status) == tasks
  {
  }

  /** Two updates of the same row: the later one wins. */
  lemma SetStatusTwice(tasks: seq<Task>, idx: nat, first: string, second: string)
    requires idx < |tasks|
    ensures SetStatus(SetStatus(tasks, idx, first), idx, second) == SetStatus(tasks, idx, second)
  {
  }

  class TaskStore {
    /** The task file: None when it does not exist. */
    var file: Option<seq<Task>>

    /** A store with no task file yet. */
    constructor Missing()
      ensures file == None
      ensures Stored() == []
    {
      file := None;
    }

    /** A store whose task file holds `contents`. */
    constructor Existing(contents: seq<Task>)
      ensures file == Some(contents)
      ensures Stored() == contents
    {
      file := Some(contents);
    }

    /** What loading yields: the file's collection, or the empty collection when there is no file. */
    function Stored(): seq<Task>
      reads this
    {
      match file
      case None => []
      case Some(contents) => contents
    }

    method LoadTasks() returns (tasks: seq<Task>)
      ensures file.Some? ==> tasks == file.value
      ensures file.None? ==> tasks == []
      ensures tasks == Stored()
    {
      tasks := Stored();
    }

    /** Overwrites the whole file with `tasks` and returns exactly what it stored. */
    method SaveTasks(tasks: seq<Task>) returns (saved: seq<Task>)
      modifies this
      ensures file == Some(tasks)
      ensures saved == tasks && Stored() == saved
    {
      file := Some(tasks);
      saved := tasks;
    }

    /**
     * Appends one task to the stored collection and stores the result: one
     * row longer, the new task last under the next label, all earlier rows
     * unchanged; what is returned is the new stored state.
     */
    method AddTask(task: Task) returns (tasks: seq<Task>)
      modifies this
      ensures tasks == old(Stored()) + [task]
      ensures |tasks| == |old(Stored())| + 1 && tasks[|tasks| - 1] == task
      ensures forall i :: 0 <= i < |old(Stored())| ==> tasks[i] == old(Stored())[i]
      ensures Labelled(tasks) == Labelled(old(Stored())) + [Row(|old(Stored())|, task)]
      ensures file == Some(tasks) && Stored() == tasks
    {
      var loaded := LoadTasks();
      LabelledAppend(loaded, task);
      tasks := SaveTasks(loaded + [task]);
    }

    /**
     * Overwrites the status of row `idx` of the stored collection and stores
     * the result; every other field and every other row stay as they were,
     * and what is returned is the new stored state.
     */
    method UpdateTaskStatus(idx: nat, status: string) returns (tasks: seq<Task>)
      requires idx < |Stored()|
      modifies this
      ensures tasks == SetStatus(old(Stored()), idx, status)
      ensures file == Some(tasks) && Stored() == tasks
    {
      var loaded := LoadTasks();
      tasks := SaveTasks(SetStatus(loaded, idx, status));
    }
  }
}
