/**
 * The priority colour lookup and the task filter. The filter narrows a
 * labelled copy of the collection in three successive stages, one per
 * dimension, each stage keeping the rows whose value is in that dimension's
 * accepted list; a list that holds the sentinel "All" switches its stage off.
 */
module Utils {
  import opened Tasks

  /** The sentinel that disables one dimension of the filter. */
  const AllValues: string := "All"

  /** Colour codes of the four priority levels. */
  const PriorityColors: map<string, string> :=
    map["Urgent" := "#ff4b4b", "High" := "#ffa07a", "Normal" := "#90ee90", "Low" := "#add8e6"]

  /** The colour used for any priority that has no entry. */
  const DefaultColor: string := "#000000"

  /** A total lookup: a known level gets its colour, anything else the default. */
  function PriorityColor(priority: string): (color: string)
    ensures priority in PriorityColors ==> color == PriorityColors[priority]
    ensures color == DefaultColor <==> priority !in PriorityColors
  {
    if priority in PriorityColors then PriorityColors[priority] else DefaultColor
  }

  /** The four levels are told apart: no two of them share a colour. */
  lemma PriorityColorsDistinct(p: string, q: string)
    requires p in PriorityColors && q in PriorityColors && p != q
    ensures PriorityColor(p) != PriorityColor(q)
  {
  }

  /** One stage's mask: a value passes when the sentinel or the value itself is listed. */
  predicate Passes(value: string, accepted: seq<string>)
  {
    AllValues in accepted || value in accepted
  }

  /** All three criteria hold of the task. */
  predicate Accepts(t: Task, categories: seq<string>, priorities: seq<string>, statuses: seq<string>)
  {
    Passes(t.category, categories) && Passes(t.priority, priorities) && Passes(t.status, statuses)
  }

  /** The rows whose value in dimension `d` is a member of `accepted`, in their order. */
  function Where(rows: seq<Row>, d: Dimension, accepted: seq<string>): (kept: seq<Row>)
    ensures |kept| <= |rows|
    ensures forall r :: r in kept <==> r in rows && FieldOf(r.task, d) in accepted
    ensures Increasing(rows) ==> Increasing(kept)
  {
    if rows == [] then []
    else
      var rest := Where(rows[1..], d, accepted);
      assert forall r :: r in rows[1..] ==> r in rows;
      if FieldOf(rows[0].task, d) in accepted then [rows[0]] + rest else rest
  }

  /** One stage of the filter: skipped when the sentinel is listed. */
  function Narrow(rows: seq<Row>, d: Dimension, accepted: seq<string>): (narrowed: seq<Row>)
    ensures AllValues in accepted ==> narrowed == rows
    ensures |narrowed| <= |rows|
    ensures forall r :: r in narrowed <==> r in rows && Passes(FieldOf(r.task, d), accepted)
    ensures Increasing(rows) ==> Increasing(narrowed)
  {
    if AllValues in accepted then rows else Where(rows, d, accepted)
  }

  /**
   * The filter: a labelled copy of the collection, narrowed by category, then
   * by priority, then by status. The result is a subsequence of the
   * collection in its order, each row under its original label, and it holds
   * exactly the tasks that pass all three criteria.
   */
  function FilterTasks(tasks: seq<Task>, categories: seq<string>, priorities: seq<string>, statuses: seq<string>): (view: seq<Row>)
    ensures |view| <= |tasks|
    ensures Increasing(view)
    ensures LabelsIndex(tasks, view)
    ensures forall i :: 0 <= i < |tasks| ==>
              (Row(i, tasks[i]) in view <==> Accepts(tasks[i], categories, priorities, statuses))
  {
    var all := Labelled(tasks);
    assert forall r: Row :: r in all <==> r.idx < |tasks| && r == Row(r.idx, tasks[r.idx]) by {
      forall r | r in all ensures r.idx < |tasks| && r == Row(r.idx, tasks[r.idx]) {
        var k :| 0 <= k < |all| && all[k] == r;
      }
      forall r: Row | r.idx < |tasks| && r == Row(r.idx, tasks[r.idx]) ensures r in all {
        assert all[r.idx] == r;
      }
    }
    Narrow(Narrow(Narrow(all, Category, categories), Priority, priorities), Status, statuses)
  }

  /** With the sentinel in every list the view is the whole collection, in order. */
  lemma FilterAllSentinels(tasks: seq<Task>, categories: seq<string>, priorities: seq<string>, statuses: seq<string>)
    requires AllValues in categories && AllValues in priorities && AllValues in statuses
    ensures FilterTasks(tasks, categories, priorities, statuses) == Labelled(tasks)
  {
  }

  /** The default selection of the three filter widgets lists every task. */
  lemma DefaultFiltersListEverything(tasks: seq<Task>)
    ensures TasksOf(FilterTasks(tasks, [AllValues], [AllValues], [AllValues])) == tasks
  {
    FilterAllSentinels(tasks, [AllValues], [AllValues], [AllValues]);
    TasksOfLabelled(tasks);
  }

  /** A list holding the sentinel restricts nothing, whatever else it lists. */
  lemma SentinelSkipsDimension(tasks: seq<Task>, categories: seq<string>, priorities: seq<string>, statuses: seq<string>)
    requires AllValues in categories
    ensures FilterTasks(tasks, categories, priorities, statuses) == FilterTasks(tasks, [AllValues], priorities, statuses)
  {
  }

  /** An empty list lacks the sentinel and accepts nothing: the view is empty. */
  lemma EmptyCriterionEmptiesView(tasks: seq<Task>, categories: seq<string>, priorities: seq<string>, statuses: seq<string>)
    requires categories == [] || priorities == [] || statuses == []
    ensures FilterTasks(tasks, categories, priorities, statuses) == []
  {
    var all := Labelled(tasks);
    var byCategory := Narrow(all, Category, categories);
    var byPriority := Narrow(byCategory, Priority, priorities);
    WhereNothing(all, Category);
    WhereNothing(byCategory, Priority);
    WhereNothing(byPriority, Status);
  }

  lemma {:induction false} WhereNothing(rows: seq<Row>, d: Dimension)
    ensures Where(rows, d, []) == []
  {
    if rows != [] {
      WhereNothing(rows[1..], d);
    }
  }

  /**
   * A reference definition of the filter: one pass over the rows keeping
   * those that pass all three criteria.
   */
  function KeepAccepted(rows: seq<Row>, categories: seq<string>, priorities: seq<string>, statuses: seq<string>): (kept: seq<Row>)
    ensures |kept| <= |rows|
    ensures forall r :: r in kept <==> r in rows && Accepts(r.task, categories, priorities, statuses)
  {
    if rows == [] then []
    else
      assert forall r :: r in rows[1..] ==> r in rows;
      (if Accepts(rows[0].task, categories, priorities, statuses) then [rows[0]] else [])
      + KeepAccepted(rows[1..], categories, priorities, statuses)
  }

  lemma {:induction false} NarrowCons(r: Row, rows: seq<Row>, d: Dimension, accepted: seq<string>)
    ensures Narrow([r] + rows, d, accepted)
         == (if Passes(FieldOf(r.task, d), accepted) then [r] else []) + Narrow(rows, d, accepted)
  {
    assert ([r] + rows)[1..] == rows;
  }

  lemma {:induction false} StagesAreOnePass(rows: seq<Row>, categories: seq<string>, priorities: seq<string>, statuses: seq<string>)
    ensures Narrow(Narrow(Narrow(rows, Category, categories), Priority, priorities), Status, statuses)
         == KeepAccepted(rows, categories, priorities, statuses)
  {
    if rows != [] {
      var r, rest := rows[0], rows[1..];
      assert rows == [r] + rest;
      StagesAreOnePass(rest, categories, priorities, statuses);
      var c := Narrow(rest, Category, categories);
      var p := Narrow(c, Priority, priorities);
      NarrowCons(r, rest, Category, categories);
      if Passes(r.task.category, categories) {
        NarrowCons(r, c, Priority, priorities);
        if Passes(r.task.priority, priorities) {
          NarrowCons(r, p, Status, statuses);
        } else {
          assert [] + p == p;
        }
      } else {
        assert [] + c == c;
      }
    }
  }

  /** The three-stage filter equals the one-pass reference filter on the labelled collection. */
  lemma FilterIsOnePass(tasks: seq<Task>, categories: seq<string>, priorities: seq<string>, statuses: seq<string>)
    ensures FilterTasks(tasks, categories, priorities, statuses)
         == KeepAccepted(Labelled(tasks), categories, priorities, statuses)
  {
    StagesAreOnePass(Labelled(tasks), categories, priorities, statuses);
  }
}
