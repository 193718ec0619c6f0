/**
 * The numbers behind the three charts: tasks per category, tasks per
 * priority, and the completion rate shown on a 0..100 gauge. Counts are
 * natural numbers and the rate is an exact real.
 */
module Visualizations {
  import opened Tasks

  /** One column of the collection, in row order. */
  function Column(tasks: seq<Task>, d: Dimension): (col: seq<string>)
    ensures |col| == |tasks|
    ensures forall i :: 0 <= i < |tasks| ==> col[i] == FieldOf(tasks[i], d)
  {
    seq(|tasks|, i requires 0 <= i < |tasks| => FieldOf(tasks[i], d))
  }

  /** How many entries of `xs` equal `v`. */
  function Occurrences(xs: seq<string>, v: string): (n: nat)
    ensures n <= |xs|
    ensures n == 0 <==> v !in xs
  {
    if xs == [] then 0
    else (if xs[0] == v then 1 else 0) + Occurrences(xs[1..], v)
  }

  /** Every entry equals `v` exactly when all of them are counted. */
  lemma {:induction false} OccurrencesAll(xs: seq<string>, v: string)
    ensures Occurrences(xs, v) == |xs| <==> forall i :: 0 <= i < |xs| ==> xs[i] == v
  {
    if xs != [] {
      OccurrencesAll(xs[1..], v);
      if xs[0] == v {
        assert forall i :: 1 <= i < |xs| ==> xs[i] == xs[1..][i - 1];
      }
    }
  }

  /** No value listed twice. */
  predicate NoDuplicates(xs: seq<string>)
  {
    forall i, j :: 0 <= i < j < |xs| ==> xs[i] != xs[j]
  }

  /** The distinct values of `xs`, each once. */
  function Distinct(xs: seq<string>): (ds: seq<string>)
    ensures NoDuplicates(ds)
    ensures forall v :: v in ds <==> v in xs
  {
    if xs == [] then []
    else
      var rest := Distinct(xs[1..]);
      if xs[0] in rest then rest else [xs[0]] + rest
  }

  /**
   * Each value of the column with the number of rows holding it, as a
   * value-count table: its keys are exactly the values that occur, and
   * every count is positive.
   */
  function ValueCounts(xs: seq<string>): (counts: map<string, nat>)
    ensures forall v :: v in counts <==> v in xs
    ensures forall v :: v in counts ==> counts[v] == Occurrences(xs, v) && 0 < counts[v] <= |xs|
  {
    map v | v in xs :: Occurrences(xs, v)
  }

  /** A value is in a column exactly when some task holds it in that field. */
  lemma ColumnValues(tasks: seq<Task>, d: Dimension)
    ensures forall v :: v in Column(tasks, d) <==> exists i :: 0 <= i < |tasks| && FieldOf(tasks[i], d) == v
  {
    var col := Column(tasks, d);
    forall v ensures v in col <==> exists i :: 0 <= i < |tasks| && FieldOf(tasks[i], d) == v {
      if v in col {
        var i :| 0 <= i < |col| && col[i] == v;
      }
      if exists i :: 0 <= i < |tasks| && FieldOf(tasks[i], d) == v {
        var i :| 0 <= i < |tasks| && FieldOf(tasks[i], d) == v;
        assert col[i] == v;
      }
    }
  }

  /** Tasks per category. */
  function CategoryCounts(tasks: seq<Task>): (counts: map<string, nat>)
    ensures forall c :: c in counts <==> exists i :: 0 <= i < |tasks| && tasks[i].category == c
    ensures forall c :: c in counts ==> counts[c] == Occurrences(Column(tasks, Category), c) && 0 < counts[c] <= |tasks|
  {
    ColumnValues(tasks, Category);
    ValueCounts(Column(tasks, Category))
  }

  /** Tasks per priority. */
  function PriorityCounts(tasks: seq<Task>): (counts: map<string, nat>)
    ensures forall p :: p in counts <==> exists i :: 0 <= i < |tasks| && tasks[i].priority == p
    ensures forall p :: p in counts ==> counts[p] == Occurrences(Column(tasks, Priority), p) && 0 < counts[p] <= |tasks|
  {
    ColumnValues(tasks, Priority);
    ValueCounts(Column(tasks, Priority))
  }

  /** The sum of the table's entries for `keys`. */
  function Total(counts: map<string, nat>, keys: seq<string>): (sum: nat)
    requires forall k :: k in keys ==> k in counts
  {
    if keys == [] then 0 else counts[keys[0]] + Total(counts, keys[1..])
  }

  /** The sum, over `keys`, of the occurrences of each key in `xs`. */
  function SumOccurrences(xs: seq<string>, keys: seq<string>): (sum: nat)
  {
    if keys == [] then 0 else Occurrences(xs, keys[0]) + SumOccurrences(xs, keys[1..])
  }

  lemma {:induction false} SumOccurrencesEmpty(keys: seq<string>)
    ensures SumOccurrences([], keys) == 0
  {
    if keys != [] {
      SumOccurrencesEmpty(keys[1..]);
    }
  }

  lemma {:induction false} SumOccurrencesCons(x: string, xs: seq<string>, keys: seq<string>)
    ensures SumOccurrences([x] + xs, keys) == Occurrences(keys, x) + SumOccurrences(xs, keys)
  {
    assert ([x] + xs)[1..] == xs;
    if keys != [] {
      SumOccurrencesCons(x, xs, keys[1..]);
    }
  }

  lemma {:induction false} OccursOnce(keys: seq<string>, x: string)
    requires NoDuplicates(keys) && x in keys
    ensures Occurrences(keys, x) == 1
  {
    if keys[0] != x {
      OccursOnce(keys[1..], x);
    } else {
      assert x !in keys[1..];
    }
  }

  /** Over keys that list every value once, the occurrences add up to the length. */
  lemma {:induction false} SumOverCoveringKeys(xs: seq<string>, keys: seq<string>)
    requires NoDuplicates(keys)
    requires forall v :: v in xs ==> v in keys
    ensures SumOccurrences(xs, keys) == |xs|
  {
    if xs == [] {
      SumOccurrencesEmpty(keys);
    } else {
      assert xs == [xs[0]] + xs[1..];
      SumOccurrencesCons(xs[0], xs[1..], keys);
      OccursOnce(keys, xs[0]);
      SumOverCoveringKeys(xs[1..], keys);
    }
  }

  lemma {:induction false} TotalIsSumOccurrences(xs: seq<string>, keys: seq<string>)
    requires forall k :: k in keys ==> k in xs
    ensures Total(ValueCounts(xs), keys) == SumOccurrences(xs, keys)
  {
    if keys != [] {
      TotalIsSumOccurrences(xs, keys[1..]);
    }
  }

  /** The value-count table's entries, each taken once, add up to the number of rows. */
  lemma ValueCountsTotal(xs: seq<string>)
    ensures Total(ValueCounts(xs), Distinct(xs)) == |xs|
  {
    TotalIsSumOccurrences(xs, Distinct(xs));
    SumOverCoveringKeys(xs, Distinct(xs));
  }

  /** Category counts: one entry per category present, summing to the collection's size. */
  lemma CategoryCountsTotal(tasks: seq<Task>)
    ensures forall c :: c in CategoryCounts(tasks) ==> CategoryCounts(tasks)[c] == Occurrences(Column(tasks, Category), c)
    ensures Total(CategoryCounts(tasks), Distinct(Column(tasks, Category))) == |tasks|
  {
    ValueCountsTotal(Column(tasks, Category));
  }

  /** Priority counts: one entry per priority present, summing to the collection's size. */
  lemma PriorityCountsTotal(tasks: seq<Task>)
    ensures forall p :: p in PriorityCounts(tasks) ==> PriorityCounts(tasks)[p] == Occurrences(Column(tasks, Priority), p)
    ensures Total(PriorityCounts(tasks), Distinct(Column(tasks, Priority))) == |tasks|
  {
    ValueCountsTotal(Column(tasks, Priority));
  }

  /** The number of tasks whose status is Completed. */
  function CompletedCount(tasks: seq<Task>): (n: nat)
    ensures n <= |tasks|
    ensures n == 0 <==> forall i :: 0 <= i < |tasks| ==> tasks[i].status != Completed
    ensures n == |tasks| <==> forall i :: 0 <= i < |tasks| ==> tasks[i].status == Completed
  {
    var col := Column(tasks, Status);
    ColumnValues(tasks, Status);
    OccurrencesAll(col, Completed);
    assert (forall i :: 0 <= i < |col| ==> col[i] == Completed)
       <==> (forall i :: 0 <= i < |tasks| ==> tasks[i].status == Completed);
    Occurrences(col, Completed)
  }

  /** The percentage `part` is of `whole`, with its bounds and its two extremes. */
  function Percent(part: nat, whole: nat): (pct: real)
    requires 0 < whole && part <= whole
    ensures pct * (whole as real) == 100.0 * (part as real)
    ensures 0.0 <= pct <= 100.0
    ensures pct == 100.0 <==> part == whole
    ensures pct == 0.0 <==> part == 0
  {
    var p, w := part as real, whole as real;
    var r := 100.0 * p / w;
    assert r * w == 100.0 * p;
    assert r * w <= 100.0 * w;
    assert r == 100.0 ==> p == w;
    assert r == 0.0 ==> p == 0.0;
    r
  }

  /**
   * The gauge value: 0 for an empty collection (no division happens),
   * otherwise the share of completed tasks as a percentage.
   */
  function CompletionRate(tasks: seq<Task>): (rate: real)
    ensures 0.0 <= rate <= 100.0
    ensures |tasks| == 0 ==> rate == 0.0
    ensures |tasks| > 0 ==> rate == Percent(CompletedCount(tasks), |tasks|)
    ensures |tasks| > 0 ==> (rate == 100.0 <==> forall i :: 0 <= i < |tasks| ==> tasks[i].status == Completed)
    ensures rate == 0.0 <==> forall i :: 0 <= i < |tasks| ==> tasks[i].status != Completed
  {
    if |tasks| > 0 then Percent(CompletedCount(tasks), |tasks|) else 0.0
  }
}
