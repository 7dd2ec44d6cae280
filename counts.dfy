/** The status totals shown in the summary lines and in the bar chart. */
module Counts {
  import opened Tasks
  import opened View

  /** The number of tasks whose status is exactly `status`. */
  function StatusCount(tasks: seq<Task>, status: string): (r: nat)
    ensures r <= |tasks|
  {
    if tasks == [] then 0
    else
      StatusCount(tasks[..|tasks| - 1], status)
        + (if tasks[|tasks| - 1].status == status then 1 else 0)
  }

  /** Counting splits over a concatenation. */
  lemma {:induction false} CountAppend(a: seq<Task>, b: seq<Task>, status: string)
    ensures StatusCount(a + b, status) == StatusCount(a, status) + StatusCount(b, status)
  {
    if b != [] {
      var n := |b| - 1;
      assert (a + b)[..|a + b| - 1] == a + b[..n];
      CountAppend(a, b[..n], status);
    } else {
      assert a + b == a;
    }
  }

  /** A count is the length of the view filtered on that status alone. */
  lemma {:induction false} CountIsFilterLength(tasks: seq<Task>, status: string)
    requires status != All
    ensures StatusCount(tasks, status) == |Filter(tasks, All, status)|
  {
    if tasks != [] {
      CountIsFilterLength(tasks[..|tasks| - 1], status);
    }
  }

  /** The completed and the pending totals never add up to more than the
      number of tasks, since no status is both. */
  lemma {:induction false} CountsAtMostTotal(tasks: seq<Task>)
    ensures StatusCount(tasks, Completed) + StatusCount(tasks, Pending) <= |tasks|
  {
    if tasks != [] {
      CountsAtMostTotal(tasks[..|tasks| - 1]);
    }
  }

  /** When every status is pending or completed, the two totals add up to the
      number of tasks. */
  lemma {:induction false} CountsPartition(tasks: seq<Task>)
    requires WellFormed(tasks)
    ensures StatusCount(tasks, Completed) + StatusCount(tasks, Pending) == |tasks|
  {
    if tasks != [] {
      var prefix := tasks[..|tasks| - 1];
      assert forall i :: 0 <= i < |prefix| ==> prefix[i] == tasks[i];
      CountsPartition(prefix);
    }
  }

  /** Appending a task adds one to the count of its status only. */
  lemma CountAfterAppend(tasks: seq<Task>, t: Task, status: string)
    ensures StatusCount(tasks + [t], status)
      == StatusCount(tasks, status) + (if t.status == status then 1 else 0)
  {
    assert (tasks + [t])[..|tasks|] == tasks;
  }

  /** Replacing the task at position i moves one unit from its old status to its new one. */
  lemma CountAfterUpdate(tasks: seq<Task>, i: nat, t: Task, status: string)
    requires i < |tasks|
    ensures StatusCount(tasks[i := t], status)
      == StatusCount(tasks, status)
         - (if tasks[i].status == status then 1 else 0)
         + (if t.status == status then 1 else 0)
  {
    assert tasks == tasks[..i] + [tasks[i]] + tasks[i + 1..];
    assert tasks[i := t] == tasks[..i] + [t] + tasks[i + 1..];
    CountAppend(tasks[..i] + [tasks[i]], tasks[i + 1..], status);
    CountAppend(tasks[..i] + [t], tasks[i + 1..], status);
    CountAfterAppend(tasks[..i], tasks[i], status);
    CountAfterAppend(tasks[..i], t, status);
  }

  /** Removing the task at position i takes one from the count of its status only. */
  lemma CountAfterRemove(tasks: seq<Task>, i: nat, status: string)
    requires i < |tasks|
    ensures StatusCount(tasks[..i] + tasks[i + 1..], status)
      == StatusCount(tasks, status) - (if tasks[i].status == status then 1 else 0)
  {
    assert tasks == tasks[..i] + [tasks[i]] + tasks[i + 1..];
    CountAppend(tasks[..i] + [tasks[i]], tasks[i + 1..], status);
    CountAppend(tasks[..i], tasks[i + 1..], status);
    CountAfterAppend(tasks[..i], tasks[i], status);
  }
}
