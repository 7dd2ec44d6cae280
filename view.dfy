/** The filtered list view.

    The list shows the tasks that pass both drop-down filters, in store order,
    and numbers its rows from 0. The number on a row is what its toggle and
    delete buttons pass on, and those operations index the whole store. */
module View {
  import opened Tasks

  /** The filter test: each drop-down either is the wildcard or equals the field. */
  predicate Matches(t: Task, priorityFilter: string, statusFilter: string): (r: bool)
    ensures priorityFilter == All && statusFilter == All ==> r
    ensures r && priorityFilter != All ==> t.priority == priorityFilter
    ensures r && statusFilter != All ==> t.status == statusFilter
  {
    (priorityFilter == All || t.priority == priorityFilter) &&
    (statusFilter == All || t.status == statusFilter)
  }

  /** The two drop-downs act independently: a task passes both exactly when it
      passes each one with the other left on the wildcard. */
  lemma MatchesSplit(t: Task, priorityFilter: string, statusFilter: string)
    ensures Matches(t, priorityFilter, statusFilter) <==>
      Matches(t, priorityFilter, All) && Matches(t, All, statusFilter)
  {
  }

  /** The tasks shown, in the order of the store. */
  function Filter(tasks: seq<Task>, priorityFilter: string, statusFilter: string): (r: seq<Task>)
    ensures |r| <= |tasks|
  {
    if tasks == [] then []
    else
      var last := tasks[|tasks| - 1];
      Filter(tasks[..|tasks| - 1], priorityFilter, statusFilter)
        + (if Matches(last, priorityFilter, statusFilter) then [last] else [])
  }

  /** For each shown row, the position in the store of the task it shows. */
  function Rows(tasks: seq<Task>, priorityFilter: string, statusFilter: string): (r: seq<nat>)
    ensures |r| <= |tasks|
    ensures forall k :: 0 <= k < |r| ==> r[k] < |tasks|
    ensures forall k, l :: 0 <= k < l < |r| ==> r[k] < r[l]
  {
    if tasks == [] then []
    else
      var n := |tasks| - 1;
      Rows(tasks[..n], priorityFilter, statusFilter)
        + (if Matches(tasks[n], priorityFilter, statusFilter) then [n] else [])
  }

  /** Row k shows the task at store position Rows(...)[k]: the rows and the
      view line up one to one. */
  lemma {:induction false} RowsShowFilter(tasks: seq<Task>, priorityFilter: string, statusFilter: string)
    ensures |Rows(tasks, priorityFilter, statusFilter)| == |Filter(tasks, priorityFilter, statusFilter)|
    ensures forall k :: 0 <= k < |Rows(tasks, priorityFilter, statusFilter)| ==>
      Filter(tasks, priorityFilter, statusFilter)[k] == tasks[Rows(tasks, priorityFilter, statusFilter)[k]]
  {
    if tasks != [] {
      var n := |tasks| - 1;
      var prefix := tasks[..n];
      RowsShowFilter(prefix, priorityFilter, statusFilter);
      var rows := Rows(prefix, priorityFilter, statusFilter);
      assert forall k :: 0 <= k < |rows| ==> prefix[rows[k]] == tasks[rows[k]];
    }
  }

  /** A store position is shown exactly when its task passes the filter. */
  lemma {:induction false} RowsComplete(tasks: seq<Task>, priorityFilter: string, statusFilter: string, i: nat)
    ensures i in Rows(tasks, priorityFilter, statusFilter) <==>
      i < |tasks| && Matches(tasks[i], priorityFilter, statusFilter)
  {
    if tasks != [] {
      var n := |tasks| - 1;
      RowsComplete(tasks[..n], priorityFilter, statusFilter, i);
      if i < n {
        assert tasks[..n][i] == tasks[i];
      }
    }
  }

  /** A task is shown exactly when it is in the store and passes the filter. */
  lemma FilterMembership(tasks: seq<Task>, priorityFilter: string, statusFilter: string, t: Task)
    ensures t in Filter(tasks, priorityFilter, statusFilter) <==>
      t in tasks && Matches(t, priorityFilter, statusFilter)
  {
    var shown := Filter(tasks, priorityFilter, statusFilter);
    var rows := Rows(tasks, priorityFilter, statusFilter);
    RowsShowFilter(tasks, priorityFilter, statusFilter);
    if t in shown {
      var k :| 0 <= k < |shown| && shown[k] == t;
      assert tasks[rows[k]] == t;
    }
    if t in tasks && Matches(t, priorityFilter, statusFilter) {
      var i :| 0 <= i < |tasks| && tasks[i] == t;
      RowsComplete(tasks, priorityFilter, statusFilter, i);
      var k :| 0 <= k < |rows| && rows[k] == i;
      assert shown[k] == t;
    }
  }

  /** When the filter lets every task through, the view is the whole store. */
  lemma {:induction false} FilterKeepsAll(tasks: seq<Task>, priorityFilter: string, statusFilter: string)
    requires forall i :: 0 <= i < |tasks| ==> Matches(tasks[i], priorityFilter, statusFilter)
    ensures Filter(tasks, priorityFilter, statusFilter) == tasks
  {
    if tasks != [] {
      var n := |tasks| - 1;
      var prefix, last := tasks[..n], tasks[n];
      forall i | 0 <= i < n
        ensures Matches(prefix[i], priorityFilter, statusFilter)
      {
        assert prefix[i] == tasks[i];
      }
      FilterKeepsAll(prefix, priorityFilter, statusFilter);
      assert tasks == prefix + [last];
    }
  }

  /** When the filter lets every task through, row k shows the task at position k. */
  lemma {:induction false} RowsKeepAll(tasks: seq<Task>, priorityFilter: string, statusFilter: string)
    requires forall i :: 0 <= i < |tasks| ==> Matches(tasks[i], priorityFilter, statusFilter)
    ensures |Rows(tasks, priorityFilter, statusFilter)| == |tasks|
    ensures forall k :: 0 <= k < |tasks| ==> Rows(tasks, priorityFilter, statusFilter)[k] == k
  {
    if tasks != [] {
      var n := |tasks| - 1;
      var prefix := tasks[..n];
      assert forall i :: 0 <= i < n ==> prefix[i] == tasks[i];
      RowsKeepAll(prefix, priorityFilter, statusFilter);
      assert Matches(tasks[n], priorityFilter, statusFilter);
      var before := Rows(prefix, priorityFilter, statusFilter);
      assert Rows(tasks, priorityFilter, statusFilter) == before + [n];
    }
  }

  /** With both drop-downs on the wildcard the view is the whole store. */
  lemma FilterAllIsIdentity(tasks: seq<Task>)
    ensures Filter(tasks, All, All) == tasks
    ensures |Rows(tasks, All, All)| == |tasks|
    ensures forall k :: 0 <= k < |tasks| ==> Rows(tasks, All, All)[k] == k
  {
    FilterKeepsAll(tasks, All, All);
    RowsKeepAll(tasks, All, All);
  }

  /** The view of a concatenation is the concatenation of the views: the filter
      keeps the relative order of the tasks it lets through. */
  lemma {:induction false} FilterAppend(a: seq<Task>, b: seq<Task>, priorityFilter: string, statusFilter: string)
    ensures Filter(a + b, priorityFilter, statusFilter)
      == Filter(a, priorityFilter, statusFilter) + Filter(b, priorityFilter, statusFilter)
  {
    if b != [] {
      var n := |b| - 1;
      assert (a + b)[..|a + b| - 1] == a + b[..n];
      FilterAppend(a, b[..n], priorityFilter, statusFilter);
    } else {
      assert a + b == a;
    }
  }

  /** A store from which the filter drops some task has fewer rows than tasks. */
  lemma {:induction false} DroppedTaskShrinks(tasks: seq<Task>, priorityFilter: string, statusFilter: string, j: nat)
    requires j < |tasks| && !Matches(tasks[j], priorityFilter, statusFilter)
    ensures |Rows(tasks, priorityFilter, statusFilter)| < |tasks|
  {
    var n := |tasks| - 1;
    if j < n {
      assert tasks[..n][j] == tasks[j];
      DroppedTaskShrinks(tasks[..n], priorityFilter, statusFilter, j);
    }
  }

  /** A task dropped before the one on row k pushes that task past position k. */
  lemma {:induction false} RowShifted(tasks: seq<Task>, priorityFilter: string, statusFilter: string, k: nat, j: nat)
    requires k < |Rows(tasks, priorityFilter, statusFilter)|
    requires j < Rows(tasks, priorityFilter, statusFilter)[k]
    requires !Matches(tasks[j], priorityFilter, statusFilter)
    ensures k < Rows(tasks, priorityFilter, statusFilter)[k]
  {
    var n := |tasks| - 1;
    assert tasks[..n][j] == tasks[j];
    if k < |Rows(tasks[..n], priorityFilter, statusFilter)| {
      RowShifted(tasks[..n], priorityFilter, statusFilter, k, j);
    } else {
      DroppedTaskShrinks(tasks[..n], priorityFilter, statusFilter, j);
    }
  }

  /** With every task before the one on row k let through, that task sits at position k. */
  lemma {:induction false} RowExact(tasks: seq<Task>, priorityFilter: string, statusFilter: string, k: nat)
    requires k < |Rows(tasks, priorityFilter, statusFilter)|
    requires forall j :: 0 <= j < Rows(tasks, priorityFilter, statusFilter)[k] ==>
      Matches(tasks[j], priorityFilter, statusFilter)
    ensures Rows(tasks, priorityFilter, statusFilter)[k] == k
  {
    var n := |tasks| - 1;
    var prefix := tasks[..n];
    if k < |Rows(prefix, priorityFilter, statusFilter)| {
      assert forall j :: 0 <= j < Rows(prefix, priorityFilter, statusFilter)[k] ==> prefix[j] == tasks[j];
      RowExact(prefix, priorityFilter, statusFilter, k);
    } else {
      assert forall j :: 0 <= j < n ==> prefix[j] == tasks[j];
      RowsKeepAll(prefix, priorityFilter, statusFilter);
    }
  }

  /** The number on row k, which the row's buttons pass to the store, addresses
      the task the row shows exactly when the filter drops no task before it. */
  lemma RowAddressesShownTask(tasks: seq<Task>, priorityFilter: string, statusFilter: string, k: nat)
    requires k < |Filter(tasks, priorityFilter, statusFilter)|
    ensures k < |Rows(tasks, priorityFilter, statusFilter)| && k < |tasks|
    ensures Rows(tasks, priorityFilter, statusFilter)[k] == k <==>
      forall j :: 0 <= j < Rows(tasks, priorityFilter, statusFilter)[k] ==>
        Matches(tasks[j], priorityFilter, statusFilter)
  {
    var rows := Rows(tasks, priorityFilter, statusFilter);
    RowsShowFilter(tasks, priorityFilter, statusFilter);
    if forall j :: 0 <= j < rows[k] ==> Matches(tasks[j], priorityFilter, statusFilter) {
      RowExact(tasks, priorityFilter, statusFilter, k);
    } else {
      var j :| 0 <= j < rows[k] && !Matches(tasks[j], priorityFilter, statusFilter);
      RowShifted(tasks, priorityFilter, statusFilter, k, j);
    }
  }

  /** When the filter drops a task that precedes a shown one, the shown task's
      row carries a smaller number than its store position, so its buttons act
      on another position of the store. */
  lemma RowMisaddressed(tasks: seq<Task>, priorityFilter: string, statusFilter: string, j: nat, i: nat)
    requires j < i < |tasks|
    requires !Matches(tasks[j], priorityFilter, statusFilter)
    requires Matches(tasks[i], priorityFilter, statusFilter)
    ensures exists k :: (0 <= k < |Rows(tasks, priorityFilter, statusFilter)| &&
      Rows(tasks, priorityFilter, statusFilter)[k] == i && k < i)
  {
    var rows := Rows(tasks, priorityFilter, statusFilter);
    RowsComplete(tasks, priorityFilter, statusFilter, i);
    var k :| 0 <= k < |rows| && rows[k] == i;
    RowShifted(tasks, priorityFilter, statusFilter, k, j);
  }

  /** A concrete case: filtering on "high" shows the second task on row 0, and
      row 0's buttons address the first task, which is hidden. */
  lemma NarrowedFilterExample()
    ensures
      var tasks := [Task("a", "low", Pending), Task("b", "high", Pending)];
      Filter(tasks, "high", All) == [tasks[1]] && Rows(tasks, "high", All) == [1] &&
      tasks[0] != tasks[1]
  {
    var tasks := [Task("a", "low", Pending), Task("b", "high", Pending)];
    assert tasks[..1] == [tasks[0]];
    assert [tasks[0]][..0] == [];
  }
}
