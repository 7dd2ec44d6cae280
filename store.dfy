/** The task store: the one mutable list of tasks that the page keeps,
    and the three operations that change it. */
module Store {
  import opened Tasks
  import opened Counts

  datatype Option<T> = None | Some(value: T)

  class TaskStore {
    var tasks: seq<Task>

    /** The list read back at start-up; nothing stored reads as the empty list. */
    constructor FromStorage(stored: Option<seq<Task>>)
      ensures tasks == (if stored.Some? then stored.value else [])
    {
      tasks := if stored.Some? then stored.value else [];
    }

    /** Submitting the form appends a new pending task with the given name and priority. */
    method Add(name: string, priority: string)
      modifies this
      ensures tasks == old(tasks) + [Task(name, priority, Pending)]
      ensures |tasks| == |old(tasks)| + 1
      ensures forall i :: 0 <= i < |old(tasks)| ==> tasks[i] == old(tasks)[i]
      ensures tasks[|tasks| - 1] == Task(name, priority, Pending)
      ensures StatusCount(tasks, Pending) == StatusCount(old(tasks), Pending) + 1
      ensures StatusCount(tasks, Completed) == StatusCount(old(tasks), Completed)
      ensures WellFormed(old(tasks)) ==> WellFormed(tasks)
    {
      CountAfterAppend(tasks, Task(name, priority, Pending), Pending);
      CountAfterAppend(tasks, Task(name, priority, Pending), Completed);
      tasks := tasks + [Task(name, priority, Pending)];
    }

    /** The check button flips the status of the task at `index`, and only that field. */
    method ToggleStatus(index: nat)
      requires index < |tasks|
      modifies this
      ensures |tasks| == |old(tasks)|
      ensures tasks[index] == old(tasks)[index].(status := Toggled(old(tasks)[index].status))
      ensures forall i :: 0 <= i < |tasks| && i != index ==> tasks[i] == old(tasks)[i]
      ensures old(tasks)[index].status == Pending ==>
        StatusCount(tasks, Completed) == StatusCount(old(tasks), Completed) + 1 &&
        StatusCount(tasks, Pending) == StatusCount(old(tasks), Pending) - 1
      ensures old(tasks)[index].status == Completed ==>
        StatusCount(tasks, Completed) == StatusCount(old(tasks), Completed) - 1 &&
        StatusCount(tasks, Pending) == StatusCount(old(tasks), Pending) + 1
      ensures WellFormed(old(tasks)) ==> WellFormed(tasks)
    {
      var t := tasks[index];
      var toggled := t.(status := Toggled(t.status));
      CountAfterUpdate(tasks, index, toggled, Pending);
      CountAfterUpdate(tasks, index, toggled, Completed);
      tasks := tasks[index := toggled];
    }

    /** The delete button removes the task at `index`, keeping the order of the rest;
        a position past the end removes nothing. */
    method DeleteTask(index: nat)
      modifies this
      ensures index < |old(tasks)| ==> tasks == old(tasks)[..index] + old(tasks)[index + 1..]
      ensures index < |old(tasks)| ==> |tasks| == |old(tasks)| - 1
      ensures index < |old(tasks)| ==>
        (forall i :: 0 <= i < index ==> tasks[i] == old(tasks)[i]) &&
        (forall i :: index <= i < |tasks| ==> tasks[i] == old(tasks)[i + 1])
      ensures index < |old(tasks)| ==> forall s: string ::
        StatusCount(tasks, s) == StatusCount(old(tasks), s) - (if old(tasks)[index].status == s then 1 else 0)
      ensures index >= |old(tasks)| ==> tasks == old(tasks)
      ensures WellFormed(old(tasks)) ==> WellFormed(tasks)
    {
      if index < |tasks| {
        forall s: string
          ensures StatusCount(tasks[..index] + tasks[index + 1..], s)
            == StatusCount(tasks, s) - (if tasks[index].status == s then 1 else 0)
        {
          CountAfterRemove(tasks, index, s);
        }
        tasks := tasks[..index] + tasks[index + 1..];
      }
    }

    /** The three summary lines and the bar chart: total, completed and pending. */
    method Summary() returns (total: nat, completed: nat, pending: nat)
      ensures total == |tasks|
      ensures completed == StatusCount(tasks, Completed) && pending == StatusCount(tasks, Pending)
      ensures completed + pending <= total
      ensures WellFormed(tasks) ==> completed + pending == total
    {
      total := |tasks|;
      completed := StatusCount(tasks, Completed);
      pending := StatusCount(tasks, Pending);
      CountsAtMostTotal(tasks);
      if WellFormed(tasks) {
        CountsPartition(tasks);
      }
    }
  }

  /** A page session: add a task, complete it, read the summary. */
  method SessionExample()
  {
    var store := new TaskStore.FromStorage(None);
    store.Add("Write report", "high");
    assert store.tasks == [Task("Write report", "high", Pending)];
    store.ToggleStatus(0);
    assert store.tasks[0].status == Completed;
    var total, completed, pending := store.Summary();
    assert store.tasks[..0] == [];
    assert total == 1 && completed == 1 && pending == 0;
    store.DeleteTask(0);
    assert store.tasks == [];
  }
}
