/** The task record and its status flag.

    A task is a plain record of three strings. The browser keeps the status as
    text, so the model does too: the two values the program writes are
    "pending" and "completed", but a stored list may hold any text there. */
module Tasks {

  const Pending: string := "pending"
  const Completed: string := "completed"

  /** The wildcard value of both filter drop-downs. */
  const All: string := "all"

  datatype Task = Task(name: string, priority: string, status: string)

  /** True when every task's status is one of the two values the program writes. */
  predicate WellFormed(tasks: seq<Task>)
  {
    forall i :: 0 <= i < |tasks| ==> tasks[i].status == Pending || tasks[i].status == Completed
  }

  /** The status a task gets when its check button is pressed: a pending task
      becomes completed, and a task in any other status becomes pending. */
  function Toggled(status: string): (r: string)
    ensures r == Pending || r == Completed
    ensures r == Completed <==> status == Pending
  {
    if status == Pending then Completed else Pending
  }

  /** Pressing the button twice restores a status the program itself writes. */
  lemma ToggleTwice(status: string)
    requires status == Pending || status == Completed
    ensures Toggled(status) != status
    ensures Toggled(Toggled(status)) == status
  {
  }

  /** Any other status is not restored: the first press makes it pending and
      the second makes it completed. */
  lemma ToggleTwiceOther(status: string)
    requires status != Pending && status != Completed
    ensures Toggled(status) == Pending
    ensures Toggled(Toggled(status)) == Completed
  {
  }
}
