/** The fixed task table of main/src/adapter/posix/task.c. */
module TaskTable {
  import opened Base

  const MAX_TASKS := 32

  /** A task handle: the object Task_Create allocates. */
  class Task {
    const thread: nat
    const name: string

    constructor (thread: nat, name: string)
      ensures this.thread == thread && this.name == name
    {
      this.thread := thread;
      this.name := name;
    }
  }

  /** The handles in the occupied slots. */
  ghost function Live(slots: seq<Task?>): set<Task>
  {
    set i | 0 <= i < |slots| && slots[i] != null :: slots[i]
  }

  /** No handle is in two slots, and no two handles stand for the same thread. */
  ghost predicate Distinct(slots: seq<Task?>) {
    forall i, j :: 0 <= i < j < |slots| && slots[i] != null && slots[j] != null ==> slots[i].thread != slots[j].thread
  }

  datatype Op = Created(task: Task) | Deleted(task: Task)

  /** What an operation makes of the recorded handles. */
  ghost function Record(live: set<Task>, op: Op): set<Task> {
    match op
    case Created(t) => if |live| < MAX_TASKS then live + {t} else live
    case Deleted(t) => live - {t}
  }

  class Table {
    const tasks: array<Task?>

    ghost predicate Valid()
      reads this, tasks
    {
      tasks.Length == MAX_TASKS && Distinct(tasks[..])
    }

    constructor ()
      ensures Valid() && Live(tasks[..]) == {} && fresh(tasks)
    {
      tasks := new Task?[MAX_TASKS](_ => null);
    }

    /** Task_Create. The thread runs even when the table is full; it is then not recorded.
        `thread` is what pthread_create returned, or None when it failed. */
    method Create(thread: Option<nat>, name: string) returns (task: Task?)
      requires Valid()
      requires thread.Some? ==> forall t :: t in Live(tasks[..]) ==> t.thread != thread.value
      modifies tasks
      ensures Valid()
      ensures task == null <==> thread == None
      ensures task != null ==> fresh(task) && task.thread == thread.value && task.name == name
      ensures Live(tasks[..])
           == if task == null then old(Live(tasks[..])) else Record(old(Live(tasks[..])), Created(task))
    {
      if thread == None {
        return null;
      }
      ghost var before := tasks[..];
      var result := new Task(thread.value, name);
      var i := 0;
      while i < MAX_TASKS
        invariant 0 <= i <= MAX_TASKS && tasks[..] == before
        invariant forall j :: 0 <= j < i ==> before[j] != null
      {
        if tasks[i] == null {
          tasks[i] := result;
          break;
        }
        i := i + 1;
      }
      FullIff(before);
      if i < MAX_TASKS {
        assert tasks[..] == before[i := result];
        LiveAdd(before, i, result);
      }
      return result;
    }

    /** Task_GetSelf, for the calling thread. */
    method GetSelf(self: nat) returns (task: Task?)
      requires Valid()
      ensures task != null ==> task in Live(tasks[..]) && task.thread == self
      ensures task == null ==> forall t :: t in Live(tasks[..]) ==> t.thread != self
    {
      var i := 0;
      while i < MAX_TASKS
        invariant 0 <= i <= MAX_TASKS
        invariant forall j :: 0 <= j < i && tasks[j] != null ==> tasks[j].thread != self
      {
        if tasks[i] != null && tasks[i].thread == self {
          return tasks[i];
        }
        i := i + 1;
      }
      return null;
    }

    /** Task_Delete; NULL stands for the calling thread's own task. Returns the task it cancels. */
    method Delete(task: Task?, self: nat) returns (cancelled: Task?)
      requires Valid()
      modifies tasks
      ensures Valid()
      ensures task != null ==> cancelled == task
      ensures task == null && cancelled != null ==> cancelled in old(Live(tasks[..])) && cancelled.thread == self
      ensures cancelled == null ==> task == null && forall t :: t in old(Live(tasks[..])) ==> t.thread != self
      ensures Live(tasks[..]) ==
              if cancelled == null then old(Live(tasks[..])) else Record(old(Live(tasks[..])), Deleted(cancelled))
    {
      cancelled := task;
      if cancelled == null {
        cancelled := GetSelf(self);
      }
      if cancelled == null {
        return;
      }
      ghost var before := tasks[..];
      var i := 0;
      while i < MAX_TASKS
        invariant 0 <= i <= MAX_TASKS && tasks[..] == before
        invariant forall j :: 0 <= j < i ==> before[j] != cancelled
      {
        if tasks[i] == cancelled {
          tasks[i] := null;
          break;
        }
        i := i + 1;
      }
      if i < MAX_TASKS {
        assert tasks[..] == before[i := null];
        LiveRemove(before, i);
      }
    }
  }

  lemma LiveAdd(slots: seq<Task?>, i: nat, task: Task)
    requires i < |slots| && slots[i] == null && Distinct(slots)
    requires forall t :: t in Live(slots) ==> t.thread != task.thread
    ensures Live(slots[i := task]) == Live(slots) + {task} && Distinct(slots[i := task])
  {
    var after := slots[i := task];
    forall t | t in Live(slots) + {task}
      ensures t in Live(after)
    {
      if t == task {
        assert after[i] == t;
      } else {
        var j :| 0 <= j < |slots| && slots[j] == t;
        assert after[j] == t;
      }
    }
    forall j | 0 <= j < |slots| && slots[j] != null
      ensures slots[j].thread != task.thread
    {
      assert slots[j] in Live(slots);
    }
  }

  lemma LiveRemove(slots: seq<Task?>, i: nat)
    requires i < |slots| && slots[i] != null && Distinct(slots)
    ensures Live(slots[i := null]) == Live(slots) - {slots[i]} && Distinct(slots[i := null])
  {
    var after := slots[i := null];
    forall t | t in Live(slots) - {slots[i]}
      ensures t in Live(after)
    {
      var j :| 0 <= j < |slots| && slots[j] == t;
      assert after[j] == t;
    }
    forall t | t in Live(after)
      ensures t in Live(slots) && t != slots[i]
    {
      var j :| 0 <= j < |after| && after[j] == t;
      assert slots[j] == t;
    }
  }

  lemma LiveSnoc(slots: seq<Task?>, last: Task?)
    ensures Live(slots + [last]) == Live(slots) + (if last == null then {} else {last})
  {
    var all := slots + [last];
    forall t | t in Live(slots)
      ensures t in Live(all)
    {
      var j :| 0 <= j < |slots| && slots[j] == t;
      assert all[j] == t;
    }
    assert all[|slots|] == last;
  }

  /** Pigeonhole: a table of distinct handles has a free slot exactly if it has fewer handles than slots. */
  lemma {:induction false} FullIff(slots: seq<Task?>)
    requires Distinct(slots)
    ensures |Live(slots)| <= |slots|
    ensures |Live(slots)| == |slots| <==> forall i :: 0 <= i < |slots| ==> slots[i] != null
  {
    if slots != [] {
      var n := |slots| - 1;
      var rest, last := slots[..n], slots[n];
      FullIff(rest);
      assert slots == rest + [last];
      LiveSnoc(rest, last);
      assert last != null ==> last !in Live(rest);
      assert forall i :: 0 <= i < n ==> rest[i] == slots[i];
    }
  }

  // ---------------------------------------------------------------------------------------------
  // The table against the tasks that exist
  // ---------------------------------------------------------------------------------------------

  ghost function Recorded(ops: seq<Op>): set<Task> {
    if ops == [] then {} else Record(Recorded(ops[..|ops| - 1]), ops[|ops| - 1])
  }

  ghost function Existing(ops: seq<Op>): set<Task> {
    if ops == [] then {}
    else
      match ops[|ops| - 1]
      case Created(t) => Existing(ops[..|ops| - 1]) + {t}
      case Deleted(t) => Existing(ops[..|ops| - 1]) - {t}
  }

  /** A created handle is not one that exists already. */
  ghost predicate NewHandles(ops: seq<Op>) {
    forall n :: 0 <= n < |ops| && ops[n].Created? ==> ops[n].task !in Existing(ops[..n])
  }

  ghost predicate AgreesThroughout(ops: seq<Op>) {
    forall n :: 0 <= n <= |ops| ==> Recorded(ops[..n]) == Existing(ops[..n])
  }

  ghost predicate FitsThroughout(ops: seq<Op>) {
    forall n :: 0 <= n <= |ops| ==> |Existing(ops[..n])| <= 32
  }

  lemma {:induction false} RecordedFits(ops: seq<Op>)
    ensures |Recorded(ops)| <= MAX_TASKS
  {
    if ops != [] {
      var before := Recorded(ops[..|ops| - 1]);
      RecordedFits(ops[..|ops| - 1]);
      if ops[|ops| - 1].Deleted? && ops[|ops| - 1].task in before {
        assert before == Recorded(ops) + {ops[|ops| - 1].task};
      }
    }
  }

  lemma {:induction false} FittingAgrees(ops: seq<Op>, n: nat)
    requires NewHandles(ops) && FitsThroughout(ops) && n <= |ops|
    ensures Recorded(ops[..n]) == Existing(ops[..n])
  {
    if n > 0 {
      FittingAgrees(ops, n - 1);
      assert ops[..n][..n - 1] == ops[..n - 1];
      assert |Existing(ops[..n])| <= MAX_TASKS;
    }
  }

  /** The table holds exactly the existing tasks, at every moment of a history of creations and
      deletions, if and only if at every moment at most 32 tasks exist. */
  lemma TableAgreesIff(ops: seq<Op>)
    requires NewHandles(ops)
    ensures AgreesThroughout(ops) <==> FitsThroughout(ops)
  {
    forall n | 0 <= n <= |ops|
      ensures |Recorded(ops[..n])| <= MAX_TASKS
      ensures FitsThroughout(ops) ==> Recorded(ops[..n]) == Existing(ops[..n])
    {
      RecordedFits(ops[..n]);
      if FitsThroughout(ops) {
        FittingAgrees(ops, n);
      }
    }
  }
}
