/** The service object of main/src/core/service.c, updated in place. `model` is the lifecycle state the
    fields stand for; each method is one step of the lifecycle. */
module ServiceObject {
  import opened Base
  import opened BlockingQueue
  import opened Deadline
  import Lifecycle
  import Pthread

  const TASK_DEFAULT_PRIORITY: uint32 := 1
  const TASK_DEFAULT_STACK_SIZE: nat := 4096

  class Service {
    var state: Lifecycle.RunState
    var taskPriority: uint32
    var taskStackSize: nat
    var queue: Queue?<Lifecycle.ServiceEvent>
    var task: Option<nat>
    ghost var model: Lifecycle.State
    ghost var handles: seq<nat>  // what Task_Create returned for each task of the model

    ghost function Footprint(): set<object>
      reads this
    {
      if queue == null then {} else {queue, queue.messages}
    }

    ghost predicate Valid()
      reads this, Footprint()
    {
      && model.state == state
      && |handles| == |model.tasks|
      && task == (if handles == [] then None else Some(handles[|handles| - 1]))
      && (queue == null <==> model.queue == None)
      && (queue != null ==>
            queue.Valid() && queue.size == Lifecycle.SERVICE_QUEUE_SIZE && model.queue == Some(queue.Contents()))
    }

    /** A statically initialised service. */
    constructor (taskPriority: uint32, taskStackSize: nat)
      ensures Valid() && model == Lifecycle.Init() && queue == null
    {
      state := Lifecycle.Stopped;
      this.taskPriority := taskPriority;
      this.taskStackSize := taskStackSize;
      queue := null;
      task := None;
      model := Lifecycle.Init();
      handles := [];
    }

    /** Service_Start; `handle` is what Task_Create returns. */
    method Start(handle: nat)
      requires Valid() && model.fault == None
      modifies this
      ensures Valid() && model == Lifecycle.StartService(old(model))
      ensures old(state) != Lifecycle.Stopped ==>
                && queue == old(queue) && task == old(task) && handles == old(handles)
                && taskPriority == old(taskPriority) && taskStackSize == old(taskStackSize)
      ensures old(state) == Lifecycle.Stopped ==>
                && state == Lifecycle.Running && task == Some(handle)
                && queue != null && fresh(queue) && fresh(queue.messages) && queue.size == 20 && queue.Contents() == []
                && handles == old(handles) + [handle] && |model.tasks| == |old(model).tasks| + 1
                && taskPriority == (if old(taskPriority) == 0 then 1 else old(taskPriority))
                && taskStackSize == (if old(taskStackSize) == 0 then 4096 else old(taskStackSize))
    {
      if state == Lifecycle.Stopped {
        state := Lifecycle.Running;
        if taskStackSize == 0 {
          taskStackSize := TASK_DEFAULT_STACK_SIZE;
        }
        if taskPriority == 0 {
          taskPriority := TASK_DEFAULT_PRIORITY;
        }
        queue := new Queue(Lifecycle.SERVICE_QUEUE_SIZE);
        task := Some(handle);
        model := Lifecycle.StartService(model);
        handles := handles + [handle];
      }
    }

    /** Service_Stop: the task and the queue are left to the task itself. */
    method Stop()
      requires Valid() && model.fault == None
      modifies `state, `model
      ensures Valid() && model == Lifecycle.StopService(old(model)) && state == Lifecycle.Stopped
    {
      if state != Lifecycle.Stopped {
        model := Lifecycle.StopService(model);
        state := Lifecycle.Stopped;
      }
    }

    /** Service_Notify. When the queue refuses the event, the queued ones are logged and the process aborts;
        it aborts at once when a running service has lost its queue. `locked`: the queue's mutex can be
        obtained; otherwise the receives for the log fail like the send. */
    method Notify(event: Lifecycle.ServiceEvent, locked: bool, now: Timeval)
      returns (logged: seq<Lifecycle.ServiceEvent>)
      requires Valid() && model.fault == None
      modifies `model, Footprint()
      ensures Valid() && model == Lifecycle.NotifyService(old(model), event, locked)
      ensures old(state) == Lifecycle.Stopped ==> model == old(model) && logged == []
      ensures old(state) == Lifecycle.Stopped && old(queue) != null ==> queue.Contents() == old(queue.Contents())
      ensures old(state) != Lifecycle.Stopped && old(queue) == null ==>
                model.fault == Some(Lifecycle.NullQueue) && logged == []
      ensures old(state) != Lifecycle.Stopped && old(queue) != null ==>
                var q := old(queue.Contents());
                if !locked then
                  queue.Contents() == q && logged == [] && model.fault == Some(Lifecycle.NoMutex)
                else if |q| == 20 then
                  queue.Contents() == [] && logged == q && model.fault == Some(Lifecycle.QueueFull(q))
                else
                  queue.Contents() == q + [event] && logged == [] && model.fault == None
    {
      logged := [];
      if state != Lifecycle.Stopped {
        if queue != null {
          logged := SendOrLog(queue, event, locked, now);
        }
        model := Lifecycle.NotifyService(model, event, locked);
      }
    }

    /** The loop's Queue_Receive in task `k`, from the end of its wait on: the event it leaves in the local
        that was initialised to EVENT_TIMEOUT. `locked`: the mutex was obtained at all. */
    method TakeEvent(c: Lifecycle.Config, k: nat, locked: bool, status: Pthread.WaitStatus)
      returns (event: Lifecycle.ServiceEvent)
      requires Valid() && queue != null && k < |model.tasks| && model.tasks[k].pc.Receiving?
      modifies `model, queue
      ensures Valid() && model == Lifecycle.RunTask(c, old(model), k, locked && status == Pthread.Zero)
      ensures model.tasks[k].pc == Lifecycle.Handling(event)
      ensures var q := old(queue.Contents());
              if locked && status == Pthread.Zero && q != [] then event == q[0] && queue.Contents() == q[1..]
              else event == Lifecycle.ServiceEvent(0xafaf, 0) && queue.Contents() == q
    {
      event := Lifecycle.TIMEOUT_EVENT;
      if locked {
        var error, e := queue.ReceiveFinish(status);
        if error == Success {
          event := e.value;
        }
      }
      model := Lifecycle.RunTask(c, model, k, locked && status == Pthread.Zero);
    }

    /** The end of the cleanup in task `k`: whichever queue the service refers to now is gone. */
    method DropQueue(c: Lifecycle.Config, k: nat)
      requires Valid() && k < |model.tasks| && model.tasks[k].pc.DeleteQueue?
      modifies `queue, `model
      ensures Valid() && queue == null && model == Lifecycle.RunTask(c, old(model), k, true)
    {
      queue := null;
      model := Lifecycle.RunTask(c, model, k, true);
    }
  }

  /** Queue_Send, and the log when it fails. */
  method SendOrLog(queue: Queue<Lifecycle.ServiceEvent>, event: Lifecycle.ServiceEvent, locked: bool, now: Timeval)
    returns (logged: seq<Lifecycle.ServiceEvent>)
    requires queue.Valid()
    modifies queue, queue.messages
    ensures queue.Valid()
    ensures var q := old(queue.Contents());
            if !locked then queue.Contents() == q && logged == []
            else if |q| == queue.size then queue.Contents() == [] && logged == q
            else queue.Contents() == q + [event] && logged == []
  {
    logged := [];
    var error, _ := queue.Send(event, locked);
    if error != Success {
      logged := LogPending(queue, locked, now);
    }
  }

  /** The log of the pending events, oldest first: receives with a short timeout until one fails. */
  method LogPending(queue: Queue<Lifecycle.ServiceEvent>, locked: bool, now: Timeval)
    returns (logged: seq<Lifecycle.ServiceEvent>)
    requires queue.Valid()
    modifies queue
    ensures queue.Valid() && queue.Contents() == if locked then [] else old(queue.Contents())
    ensures logged == if locked then old(queue.Contents()) else []
  {
    logged := [];
    var error, e := queue.Receive(locked, now, 10, Pthread.ETimedOut);
    while error == Success
      invariant queue.Valid()
      invariant error == Success <==> e.Some?
      invariant e.Some? ==> locked && logged + ([e.value] + queue.Contents()) == old(queue.Contents())
      invariant e.None? ==> queue.Contents() == (if locked then [] else old(queue.Contents()))
      invariant e.None? ==> logged == if locked then old(queue.Contents()) else []
      decreases |queue.Contents()|, error == Success
    {
      ghost var rest := queue.Contents();
      Associate(logged, [e.value], rest);
      logged := logged + [e.value];
      error, e := queue.Receive(locked, now, 10, Pthread.ETimedOut);
      Uncons(rest);
      NothingBehind(logged);
    }
  }

  lemma Uncons<T>(s: seq<T>)
    ensures s != [] ==> s == [s[0]] + s[1..]
  {
  }

  lemma NothingBehind<T>(s: seq<T>)
    ensures s + [] == s
  {
  }
}
