/** What the end of Service_Main does to others (main/src/core/service.c): Task_Delete(service->task) cancels
    whichever task the service refers to at that moment, and the queue that is deleted is the current one. */
module Cleanup {
  import opened Base
  import opened Lifecycle
  import opened Restarts

  /** A task that still has to call Task_Delete. */
  predicate BeforeDelete(t: Task) {
    !t.dead && 2 <= Stage(t.pc) <= 4
  }

  // ---------------------------------------------------------------------------------------------
  // An early restart can kill the new task
  // ---------------------------------------------------------------------------------------------

  /** The old task runs on, through its Task_Delete, and the cancellation takes effect. */
  lemma {:induction false} KillingRun(c: Config, s: State, k: nat) returns (acts: seq<Action>)
    requires c.hasSemaphore && s.fault == None
    requires k < |s.tasks| - 1 && BeforeDelete(s.tasks[k]) && !Current(s).pc.DeleteQueue?
    ensures Quiet(acts) && Exec(c, s, acts).tasks != [] && Current(Exec(c, s, acts)).dead
    decreases 6 - Stage(s.tasks[k].pc)
  {
    var r := Step(c, s, Run(k, true));
    if s.tasks[k].pc.DeleteTask? {
      assert Current(r).cancelled;
      acts := [Run(k, true)] + [Die(|s.tasks| - 1)];
      ExecOne(c, r, Die(|s.tasks| - 1));
    } else {
      var rest := KillingRun(c, r, k);
      acts := [Run(k, true)] + rest;
    }
    ExecAppend(c, s, [Run(k, true)], acts[1..]);
    ExecOne(c, s, Run(k, true));
  }

  lemma ExecOne(c: Config, s: State, a: Action)
    ensures Exec(c, s, [a]) == Step(c, s, a)
  {
    assert [a][..0] == [];
  }

  /** Nobody is left who will call Task_Delete while the service runs. */
  ghost predicate NobodyDeletes(c: Config, s: State) {
    && s.state == Running && s.tasks != []
    && !Current(s).cancelled && !Current(s).dead
    && forall k :: 0 <= k < |s.tasks| ==>
         s.tasks[k].dead || InsideLoop(s.tasks[k]) || Stage(s.tasks[k].pc) >= 5
         || (!c.hasSemaphore && 2 <= Stage(s.tasks[k].pc) <= 3)
  }

  lemma NobodyDeletesRun(c: Config, s: State, k: nat, ok: bool)
    requires !c.hasMain && NobodyDeletes(c, s) && k < |s.tasks| && !s.tasks[k].dead
    ensures NobodyDeletes(c, RunTask(c, s, k, ok))
  {
    assert !s.tasks[k].pc.DeleteTask?;
  }

  lemma NobodyDeletesStep(c: Config, s: State, a: Action)
    requires !c.hasMain && NobodyDeletes(c, s) && !a.Start? && !a.Stop?
    ensures NobodyDeletes(c, Step(c, s, a))
  {
    if a.Run? && s.fault == None && a.k < |s.tasks| && !s.tasks[a.k].dead {
      NobodyDeletesRun(c, s, a.k, a.ok);
    }
  }

  lemma {:induction false} NobodyDeletesAlways(c: Config, s: State, acts: seq<Action>)
    requires !c.hasMain && NobodyDeletes(c, s) && Quiet(acts)
    ensures NobodyDeletes(c, Exec(c, s, acts))
  {
    if acts != [] {
      NobodyDeletesAlways(c, s, acts[..|acts| - 1]);
      NobodyDeletesStep(c, Exec(c, s, acts[..|acts| - 1]), acts[|acts| - 1]);
    }
  }

  /** Some run up to the next Start or Stop ends with the new task dead. */
  ghost predicate CanKillNewTask(c: Config, s: State) {
    exists acts ::
      var r := Exec(c, StartService(s), acts);
      Quiet(acts) && r.tasks != [] && Current(r).dead
  }

  lemma StartedSafely(c: Config, history: seq<Action>)
    requires !c.hasMain
    requires Exec(c, Init(), history).state == Stopped
    requires var s := Exec(c, Init(), history);
             !c.hasSemaphore || forall k :: 0 <= k < |s.tasks| ==> !BeforeDelete(s.tasks[k])
    ensures NobodyDeletes(c, StartService(Exec(c, Init(), history)))
  {
    var s := Exec(c, Init(), history);
    var r := StartService(s);
    HooksInOrder(c, history);
    CleanupBlockedAlways(c, history);
    forall k | 0 <= k < |r.tasks|
      ensures r.tasks[k].dead || InsideLoop(r.tasks[k]) || Stage(r.tasks[k].pc) >= 5
              || (!c.hasSemaphore && 2 <= Stage(r.tasks[k].pc) <= 3)
    {
      if k < |s.tasks| {
        assert OnScript(c, s.tasks[k]);
      }
    }
  }

  /** Restarting a stopped handler service can cost the new task its life, if and only if some old task has left
      its loop and not called Task_Delete yet, and the termination semaphore lets it get there: service->task
      is the new task by then. */
  lemma EarlyRestartKillsIff(c: Config, history: seq<Action>)
    requires !c.hasMain
    requires Exec(c, Init(), history).state == Stopped && Exec(c, Init(), history).fault == None
    ensures var s := Exec(c, Init(), history);
            CanKillNewTask(c, s) <==>
            c.hasSemaphore && exists k :: 0 <= k < |s.tasks| && BeforeDelete(s.tasks[k])
  {
    var s := Exec(c, Init(), history);
    var r := StartService(s);
    if c.hasSemaphore && exists k :: 0 <= k < |s.tasks| && BeforeDelete(s.tasks[k]) {
      var k :| 0 <= k < |s.tasks| && BeforeDelete(s.tasks[k]);
      assert r.tasks[k] == s.tasks[k];
      var acts := KillingRun(c, r, k);
    } else {
      StartedSafely(c, history);
      forall acts | Quiet(acts)
        ensures Exec(c, r, acts).tasks != [] && !Current(Exec(c, r, acts)).dead
      {
        NobodyDeletesAlways(c, r, acts);
      }
    }
  }

  // ---------------------------------------------------------------------------------------------
  // In disciplined runs a task cancels itself
  // ---------------------------------------------------------------------------------------------

  /** The cancelled tasks are those past their Task_Delete. */
  ghost predicate CancelsItself(s: State) {
    forall k :: 0 <= k < |s.tasks| ==> (s.tasks[k].cancelled <==> Stage(s.tasks[k].pc) >= 5)
  }

  lemma CancelsItselfStep(c: Config, s: State, a: Action)
    requires OneLoop(c, s) && CancelsItself(s)
    ensures CancelsItself(Step(c, s, a))
  {
    if a.Run? && s.fault == None && a.k < |s.tasks| && !s.tasks[a.k].dead {
      if a.k < |s.tasks| - 1 {
        assert s.tasks[a.k].Finished();
      }
      CancelsItselfRun(c, s, a.k, a.ok);
    }
  }

  lemma CancelsItselfRun(c: Config, s: State, k: nat, ok: bool)
    requires CancelsItself(s) && k < |s.tasks| && !s.tasks[k].dead
    requires k == |s.tasks| - 1 || s.tasks[k].pc.Sleeping?
    ensures CancelsItself(RunTask(c, s, k, ok))
  {
  }

  /** In every disciplined run Task_Delete(service->task) cancels the task that calls it, and no other. */
  lemma {:induction false} CancelsItselfAlways(c: Config, acts: seq<Action>)
    requires Disciplined(c, acts)
    ensures CancelsItself(Exec(c, Init(), acts))
  {
    if acts != [] {
      var before := acts[..|acts| - 1];
      CancelsItselfAlways(c, before);
      OneLoopAlways(c, before);
      CancelsItselfStep(c, Exec(c, Init(), before), acts[|acts| - 1]);
    }
  }

  /** And its own cancellation ends it at its next sleep, with its cleanup done. */
  lemma SleepIsTheEnd(c: Config, acts: seq<Action>)
    requires Disciplined(c, acts)
    ensures var s := Exec(c, Init(), acts);
            s.fault == None && s.tasks != [] && Current(s).pc.Sleeping? ==>
              var r := Exec(c, Init(), acts + [Die(|s.tasks| - 1)]);
              r.tasks != [] && Current(r).dead && r.queue == None
  {
    var s := Exec(c, Init(), acts);
    CancelsItselfAlways(c, acts);
    OneLoopAlways(c, acts);
    if s.fault == None && s.tasks != [] && Current(s).pc.Sleeping? {
      SleeperDies(c, s);
      ExecSnoc(c, Init(), acts, Die(|s.tasks| - 1));
    }
  }

  lemma SleeperDies(c: Config, s: State)
    requires s.fault == None && s.tasks != [] && Current(s).pc.Sleeping? && Current(s).cancelled
    ensures var r := Step(c, s, Die(|s.tasks| - 1)); r.tasks != [] && Current(r).dead && r.queue == s.queue
  {
  }

  // ---------------------------------------------------------------------------------------------
  // An early restart can make the new loop abort
  // ---------------------------------------------------------------------------------------------

  /** Setup, loop test and receive of a task that finds the service running without a queue. */
  lemma {:induction false} AbortsAtReceive(c: Config, s: State, k: nat) returns (acts: seq<Action>)
    requires !c.hasMain && s.fault == None && s.state == Running && s.queue == None
    requires k < |s.tasks| && !s.tasks[k].dead
    requires s.tasks[k].pc.Setup? || s.tasks[k].pc.LoopTest? || s.tasks[k].pc.Receiving?
    ensures Quiet(acts) && Exec(c, s, acts).fault == Some(NullQueue)
    decreases match s.tasks[k].pc case Setup => 2 case LoopTest => 1 case _ => 0
  {
    var r := Step(c, s, Run(k, true));
    var rest := [];
    if !s.tasks[k].pc.Receiving? {
      rest := AbortsAtReceive(c, r, k);
    }
    acts := [Run(k, true)] + rest;
    ExecAppend(c, s, [Run(k, true)], rest);
    ExecOne(c, s, Run(k, true));
  }

  /** The old task deletes the queue; then the new one begins. */
  lemma {:induction false} LosesQueue(c: Config, s: State, k: nat) returns (acts: seq<Action>)
    requires !c.hasMain && c.hasSemaphore && s.fault == None && s.state == Running
    requires k < |s.tasks| - 1 && Leaving(s.tasks[k]) && Current(s).pc.Setup? && !Current(s).dead
    ensures Quiet(acts) && Exec(c, s, acts).fault == Some(NullQueue)
    decreases 6 - Stage(s.tasks[k].pc)
  {
    var r := Step(c, s, Run(k, true));
    var rest;
    if s.tasks[k].pc.DeleteQueue? {
      rest := AbortsAtReceive(c, r, |s.tasks| - 1);
    } else {
      rest := LosesQueue(c, r, k);
    }
    acts := [Run(k, true)] + rest;
    ExecAppend(c, s, [Run(k, true)], rest);
    ExecOne(c, s, Run(k, true));
  }

  lemma NullQueueNeedsNone(c: Config, s: State, a: Action)
    requires s.fault != Some(NullQueue) && Step(c, s, a).fault == Some(NullQueue)
    ensures s.queue == None
  {
  }

  lemma {:induction false} QueueLost(c: Config, s: State, acts: seq<Action>)
    requires Quiet(acts) && s.fault == None && Exec(c, s, acts).fault == Some(NullQueue)
    ensures exists n :: 0 <= n <= |acts| && Exec(c, s, acts[..n]).queue == None
  {
    if acts != [] {
      var before := acts[..|acts| - 1];
      if Exec(c, s, before).fault == Some(NullQueue) {
        QueueLost(c, s, before);
        var n :| 0 <= n <= |before| && Exec(c, s, before[..n]).queue == None;
        assert acts[..n] == before[..n];
      } else {
        NullQueueNeedsNone(c, Exec(c, s, before), acts[|acts| - 1]);
      }
    }
  }

  /** A restarted handler service can abort for want of its queue, if and only if some old task has left its
      loop without having deleted the queue yet, and the termination semaphore lets it get there. */
  lemma EarlyRestartAbortsIff(c: Config, history: seq<Action>)
    requires !c.hasMain
    requires Exec(c, Init(), history).state == Stopped && Exec(c, Init(), history).fault == None
    ensures var s := Exec(c, Init(), history);
            (exists acts :: Quiet(acts) && Exec(c, StartService(s), acts).fault == Some(NullQueue)) <==>
            c.hasSemaphore && exists k :: 0 <= k < |s.tasks| && Leaving(s.tasks[k])
  {
    var s := Exec(c, Init(), history);
    var r := StartService(s);
    if c.hasSemaphore && exists k :: 0 <= k < |s.tasks| && Leaving(s.tasks[k]) {
      var k :| 0 <= k < |s.tasks| && Leaving(s.tasks[k]);
      assert r.tasks[k] == s.tasks[k];
      var acts := LosesQueue(c, r, k);
    } else {
      RestartSafeIff(c, history);
      forall acts | Quiet(acts)
        ensures Exec(c, r, acts).fault != Some(NullQueue)
      {
        if Exec(c, r, acts).fault == Some(NullQueue) {
          QueueLost(c, r, acts);
          var n :| 0 <= n <= |acts| && Exec(c, r, acts[..n]).queue == None;
          assert Quiet(acts[..n]);
        }
      }
    }
  }

  // ---------------------------------------------------------------------------------------------
  // A stopped service can always be restarted safely
  // ---------------------------------------------------------------------------------------------

  /** How many statements a task of a stopped service can still be from its end. */
  function ToGo(pc: Pc): nat {
    match pc
    case Setup => 9
    case Receiving => 8
    case Handling(_) => 7
    case LoopTest => 6
    case InMain => 6
    case Teardown => 5
    case Give => 4
    case DeleteTask => 3
    case DeleteQueue => 2
    case Sleeping => 0
  }

  lemma FinishStep(c: Config, s: State)
    requires OneLoop(c, s) && c.hasSemaphore && s.state == Stopped && s.fault == None
    requires s.tasks != [] && !Current(s).Finished()
    ensures var r := Step(c, s, Run(|s.tasks| - 1, true));
            && r.state == Stopped && r.fault == None
            && |r.tasks| == |s.tasks| && ToGo(Current(r).pc) < ToGo(Current(s).pc)
  {
  }

  /** From every disciplined run that ends stopped, the task that is left can finish, without another Start; and
      then a restart keeps the discipline. */
  lemma {:induction false} CanFinish(c: Config, acts: seq<Action>) returns (more: seq<Action>)
    requires Disciplined(c, acts) && c.hasSemaphore
    requires Exec(c, Init(), acts).state == Stopped && Exec(c, Init(), acts).fault == None
    ensures Quiet(more) && Disciplined(c, acts + more)
    ensures Exec(c, Init(), acts + more).state == Stopped && Idle(Exec(c, Init(), acts + more))
    decreases var s := Exec(c, Init(), acts); if s.tasks == [] then 0 else ToGo(Current(s).pc)
  {
    var s := Exec(c, Init(), acts);
    OneLoopAlways(c, acts);
    if s.tasks == [] || Current(s).Finished() {
      more := [];
      assert acts + [] == acts;
    } else {
      var a := Run(|s.tasks| - 1, true);
      FinishStep(c, s);
      ExecSnoc(c, Init(), acts, a);
      DisciplinedAppend(c, acts, [a]);
      var rest := CanFinish(c, acts + [a]);
      more := [a] + rest;
      Associate(acts, [a], rest);
    }
  }
}
