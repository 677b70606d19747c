/** What holds of a service that is restarted only after its old task has finished, and exactly what an
    early restart breaks: the old task's cleanup deletes the new task's queue. */
module Restarts {
  import opened Base
  import opened Lifecycle

  ghost predicate Idle(s: State) {
    forall k :: 0 <= k < |s.tasks| ==> s.tasks[k].Finished()
  }

  /** Every Start that takes effect finds all earlier tasks finished. */
  ghost predicate Disciplined(c: Config, acts: seq<Action>) {
    acts == [] ||
    (var before := acts[..|acts| - 1];
     && Disciplined(c, before)
     && (acts[|acts| - 1].Start? && Exec(c, Init(), before).state == Stopped ==> Idle(Exec(c, Init(), before))))
  }

  /** The events of the receives that succeeded. */
  function Delivered(receives: seq<Option<ServiceEvent>>): seq<ServiceEvent> {
    if receives == [] then []
    else
      Delivered(receives[..|receives| - 1])
      + match receives[|receives| - 1] { case None => [] case Some(e) => [e] }
  }

  /** The current task: the one `service->task` refers to. */
  function Current(s: State): Task
    requires s.tasks != []
  {
    s.tasks[|s.tasks| - 1]
  }

  /** Its own cleanup is what finishes a task and deletes the queue. */
  ghost predicate CurrentOk(c: Config, s: State)
    requires s.tasks != []
  {
    var t := Current(s);
    && (t.pc.InMain? ==> c.hasMain)
    && (t.cancelled ==> Stage(t.pc) >= 5)
    && (t.dead ==> t.pc.Sleeping?)
    && (s.queue.Some? <==> !t.pc.Sleeping?)
    && (s.state == Running && !c.hasMain ==> Stage(t.pc) <= 1)
    && (!c.hasSemaphore ==> Stage(t.pc) <= 3)
    && (s.queue.Some? ==> s.received == Delivered(t.receives))
  }

  ghost predicate OneLoop(c: Config, s: State) {
    && s.state != Waiting
    && (forall k :: 0 <= k < |s.tasks| - 1 ==> s.tasks[k].Finished())
    && (if s.tasks == [] then s.state == Stopped && s.queue == None else CurrentOk(c, s))
    && (s.fault == Some(NullQueue) ==> c.hasMain && c.hasSemaphore)
  }

  lemma CurrentReceives(c: Config, s: State, ok: bool)
    requires s.tasks != [] && CurrentOk(c, s) && Current(s).pc.Receiving?
    ensures var r := RunTask(c, s, |s.tasks| - 1, ok);
            && r.tasks != [] && CurrentOk(c, r)
            && (r.fault != s.fault ==> s.queue == None)
  {
    var t, r := Current(s), Current(RunTask(c, s, |s.tasks| - 1, ok));
    assert r != t ==> r.receives[..|t.receives|] == t.receives;
  }

  lemma CurrentAdvances(c: Config, s: State, ok: bool)
    requires s.tasks != [] && CurrentOk(c, s) && !Current(s).dead && !Current(s).pc.Receiving?
    ensures var r := RunTask(c, s, |s.tasks| - 1, ok);
            && r.tasks != [] && CurrentOk(c, r)
            && (r.fault == Some(NullQueue) ==> s.fault == Some(NullQueue))
  {
    var r := RunTask(c, s, |s.tasks| - 1, ok);
    assert r.tasks != [] ==> Current(r).receives == Current(s).receives;
  }

  lemma OneLoopRun(c: Config, s: State, k: nat, ok: bool)
    requires OneLoop(c, s) && s.fault == None && k < |s.tasks| && !s.tasks[k].dead
    ensures OneLoop(c, RunTask(c, s, k, ok))
  {
    if k < |s.tasks| - 1 {
      assert s.tasks[k].Finished();
      assert RunTask(c, s, k, ok).tasks == s.tasks;
    } else if Current(s).pc.Receiving? {
      CurrentReceives(c, s, ok);
    } else {
      CurrentAdvances(c, s, ok);
    }
  }

  lemma OneLoopStep(c: Config, s: State, a: Action)
    requires OneLoop(c, s)
    requires a.Start? && s.state == Stopped ==> Idle(s)
    ensures OneLoop(c, Step(c, s, a))
  {
    if a.Run? && s.fault == None && a.k < |s.tasks| && !s.tasks[a.k].dead {
      OneLoopRun(c, s, a.k, a.ok);
    }
  }

  /** In every disciplined run at most one task is unfinished, and it is the current one. */
  lemma {:induction false} OneLoopAlways(c: Config, acts: seq<Action>)
    requires Disciplined(c, acts)
    ensures OneLoop(c, Exec(c, Init(), acts))
  {
    if acts != [] {
      OneLoopAlways(c, acts[..|acts| - 1]);
      OneLoopStep(c, Exec(c, Init(), acts[..|acts| - 1]), acts[|acts| - 1]);
    }
  }

  /** Dispatch is exact. In a disciplined run of a handler service, while its queue lives and no Notify
      has found it full: the accepted events are those its receives delivered, in order, then those
      queued; and the handler has been called once for each receive, in order. */
  lemma DispatchExact(c: Config, acts: seq<Action>)
    requires Disciplined(c, acts) && !c.hasMain && c.hasHandler
    ensures var s := Exec(c, Init(), acts);
            s.queue.Some? && s.fault == None ==>
              && s.tasks != []
              && s.accepted == Delivered(Current(s).receives) + s.queue.value
              && Current(s).hooks == Before(c, Current(s).pc) + Calls(Handled(Current(s))) + After(c, Current(s).pc)
  {
    OneLoopAlways(c, acts);
    AccountedAlways(c, acts);
    HooksInOrder(c, acts);
    var s := Exec(c, Init(), acts);
    if s.queue.Some? {
      assert OnScript(c, Current(s));
    }
  }

  // ---------------------------------------------------------------------------------------------
  // Which services keep their queue while they run
  // ---------------------------------------------------------------------------------------------

  /** Past its loop, with the queue deletion still to come. */
  predicate Leaving(t: Task) {
    !t.dead && 2 <= Stage(t.pc) <= 5
  }

  predicate Quiet(acts: seq<Action>) {
    forall i :: 0 <= i < |acts| ==> !acts[i].Start? && !acts[i].Stop?
  }

  /** A leaving task can run on to the deletion of the queue while the service is RUNNING. */
  lemma {:induction false} LeavingRun(c: Config, s: State, k: nat) returns (acts: seq<Action>)
    requires c.hasSemaphore && s.fault == None && s.state == Running
    requires k < |s.tasks| && Leaving(s.tasks[k])
    ensures Quiet(acts)
    ensures Exec(c, s, acts).state == Running && Exec(c, s, acts).queue == None
    decreases 6 - Stage(s.tasks[k].pc)
  {
    var r := Step(c, s, Run(k, true));
    var rest := [];
    if !s.tasks[k].pc.DeleteQueue? {
      rest := LeavingRun(c, r, k);
    }
    acts := [Run(k, true)] + rest;
    ExecAppend(c, s, [Run(k, true)], rest);
    assert Exec(c, s, [Run(k, true)]) == r by {
      assert [Run(k, true)][..0] == [];
    }
  }

  lemma {:induction false} DisciplinedAppend(c: Config, first: seq<Action>, next: seq<Action>)
    requires Disciplined(c, first) && Quiet(next)
    ensures Disciplined(c, first + next)
  {
    if next == [] {
      assert first + next == first;
    } else {
      DisciplinedAppend(c, first, next[..|next| - 1]);
      assert (first + next)[..|first + next| - 1] == first + next[..|next| - 1];
    }
  }

  /** A service whose own main returns. */
  lemma MainReturnsRun(c: Config) returns (acts: seq<Action>)
    requires c.hasMain && c.hasSemaphore
    ensures Disciplined(c, acts)
    ensures Exec(c, Init(), acts).state == Running && Exec(c, Init(), acts).queue == None
  {
    var begin := [Start, Run(0, true), Run(0, true)];
    assert begin[..2] == [Start, Run(0, true)] && begin[..2][..1] == [Start] && [Start][..0] == [];
    var s1 := StartService(Init());
    assert Exec(c, Init(), [Start]) == Step(c, Init(), Start) == s1;
    var s2 := Step(c, s1, Run(0, true));
    assert Exec(c, Init(), begin[..2]) == s2;
    var s3 := Step(c, s2, Run(0, true));
    assert Exec(c, Init(), begin) == s3;
    assert Disciplined(c, [Start]) && Disciplined(c, begin[..2]) && Disciplined(c, begin);
    var rest := LeavingRun(c, s3, 0);
    acts := begin + rest;
    ExecAppend(c, Init(), begin, rest);
    DisciplinedAppend(c, begin, rest);
  }

  /** RUNNING implies a live queue, in every disciplined run, exactly for the services that do not both
      supply their own main and a termination semaphore (without one, cleanup aborts first). */
  lemma LiveQueueIff(c: Config)
    ensures (forall acts :: Disciplined(c, acts) && Exec(c, Init(), acts).state == Running ==>
              Exec(c, Init(), acts).queue.Some?)
      <==> !(c.hasMain && c.hasSemaphore)
  {
    if c.hasMain && c.hasSemaphore {
      var acts := MainReturnsRun(c);
    } else {
      forall acts | Disciplined(c, acts) && Exec(c, Init(), acts).state == Running
        ensures Exec(c, Init(), acts).queue.Some?
      {
        OneLoopAlways(c, acts);
      }
    }
  }

  // ---------------------------------------------------------------------------------------------
  // When a restart is safe
  // ---------------------------------------------------------------------------------------------

  predicate InsideLoop(t: Task) {
    t.pc.Setup? || InLoop(t.pc)
  }

  /** No task will ever leave its loop while the service keeps running. */
  ghost predicate Looping(c: Config, s: State) {
    && s.state == Running
    && s.queue.Some?
    && forall k :: 0 <= k < |s.tasks| ==> s.tasks[k].Finished() || InsideLoop(s.tasks[k])
  }

  lemma LoopingRun(c: Config, s: State, k: nat, ok: bool)
    requires !c.hasMain && Looping(c, s) && k < |s.tasks| && !s.tasks[k].dead
    ensures Looping(c, RunTask(c, s, k, ok))
  {
    assert s.tasks[k].Finished() || InsideLoop(s.tasks[k]);
  }

  lemma LoopingStep(c: Config, s: State, a: Action)
    requires !c.hasMain && Looping(c, s) && !a.Start? && !a.Stop?
    ensures Looping(c, Step(c, s, a))
  {
    if a.Run? && s.fault == None && a.k < |s.tasks| && !s.tasks[a.k].dead {
      LoopingRun(c, s, a.k, a.ok);
    }
  }

  lemma {:induction false} LoopingAlways(c: Config, s: State, acts: seq<Action>)
    requires !c.hasMain && Looping(c, s) && Quiet(acts)
    ensures Looping(c, Exec(c, s, acts))
  {
    if acts != [] {
      LoopingAlways(c, s, acts[..|acts| - 1]);
      LoopingStep(c, Exec(c, s, acts[..|acts| - 1]), acts[|acts| - 1]);
    }
  }

  // ---------------------------------------------------------------------------------------------
  // When exactly one loop survives a restart
  // ---------------------------------------------------------------------------------------------

  /** The current task is in its loop with a live queue, and nobody can cancel it. */
  ghost predicate OnlyCurrentLoops(s: State) {
    && s.tasks != []
    && s.queue.Some?
    && InsideLoop(Current(s)) && !Current(s).dead && !Current(s).cancelled
    && forall k :: 0 <= k < |s.tasks| - 1 ==> s.tasks[k].Finished()
  }

  lemma OnlyCurrentLoopsStep(c: Config, s: State, a: Action)
    requires !c.hasMain && s.state == Running && OnlyCurrentLoops(s) && !a.Start? && !a.Stop?
    ensures Step(c, s, a).state == Running && OnlyCurrentLoops(Step(c, s, a))
  {
    if a.Run? && a.k < |s.tasks| - 1 {
      assert s.tasks[a.k].Finished();
    }
  }

  lemma {:induction false} OnlyCurrentLoopsAlways(c: Config, s: State, acts: seq<Action>)
    requires !c.hasMain && s.state == Running && OnlyCurrentLoops(s) && Quiet(acts)
    ensures Exec(c, s, acts).state == Running && OnlyCurrentLoops(Exec(c, s, acts))
  {
    if acts != [] {
      OnlyCurrentLoopsAlways(c, s, acts[..|acts| - 1]);
      OnlyCurrentLoopsStep(c, Exec(c, s, acts[..|acts| - 1]), acts[|acts| - 1]);
    }
  }

  /** After a restart of a stopped handler service its new loop is the only one, in every run until the next
      Start or Stop, if and only if all old tasks had finished. */
  lemma OneLoopAfterRestartIff(c: Config, s: State)
    requires !c.hasMain && s.state == Stopped && s.fault == None
    ensures (forall acts :: Quiet(acts) ==> OnlyCurrentLoops(Exec(c, StartService(s), acts))) <==> Idle(s)
  {
    var r := StartService(s);
    if Idle(s) {
      forall acts | Quiet(acts)
        ensures OnlyCurrentLoops(Exec(c, r, acts))
      {
        OnlyCurrentLoopsAlways(c, r, acts);
      }
    } else {
      var k :| 0 <= k < |s.tasks| && !s.tasks[k].Finished();
      assert r.tasks[k] == s.tasks[k];
      assert Exec(c, r, []) == r && Quiet([]) && !OnlyCurrentLoops(r);
    }
  }

  /** Task `k` is alive in its loop. */
  predicate Loops(s: State, k: nat) {
    k < |s.tasks| && InsideLoop(s.tasks[k]) && !s.tasks[k].dead
  }

  lemma StillLoops(c: Config, s: State, a: Action, k: nat)
    requires !c.hasMain && s.state == Running && !a.Start? && !a.Stop?
    requires k < |s.tasks| - 1 && Loops(s, k) && !s.tasks[k].cancelled
    ensures var r := Step(c, s, a);
            r.state == Running && |r.tasks| == |s.tasks| && Loops(r, k) && !r.tasks[k].cancelled
  {
  }

  lemma {:induction false} LoopsForGood(c: Config, s: State, acts: seq<Action>, k: nat)
    requires !c.hasMain && s.state == Running && Quiet(acts)
    requires k < |s.tasks| - 1 && Loops(s, k) && !s.tasks[k].cancelled
    ensures var r := Exec(c, s, acts);
            r.state == Running && |r.tasks| == |s.tasks| && Loops(r, k) && !r.tasks[k].cancelled
  {
    if acts != [] {
      LoopsForGood(c, s, acts[..|acts| - 1], k);
      StillLoops(c, Exec(c, s, acts[..|acts| - 1]), acts[|acts| - 1], k);
    }
  }

  /** An old task stays in its loop beside the new one, in every run until the next Start or Stop, if and
      only if the restart finds it in its loop without a pending cancellation: a second receiver for good. */
  lemma SecondLoopIff(c: Config, s: State, k: nat)
    requires !c.hasMain && s.state == Stopped && s.fault == None && k < |s.tasks|
    ensures (forall acts :: Quiet(acts) ==> Loops(Exec(c, StartService(s), acts), k))
      <==> Loops(s, k) && !s.tasks[k].cancelled
  {
    var r := StartService(s);
    assert r.tasks[k] == s.tasks[k];
    if Loops(s, k) && !s.tasks[k].cancelled {
      forall acts | Quiet(acts)
        ensures Loops(Exec(c, r, acts), k)
      {
        LoopsForGood(c, r, acts, k);
      }
    } else if Loops(s, k) {
      assert [Die(k)][..0] == [];
      assert Exec(c, r, [Die(k)]) == Step(c, r, Die(k));
      assert Quiet([Die(k)]) && !Loops(Exec(c, r, [Die(k)]), k);
    } else {
      assert Exec(c, r, []) == r && Quiet([]);
    }
  }

  // ---------------------------------------------------------------------------------------------
  // Services without a termination semaphore
  // ---------------------------------------------------------------------------------------------

  /** Without the semaphore no task gets past its termination give. */
  ghost predicate CleanupBlocked(c: Config, s: State) {
    if c.hasSemaphore then s.fault != Some(NullSemaphore)
    else forall k :: 0 <= k < |s.tasks| ==> Stage(s.tasks[k].pc) <= 3
  }

  lemma CleanupBlockedStep(c: Config, s: State, a: Action)
    requires CleanupBlocked(c, s)
    ensures CleanupBlocked(c, Step(c, s, a))
  {
  }

  lemma {:induction false} CleanupBlockedAlways(c: Config, acts: seq<Action>)
    ensures CleanupBlocked(c, Exec(c, Init(), acts))
  {
    if acts != [] {
      CleanupBlockedAlways(c, acts[..|acts| - 1]);
      CleanupBlockedStep(c, Exec(c, Init(), acts[..|acts| - 1]), acts[|acts| - 1]);
    }
  }

  /** A step of the only task while the service is stopped. */
  lemma OneStep(c: Config, acts: seq<Action>, s: State, pc: Pc) returns (next: seq<Action>, r: State)
    requires s == Exec(c, Init(), acts) && s.fault == None && s.state == Stopped
    requires |s.tasks| == 1 && !s.tasks[0].dead && s.tasks[0].pc == pc
    requires pc.Setup? || pc.InMain? || pc.LoopTest? || pc.Teardown?
    ensures r == Exec(c, Init(), next) && r.fault == None && r.state == Stopped
    ensures |r.tasks| == 1 && !r.tasks[0].dead && r.tasks[0].pc == Advance(c, s.tasks[0], false).pc
  {
    next := acts + [Run(0, true)];
    ExecSnoc(c, Init(), acts, Run(0, true));
    r := Step(c, s, Run(0, true));
  }

  /** Start, Stop, and four statements of the task. */
  lemma AbortingRun(c: Config) returns (acts: seq<Action>)
    requires !c.hasSemaphore
    ensures Exec(c, Init(), acts).fault == Some(NullSemaphore)
  {
    acts := [];
    ExecSnoc(c, Init(), acts, Start);
    ExecSnoc(c, Init(), acts + [Start], Stop);
    acts := acts + [Start] + [Stop];
    var s := StopService(StartService(Init()));
    acts, s := OneStep(c, acts, s, Setup);
    acts, s := OneStep(c, acts, s, if c.hasMain then InMain else LoopTest);
    acts, s := OneStep(c, acts, s, Teardown);
    ExecSnoc(c, Init(), acts, Run(0, true));
    acts := acts + [Run(0, true)];
  }

  /** The cleanup of a service can abort the process for want of a termination semaphore, if and only if it
      has none. */
  lemma NullSemaphoreIff(c: Config)
    ensures (exists acts :: Exec(c, Init(), acts).fault == Some(NullSemaphore)) <==> !c.hasSemaphore
  {
    if !c.hasSemaphore {
      var acts := AbortingRun(c);
    }
    forall acts | Exec(c, Init(), acts).fault == Some(NullSemaphore)
      ensures !c.hasSemaphore
    {
      CleanupBlockedAlways(c, acts);
    }
  }

  // ---------------------------------------------------------------------------------------------
  // When a restart keeps its queue
  // ---------------------------------------------------------------------------------------------

  lemma BlockedKeepsQueue(c: Config, s: State, a: Action)
    requires !c.hasSemaphore && CleanupBlocked(c, s) && s.queue.Some? && !a.Start? && !a.Stop?
    ensures CleanupBlocked(c, Step(c, s, a)) && Step(c, s, a).queue.Some?
  {
  }

  lemma {:induction false} BlockedKeepsQueueAlways(c: Config, s: State, acts: seq<Action>)
    requires !c.hasSemaphore && CleanupBlocked(c, s) && s.queue.Some? && Quiet(acts)
    ensures CleanupBlocked(c, Exec(c, s, acts)) && Exec(c, s, acts).queue.Some?
  {
    if acts != [] {
      BlockedKeepsQueueAlways(c, s, acts[..|acts| - 1]);
      BlockedKeepsQueue(c, Exec(c, s, acts[..|acts| - 1]), acts[|acts| - 1]);
    }
  }

  lemma NoneLeaving(c: Config, s: State, acts: seq<Action>)
    requires !c.hasMain && AllOnScript(c, s) && s.state == Stopped && Quiet(acts)
    requires forall k :: 0 <= k < |s.tasks| ==> !Leaving(s.tasks[k])
    ensures Exec(c, StartService(s), acts).queue.Some?
  {
    var r := StartService(s);
    forall k | 0 <= k < |r.tasks|
      ensures r.tasks[k].Finished() || InsideLoop(r.tasks[k])
    {
      if k < |s.tasks| {
        assert OnScript(c, s.tasks[k]) && !Leaving(s.tasks[k]);
      }
    }
    LoopingAlways(c, r, acts);
  }

  /** Restarting a stopped handler service is safe, in that the new run keeps its queue until the next Stop, if
      and only if no old task has left its loop without having deleted the queue yet, or the service has no
      termination semaphore (the cleanup then aborts before it can delete anything). */
  lemma RestartSafeIff(c: Config, history: seq<Action>)
    requires !c.hasMain
    requires Exec(c, Init(), history).state == Stopped && Exec(c, Init(), history).fault == None
    ensures var s := Exec(c, Init(), history);
            (forall acts :: Quiet(acts) ==> Exec(c, StartService(s), acts).queue.Some?)
            <==> !c.hasSemaphore || forall k :: 0 <= k < |s.tasks| ==> !Leaving(s.tasks[k])
  {
    var s := Exec(c, Init(), history);
    var r := StartService(s);
    HooksInOrder(c, history);
    CleanupBlockedAlways(c, history);
    if c.hasSemaphore && exists k :: 0 <= k < |s.tasks| && Leaving(s.tasks[k]) {
      var k :| 0 <= k < |s.tasks| && Leaving(s.tasks[k]);
      assert r.tasks[k] == s.tasks[k];
      var acts := LeavingRun(c, r, k);
    } else {
      forall acts | Quiet(acts)
        ensures Exec(c, r, acts).queue.Some?
      {
        if c.hasSemaphore {
          NoneLeaving(c, s, acts);
        } else {
          BlockedKeepsQueueAlways(c, r, acts);
        }
      }
    }
  }
}
