/** When the queue's signalling rule (signal only on the 0 to 1 transition, wait with `if`) is enough.

    Two things can go wrong: a waiter can sleep although messages are queued, and a waiter that was
    signalled can report a timeout all the same. For each, the exact set of callers that makes it possible;
    both depend on whether a wait that times out may consume a signal, as POSIX allows. */
module QueueWakeups {
  import opened Base
  import opened RingBuffer
  import opened Pthread
  import opened QueueSteps

  /** `t` has been signalled and has not tested the queue again yet. */
  ghost predicate Pending<M>(s: State<M>, t: Tid) {
    && t < |s.mon.threads|
    && match s.mon.threads[t]
       case Entering(Waited(Signalled)) => true
       case Holding(Waited(Signalled)) => true
       case Holding(RecvCheck(Some(Signalled))) => true
       case _ => false
  }

  /** A thread sleeps in the condition variable, messages are queued, nobody is about to signal,
      and no signalled thread is on its way. */
  ghost predicate LostWakeup<M>(s: State<M>) {
    && s.mon.AnyParked()
    && s.ring.count > 0
    && (forall t :: !AboutToSignal(s, t))
    && (forall t :: !Pending(s, t))
  }

  /** `t` was signalled and is about to report a timeout all the same: it found the queue empty again, or
      its deadline overtook the signal. */
  ghost predicate StolenWakeup<M>(s: State<M>, t: Tid) {
    && s.mon.Holds(t)
    && (s.mon.threads[t].at == RecvExit(ErrorTimeout, None, Some(Signalled))
        || s.mon.threads[t].at == RecvExit(ErrorTimeout, None, Some(Consumed)))
  }

  ghost predicate ValidConfig(c: Config) {
    forall t :: t in c.producers || t in c.consumers ==> t < c.threads
  }

  // ---------------------------------------------------------------------------------------------
  // Threads keep to their roles
  // ---------------------------------------------------------------------------------------------

  ghost predicate RoleKept<M>(c: Config, s: State<M>, t: Tid)
    requires t < |s.mon.threads|
  {
    match s.mon.threads[t]
    case Outside => true
    case Parked => t in c.consumers
    case Entering(at) => if at.SendEnter? then t in c.producers else t in c.consumers
    case Holding(at) =>
      if at.SendEnter? || at.SendSignal? || at.SendExit? then
        t in c.producers && (at.SendSignal? ==> s.ring.count > 0)
      else t in c.consumers
  }

  ghost predicate Roles<M>(c: Config, s: State<M>) {
    && s.Ok()
    && s.ring.size == c.size
    && forall t :: 0 <= t < |s.mon.threads| ==> RoleKept(c, s, t)
  }

  lemma RolesRun<M>(c: Config, s: State<M>, u: Tid)
    requires Roles(c, s) && s.mon.Holds(u)
    ensures Roles(c, RunAt(s, u))
  {
    var r := RunAt(s, u);
    forall t | 0 <= t < |r.mon.threads|
      ensures RoleKept(c, r, t)
    {
      assert RoleKept(c, s, t);
    }
  }

  lemma RolesStep<M>(c: Config, s: State<M>, a: Action<M>)
    requires Roles(c, s)
    ensures Roles(c, Step(c, s, a))
  {
    if a.Run? {
      if s.mon.Holds(a.t) {
        RolesRun(c, s, a.t);
      }
    } else {
      var r := Step(c, s, a);
      forall t | 0 <= t < |r.mon.threads|
        ensures RoleKept(c, r, t)
      {
        assert RoleKept(c, s, t);
      }
    }
  }

  lemma {:induction false} RolesAlways<M>(c: Config, acts: seq<Action<M>>)
    ensures Roles(c, Exec(c, Init<M>(c), acts))
  {
    if acts != [] {
      RolesAlways(c, acts[..|acts| - 1]);
      RolesStep(c, Exec(c, Init<M>(c), acts[..|acts| - 1]), acts[|acts| - 1]);
    }
  }

  // ---------------------------------------------------------------------------------------------
  // Lost wake-ups
  // ---------------------------------------------------------------------------------------------

  /** Two threads can wait while a third one sends: twice, so that the second message goes unsignalled;
      or once, if the signalled one of them can time out and consume the signal. */
  ghost predicate CanLose(c: Config) {
    && c.size >= (if c.consumes then 1 else 2)
    && exists p, u, v :: p in c.producers && u in c.consumers && v in c.consumers && p != u && p != v && u != v
  }

  ghost predicate Awake<M>(c: Config, s: State<M>) {
    s.ring.count > 0 && s.mon.AnyParked() ==>
      || (exists t :: AboutToSignal(s, t))
      || (c.size <= 1 && !c.consumes && exists t :: Pending(s, t))
  }

  lemma AwakeStep<M>(c: Config, s: State<M>, a: Action<M>)
    requires Roles(c, s) && Awake(c, s) && !CanLose(c)
    ensures Awake(c, Step(c, s, a))
  {
    var r := Step(c, s, a);
    if r.ring.count > 0 && r.mon.AnyParked() && r != s {
      if a.Signal? {
        SignalWakes(c, s, a.t, a.v);
      } else if a.Run? {
        RunKeepsAwake(c, s, a.t);
      } else if !a.Wait? && !a.Refuse? {
        OthersKeepAwake(c, s, a);
      }
    }
  }

  lemma OthersKeepAwake<M>(c: Config, s: State<M>, a: Action<M>)
    requires s.Ok() && Awake(c, s) && !a.Signal? && !a.Run? && !a.Wait? && !a.Refuse?
    requires s.ring.count > 0
    ensures Awake(c, Step(c, s, a))
  {
    var r := Step(c, s, a);
    if r.mon.AnyParked() {
      var u :| 0 <= u < |r.mon.threads| && r.mon.IsParked(u);
      assert s.mon.IsParked(u);
      if t :| AboutToSignal(s, t) {
        assert AboutToSignal(r, t);
      } else {
        var t :| Pending(s, t);
        PendingStays(c, s, a, t);
      }
    }
  }

  lemma PendingStays<M>(c: Config, s: State<M>, a: Action<M>, t: Tid)
    requires s.Ok() && Pending(s, t) && !c.consumes && !a.Signal? && !a.Run? && !a.Wait? && !a.Refuse?
    ensures Pending(Step(c, s, a), t)
  {
  }

  lemma SignalWakes<M>(c: Config, s: State<M>, t: Tid, v: Tid)
    requires Roles(c, s) && !CanLose(c)
    requires Step(c, s, Signal(t, v)) != s && Step(c, s, Signal(t, v)).mon.AnyParked()
    ensures Awake(c, Step(c, s, Signal(t, v)))
  {
    var r := Step(c, s, Signal(t, v));
    var u :| 0 <= u < |r.mon.threads| && r.mon.IsParked(u);
    assert s.mon.IsParked(u) && s.mon.IsParked(v) && u != v;
    assert RoleKept(c, s, t) && RoleKept(c, s, u) && RoleKept(c, s, v);
    assert c.size <= 1 && !c.consumes;
    assert Pending(r, v);
  }

  lemma RunKeepsAwake<M>(c: Config, s: State<M>, t: Tid)
    requires Roles(c, s) && Awake(c, s) && s.mon.Holds(t)
    ensures Awake(c, Step(c, s, Run(t)))
  {
    var r := Step(c, s, Run(t));
    assert RoleKept(c, s, t);
    if r.ring.count > 0 && r.mon.AnyParked() {
      var w :| 0 <= w < |r.mon.threads| && r.mon.IsParked(w);
      assert s.mon.IsParked(w);
      if s.ring.count == 0 {
        assert AboutToSignal(r, t);
      } else if u :| AboutToSignal(s, u) {
        assert u == t;
      } else {
        var u :| Pending(s, u);
        assert u != t ==> Pending(r, u);
        assert Pending(r, u);
      }
    }
  }

  lemma {:induction false} AwakeAlways<M>(c: Config, acts: seq<Action<M>>)
    requires !CanLose(c)
    ensures Awake(c, Exec(c, Init<M>(c), acts))
  {
    if acts != [] {
      var s := Exec(c, Init<M>(c), acts[..|acts| - 1]);
      AwakeAlways(c, acts[..|acts| - 1]);
      RolesAlways(c, acts[..|acts| - 1]);
      AwakeStep(c, s, acts[|acts| - 1]);
    }
  }

  // ---------------------------------------------------------------------------------------------
  // Stolen wake-ups
  // ---------------------------------------------------------------------------------------------

  /** Some other thread can send while `t` waits. */
  ghost predicate CanBeSignalled(c: Config, t: Tid) {
    c.size >= 1 && t in c.consumers && exists p :: p in c.producers && p != t
  }

  /** Somebody can be signalled, and either its deadline can overtake the signal or a second receiver can
      be faster. */
  ghost predicate CanSteal(c: Config) {
    exists t :: CanBeSignalled(c, t) && (c.consumes || exists u :: u in c.consumers && u != t)
  }

  /** `t` was signalled and its wait is about to report a timeout. */
  ghost predicate Overtaken<M>(s: State<M>, t: Tid) {
    && t < |s.mon.threads|
    && match s.mon.threads[t]
       case Entering(Waited(Consumed)) => true
       case Holding(Waited(Consumed)) => true
       case Holding(RecvCheck(Some(Consumed))) => true
       case _ => false
  }

  ghost predicate SignalsHonoured<M>(c: Config, s: State<M>) {
    && (forall t :: Pending(s, t) ==> s.ring.count > 0 && CanBeSignalled(c, t))
    && (forall t :: !Overtaken(s, t))
    && (forall t :: !StolenWakeup(s, t))
  }

  lemma PendingAfterRun<M>(c: Config, s: State<M>, u: Tid, t: Tid)
    requires Roles(c, s) && SignalsHonoured(c, s) && !CanSteal(c)
    requires s.mon.Holds(u) && Pending(RunAt(s, u), t)
    ensures RunAt(s, u).ring.count > 0 && CanBeSignalled(c, t)
  {
    assert Pending(s, t);
    assert RoleKept(c, s, t) && RoleKept(c, s, u);
  }

  lemma PendingAfterSignal<M>(c: Config, s: State<M>, p: Tid, v: Tid)
    requires Roles(c, s) && AboutToSignal(s, p) && s.mon.IsParked(v)
    ensures CanBeSignalled(c, v)
  {
    assert RoleKept(c, s, p) && RoleKept(c, s, v) && p != v;
  }

  lemma PendingHonoured<M>(c: Config, s: State<M>, a: Action<M>, t: Tid)
    requires Roles(c, s) && SignalsHonoured(c, s) && !CanSteal(c)
    requires Pending(Step(c, s, a), t)
    ensures Step(c, s, a).ring.count > 0 && CanBeSignalled(c, t)
  {
    if a.Signal? {
      if !Pending(s, t) {
        PendingAfterSignal(c, s, a.t, t);
      }
    } else if a.Run? {
      if s.mon.Holds(a.t) {
        PendingAfterRun(c, s, a.t, t);
      }
    } else {
      PendingBefore(c, s, a, t);
    }
  }

  lemma PendingBefore<M>(c: Config, s: State<M>, a: Action<M>, t: Tid)
    requires s.Ok() && !a.Run? && !a.Signal? && Pending(Step(c, s, a), t)
    ensures Pending(s, t) && Step(c, s, a).ring == s.ring
  {
  }

  lemma NotOvertaken<M>(c: Config, s: State<M>, a: Action<M>, t: Tid)
    requires Roles(c, s) && SignalsHonoured(c, s) && !CanSteal(c)
    ensures !Overtaken(Step(c, s, a), t)
  {
    assert !Overtaken(s, t);
    if a.Run? {
      if s.mon.Holds(a.t) {
        assert !Overtaken(s, a.t);
        NotOvertakenRun(s, a.t, t);
      }
    } else {
      assert Pending(s, t) ==> CanBeSignalled(c, t);
    }
  }

  lemma NotOvertakenRun<M>(s: State<M>, u: Tid, t: Tid)
    requires s.Ok() && s.mon.Holds(u) && !Overtaken(s, u) && !Overtaken(s, t)
    ensures !Overtaken(RunAt(s, u), t)
  {
  }

  lemma NotStolenRun<M>(c: Config, s: State<M>, u: Tid, t: Tid)
    requires s.Ok() && SignalsHonoured(c, s) && s.mon.Holds(u)
    ensures !StolenWakeup(RunAt(s, u), t)
  {
    assert !Overtaken(s, u) && !StolenWakeup(s, u);
    assert Pending(s, u) ==> s.ring.count > 0;
  }

  lemma NotStolen<M>(c: Config, s: State<M>, a: Action<M>, t: Tid)
    requires Roles(c, s) && SignalsHonoured(c, s)
    ensures !StolenWakeup(Step(c, s, a), t)
  {
    assert !StolenWakeup(s, t);
    if a.Run? && s.mon.Holds(a.t) {
      NotStolenRun(c, s, a.t, t);
    }
  }

  lemma SignalsHonouredStep<M>(c: Config, s: State<M>, a: Action<M>)
    requires Roles(c, s) && SignalsHonoured(c, s) && !CanSteal(c)
    ensures SignalsHonoured(c, Step(c, s, a))
  {
    var r := Step(c, s, a);
    forall t
      ensures Pending(r, t) ==> r.ring.count > 0 && CanBeSignalled(c, t)
      ensures !Overtaken(r, t) && !StolenWakeup(r, t)
    {
      if Pending(r, t) {
        PendingHonoured(c, s, a, t);
      }
      NotOvertaken(c, s, a, t);
      NotStolen(c, s, a, t);
    }
  }

  lemma {:induction false} SignalsHonouredAlways<M>(c: Config, acts: seq<Action<M>>)
    requires !CanSteal(c)
    ensures SignalsHonoured(c, Exec(c, Init<M>(c), acts))
  {
    if acts != [] {
      var s := Exec(c, Init<M>(c), acts[..|acts| - 1]);
      SignalsHonouredAlways(c, acts[..|acts| - 1]);
      RolesAlways(c, acts[..|acts| - 1]);
      SignalsHonouredStep(c, s, acts[|acts| - 1]);
    }
  }

  // ---------------------------------------------------------------------------------------------
  // Runs that go wrong, and the exact conditions
  // ---------------------------------------------------------------------------------------------

  lemma Go<M(!new)>(c: Config, s: State<M>, a: Action<M>) returns (r: State<M>)
    requires s.Ok() && Reachable(c, s)
    ensures r == Step(c, s, a) && r.Ok() && Reachable(c, r)
  {
    Extend(c, s, a);
    r := Step(c, s, a);
  }

  lemma GoLock<M(!new)>(c: Config, s: State<M>, t: Tid) returns (r: State<M>)
    requires s.Ok() && Reachable(c, s) && s.mon.IsEntering(t) && s.mon.owner.None?
    ensures r == s.(mon := Acquire(s.mon, t)) && r.Ok() && Reachable(c, r)
  {
    r := Go(c, s, Lock(t));
  }

  lemma GoRun<M(!new)>(c: Config, s: State<M>, t: Tid) returns (r: State<M>)
    requires s.Ok() && Reachable(c, s) && s.mon.Holds(t)
    ensures r == RunAt(s, t) && r.Ok() && Reachable(c, r)
  {
    r := Go(c, s, Run(t));
  }

  /** Unlocks and returns. */
  lemma ReturnRun<M(!new)>(c: Config, s: State<M>, t: Tid) returns (r: State<M>)
    requires s.Ok() && Reachable(c, s) && s.mon.Holds(t)
    requires s.mon.threads[t].at.SendExit? || s.mon.threads[t].at.RecvExit?
    ensures r.mon == Monitor(None, s.mon.threads[t := Outside]) && r.ring == s.ring && r.Ok() && Reachable(c, r)
  {
    r := GoRun(c, s, t);
  }

  /** Calls Send and gets the mutex. */
  lemma GoSend<M(!new)>(c: Config, s: State<M>, t: Tid, m: M) returns (r: State<M>)
    requires s.Ok() && Reachable(c, s) && s.mon.owner == None
    requires t in c.producers && s.mon.IsOutside(t)
    ensures r == s.(mon := Monitor(Some(t), s.mon.threads[t := Holding(SendEnter(m))])) && r.Ok() && Reachable(c, r)
  {
    var s1 := Go(c, s, CallSend(t, m));
    r := GoLock(c, s1, t);
    assert r.mon.threads == s.mon.threads[t := Holding(SendEnter(m))];
  }

  /** From any quiet state: `t` calls Receive on the empty queue and parks. */
  lemma ParkRun<M(!new)>(c: Config, s: State<M>, t: Tid) returns (r: State<M>)
    requires s.Ok() && Reachable(c, s) && s.mon.owner == None
    requires t in c.consumers && s.mon.IsOutside(t) && s.ring.count == 0
    ensures r == s.(mon := Monitor(None, s.mon.threads[t := Parked])) && r.Ok() && Reachable(c, r)
  {
    var s1 := Go(c, s, CallReceive(t));
    var s2 := GoLock(c, s1, t);
    r := Go(c, s2, Wait(t));
    assert r.mon.threads == s.mon.threads[t := Parked];
  }

  /** The signal of `p` picks `v`. */
  lemma GoSignal<M(!new)>(c: Config, s: State<M>, p: Tid, v: Tid, m: M) returns (r: State<M>)
    requires s.Ok() && Reachable(c, s) && s.mon.IsParked(v) && s.ring.count == 1
    requires s.mon.Holds(p) && s.mon.threads[p].at == SendSignal(m)
    ensures r.Ok() && Reachable(c, r)
    ensures var woken := s.mon.threads[v := Entering(Waited(Signalled))];
            r == s.(mon := Monitor(Some(p), woken[p := Holding(SendExit(m, Success))]))
  {
    r := Go(c, s, Signal(p, v));
  }

  /** `p` sends into an empty queue and its signal goes to the parked thread `v`. */
  lemma FirstSendRun<M(!new)>(c: Config, s: State<M>, p: Tid, v: Tid, m: M) returns (r: State<M>)
    requires s.Ok() && Reachable(c, s) && s.mon.owner == None
    requires p in c.producers && s.mon.IsOutside(p) && s.mon.IsParked(v)
    requires s.ring.count == 0 < s.ring.size
    ensures r.Ok() && Reachable(c, r)
    ensures r.mon == Monitor(None, s.mon.threads[v := Entering(Waited(Signalled))])
    ensures r.ring == s.ring.Push(m)
  {
    var s2 := GoSend(c, s, p, m);
    var s3 := GoRun(c, s2, p);
    var s4 := GoSignal(c, s3, p, v, m);
    r := ReturnRun(c, s4, p);
    assert r.mon.threads == s.mon.threads[v := Entering(Waited(Signalled))];
  }

  /** `p` sends into a queue that is neither empty nor full: no signal. */
  lemma LaterSendRun<M(!new)>(c: Config, s: State<M>, p: Tid, m: M) returns (r: State<M>)
    requires s.Ok() && Reachable(c, s) && s.mon.owner == None
    requires p in c.producers && s.mon.IsOutside(p)
    requires 0 < s.ring.count < s.ring.size
    ensures r.Ok() && Reachable(c, r)
    ensures r.mon == s.mon && r.ring == s.ring.Push(m)
  {
    var s2 := GoSend(c, s, p, m);
    var s3 := GoRun(c, s2, p);
    var s4 := GoRun(c, s3, p);
    r := ReturnRun(c, s4, p);
    assert r.mon.threads == s.mon.threads;
  }

  /** A thread that contends for the mutex inside Receive gets it and reaches the second test. */
  lemma RecheckRun<M(!new)>(c: Config, s: State<M>, t: Tid) returns (r: State<M>)
    requires s.Ok() && Reachable(c, s) && s.mon.owner == None
    requires s.mon.IsEntering(t)
    requires var at := s.mon.threads[t].at;
             (at.Waited? && Status(at.why) == Zero) || (at.RecvEnter? && s.ring.count > 0)
    ensures r.Ok() && Reachable(c, r)
    ensures var after := if s.mon.threads[t].at.RecvEnter? then None else Some(s.mon.threads[t].at.why);
            r == s.(mon := Monitor(Some(t), s.mon.threads[t := Holding(RecvCheck(after))]))
  {
    var s1 := GoLock(c, s, t);
    r := GoRun(c, s1, t);
  }

  /** At the second test with a message queued, it takes the oldest and returns. */
  lemma DeliverRun<M(!new)>(c: Config, s: State<M>, t: Tid, after: Option<Wake>) returns (r: State<M>)
    requires s.Ok() && Reachable(c, s) && s.ring.count > 0
    requires s.mon.Holds(t) && s.mon.threads[t].at == RecvCheck(after)
    ensures r.Ok() && Reachable(c, r)
    ensures r.mon == Monitor(None, s.mon.threads[t := Outside]) && r.ring == s.ring.Pop()
  {
    var s1 := GoRun(c, s, t);
    r := ReturnRun(c, s1, t);
    assert r.mon.threads == s.mon.threads[t := Outside];
  }

  lemma TakeRun<M(!new)>(c: Config, s: State<M>, t: Tid) returns (r: State<M>)
    requires s.Ok() && Reachable(c, s) && s.mon.owner == None && s.ring.count > 0
    requires s.mon.IsEntering(t) && (s.mon.threads[t].at == Waited(Signalled) || s.mon.threads[t].at == RecvEnter)
    ensures r.Ok() && Reachable(c, r)
    ensures r.mon == Monitor(None, s.mon.threads[t := Outside]) && r.ring == s.ring.Pop()
  {
    var s1 := RecheckRun(c, s, t);
    r := DeliverRun(c, s1, t, s1.mon.threads[t].at.after);
    assert r.mon.threads == s.mon.threads[t := Outside];
  }

  /** A whole Receive call on a non-empty queue. */
  lemma ReceiveRun<M(!new)>(c: Config, s: State<M>, t: Tid) returns (r: State<M>)
    requires s.Ok() && Reachable(c, s) && s.mon.owner == None && s.ring.count > 0
    requires t in c.consumers && s.mon.IsOutside(t)
    ensures r.Ok() && Reachable(c, r)
    ensures r.mon == s.mon && r.ring == s.ring.Pop()
  {
    var s1 := Go(c, s, CallReceive(t));
    r := TakeRun(c, s1, t);
    assert r.mon.threads == s.mon.threads;
  }

  lemma InitReachable<M(!new)>(c: Config) returns (s: State<M>)
    ensures s == Init(c) && Reachable(c, s)
  {
    s := Init(c);
    var none: seq<Action<M>> := [];
    assert Exec(c, Init(c), none) == s;
  }

  lemma TwoWaitersRun<M(!new)>(c: Config, u: Tid, v: Tid) returns (s: State<M>)
    requires ValidConfig(c) && u in c.consumers && v in c.consumers && u != v
    ensures s.Ok() && Reachable(c, s)
    ensures s.mon == Monitor(None, Init<M>(c).mon.threads[u := Parked][v := Parked]) && s.ring == Empty(c.size)
  {
    s := InitReachable(c);
    s := ParkRun(c, s, u);
    s := ParkRun(c, s, v);
  }

  /** The deadline of the signalled thread `t` overtakes the signal, and `t` gets the mutex. */
  lemma OvertakenRun<M(!new)>(c: Config, s: State<M>, t: Tid) returns (r: State<M>)
    requires c.consumes && s.Ok() && Reachable(c, s) && s.mon.owner == None
    requires s.mon.IsEntering(t) && s.mon.threads[t].at == Waited(Signalled)
    ensures r == s.(mon := Monitor(Some(t), s.mon.threads[t := Holding(Waited(Consumed))])) && r.Ok() && Reachable(c, r)
  {
    var s1 := Go(c, s, Overtake(t));
    r := GoLock(c, s1, t);
    assert r.mon.threads == s.mon.threads[t := Holding(Waited(Consumed))];
  }

  /** It then returns without a look at the queue. */
  lemma OvertakeRun<M(!new)>(c: Config, s: State<M>, t: Tid) returns (stolen: State<M>, r: State<M>)
    requires c.consumes && s.Ok() && Reachable(c, s) && s.mon.owner == None
    requires s.mon.IsEntering(t) && s.mon.threads[t].at == Waited(Signalled)
    ensures Reachable(c, stolen) && StolenWakeup(stolen, t)
    ensures r.Ok() && Reachable(c, r)
    ensures r.mon == Monitor(None, s.mon.threads[t := Outside]) && r.ring == s.ring
  {
    var s1 := OvertakenRun(c, s, t);
    stolen := GoRun(c, s1, t);
    r := ReturnRun(c, stolen, t);
    assert r.mon.threads == s.mon.threads[t := Outside];
  }

  /** Two waiters, and a send that signals the first. */
  lemma OneSignalledRun<M(!new)>(c: Config, p: Tid, u: Tid, v: Tid, m: M) returns (s: State<M>)
    requires ValidConfig(c) && c.size >= 1
    requires p in c.producers && u in c.consumers && v in c.consumers && p != u && p != v && u != v
    ensures s.Ok() && Reachable(c, s)
    ensures s.mon == Monitor(None, Init<M>(c).mon.threads[v := Parked][u := Entering(Waited(Signalled))])
    ensures s.ring == Empty(c.size).Push(m)
  {
    var s1 := TwoWaitersRun(c, u, v);
    s := FirstSendRun(c, s1, p, u, m);
    assert s.mon.threads == Init<M>(c).mon.threads[v := Parked][u := Entering(Waited(Signalled))];
  }

  /** Two waiters, two sends, one receive; or two waiters, one send, one timeout that consumes the signal.
      Either run ends with every thread at rest except one that sleeps beside a queued message. */
  lemma LosingRun<M(!new)>(c: Config, p: Tid, u: Tid, v: Tid, m: M) returns (s: State<M>)
    requires ValidConfig(c) && c.size >= (if c.consumes then 1 else 2)
    requires p in c.producers && u in c.consumers && v in c.consumers && p != u && p != v && u != v
    ensures s.Ok() && Reachable(c, s) && LostWakeup(s)
    ensures s.mon == Monitor(None, Init<M>(c).mon.threads[v := Parked]) && s.ring.count == 1
  {
    var s1 := OneSignalledRun(c, p, u, v, m);
    if c.consumes {
      var _, r := OvertakeRun(c, s1, u);
      s := r;
    } else {
      var s2 := LaterSendRun(c, s1, p, m);
      s := TakeRun(c, s2, u);
    }
    assert s.mon.threads == Init<M>(c).mon.threads[v := Parked];
    assert s.mon.IsParked(v);
  }

  /** No waiter ever sleeps beside a queued message if and only if the callers exclude a sender and two
      other receivers on a queue of at least two slots (of at least one, where a timeout can consume a
      signal). One receiver, as in the service loop, is safe either way. */
  lemma NoLostWakeupIff<M(!new)>(c: Config, m: M)
    requires ValidConfig(c)
    ensures (forall s: State<M> :: Reachable(c, s) ==> !LostWakeup(s)) <==> !CanLose(c)
  {
    if CanLose(c) {
      var p, u, v :| p in c.producers && u in c.consumers && v in c.consumers && p != u && p != v && u != v;
      var s := LosingRun(c, p, u, v, m);
    } else {
      forall s: State<M> | Reachable(c, s)
        ensures !LostWakeup(s)
      {
        var acts :| Exec(c, Init(c), acts) == s;
        AwakeAlways(c, acts);
      }
    }
  }

  lemma GiveUpRun<M(!new)>(c: Config, s: State<M>, t: Tid, why: Wake) returns (r: State<M>)
    requires s.Ok() && Reachable(c, s) && s.ring.count == 0
    requires s.mon.Holds(t) && s.mon.threads[t].at == RecvCheck(Some(why))
    ensures Reachable(c, r) && r.mon.Holds(t) && r.mon.threads[t].at == RecvExit(ErrorTimeout, None, Some(why))
  {
    r := GoRun(c, s, t);
  }

  /** `u` is signalled, `v` receives first, and `u` reports a timeout. */
  lemma StealingRun<M(!new)>(c: Config, p: Tid, u: Tid, v: Tid, m: M) returns (s: State<M>)
    requires ValidConfig(c) && c.size >= 1
    requires p in c.producers && u in c.consumers && v in c.consumers && p != u && u != v
    ensures Reachable(c, s) && StolenWakeup(s, u)
  {
    s := InitReachable(c);
    s := ParkRun(c, s, u);
    s := FirstSendRun(c, s, p, u, m);
    s := ReceiveRun(c, s, v);
    s := RecheckRun(c, s, u);
    s := GiveUpRun(c, s, u, Signalled);
  }

  /** `u` is signalled, and its timeout consumes the signal. */
  lemma ConsumingRun<M(!new)>(c: Config, p: Tid, u: Tid, m: M) returns (s: State<M>)
    requires ValidConfig(c) && c.size >= 1 && c.consumes
    requires p in c.producers && u in c.consumers && p != u
    ensures Reachable(c, s) && StolenWakeup(s, u)
  {
    s := InitReachable(c);
    s := ParkRun(c, s, u);
    s := FirstSendRun(c, s, p, u, m);
    var stolen, _ := OvertakeRun(c, s, u);
    s := stolen;
  }

  /** Waiting with `if` is enough, so that a signalled Receive never reports a timeout, if and only if
      nobody can be signalled, or there is one receiver and a timeout cannot consume its signal. */
  lemma SignalsHonouredIff<M(!new)>(c: Config, m: M)
    requires ValidConfig(c)
    ensures (forall s: State<M>, t :: Reachable(c, s) ==> !StolenWakeup(s, t)) <==> !CanSteal(c)
  {
    if CanSteal(c) {
      var t :| CanBeSignalled(c, t) && (c.consumes || exists u :: u in c.consumers && u != t);
      var p :| p in c.producers && p != t;
      if c.consumes {
        var s := ConsumingRun(c, p, t, m);
      } else {
        var u :| u in c.consumers && u != t;
        var s := StealingRun(c, p, t, u, m);
      }
    } else {
      forall s: State<M>, t | Reachable(c, s)
        ensures !StolenWakeup(s, t)
      {
        var acts :| Exec(c, Init(c), acts) == s;
        SignalsHonouredAlways(c, acts);
      }
    }
  }

  /** `t` is about to report a timeout although neither its deadline nor a signal ended its wait. */
  ghost predicate SpuriousTimeout<M>(s: State<M>, t: Tid) {
    s.mon.Holds(t) && s.mon.threads[t].at == RecvExit(ErrorTimeout, None, Some(Spurious))
  }

  lemma WakeRun<M(!new)>(c: Config, s: State<M>, t: Tid) returns (r: State<M>)
    requires s.Ok() && Reachable(c, s) && s.mon.IsParked(t)
    ensures r == s.(mon := Unpark(s.mon, t, Waited(Spurious))) && r.Ok() && Reachable(c, r)
  {
    r := Go(c, s, Leave(t, Spurious));
  }

  lemma SpuriousRun<M(!new)>(c: Config, t: Tid) returns (s: State<M>)
    requires ValidConfig(c) && t in c.consumers
    ensures Reachable(c, s) && SpuriousTimeout(s, t)
  {
    s := InitReachable<M>(c);
    s := ParkRun(c, s, t);
    s := WakeRun(c, s, t);
    s := RecheckRun(c, s, t);
    s := GiveUpRun(c, s, t, Spurious);
  }

  /** `adapter/queue.h` promises to wait for `timeoutMs`; one spurious wake-up breaks that for any receiver. */
  lemma SpuriousTimeoutIff<M(!new)>(c: Config, t: Tid)
    requires ValidConfig(c)
    ensures (exists s: State<M> :: Reachable(c, s) && SpuriousTimeout(s, t)) <==> t in c.consumers
  {
    if t in c.consumers {
      var s := SpuriousRun<M>(c, t);
    }
    forall s: State<M> | Reachable(c, s) && SpuriousTimeout(s, t)
      ensures t in c.consumers
    {
      var acts :| Exec(c, Init(c), acts) == s;
      RolesAlways(c, acts);
      assert RoleKept(c, s, t);
    }
  }
}
