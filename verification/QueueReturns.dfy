/** That calls return: from every state the threads of QueueSteps can reach, every call can still return; a
    passed deadline ends a wait; and exactly which results each thread's calls can have. */
module QueueReturns {
  import opened Base
  import opened RingBuffer
  import opened Pthread
  import opened QueueSteps
  import opened QueueCalls
  import opened QueueWakeups

  /** Some run leads from `s` to `r`. */
  ghost predicate Leads<M(!new)>(c: Config, s: State<M>, r: State<M>)
    requires s.Ok()
  {
    exists acts: seq<Action<M>> :: Exec(c, s, acts) == r
  }

  lemma Here<M(!new)>(c: Config, s: State<M>)
    requires s.Ok()
    ensures Leads(c, s, s)
  {
    var none: seq<Action<M>> := [];
    assert Exec(c, s, none) == s;
  }

  /** One more step of the run that has led from `start` to `s`. */
  lemma Then<M(!new)>(c: Config, start: State<M>, s: State<M>, a: Action<M>) returns (r: State<M>)
    requires start.Ok() && s.Ok() && Leads(c, start, s)
    ensures r == Step(c, s, a) && r.Ok() && Leads(c, start, r)
  {
    var acts :| Exec(c, start, acts) == s;
    ExecSnoc(c, start, acts, a);
    r := Step(c, s, a);
  }

  lemma ExecSnoc<M>(c: Config, s: State<M>, acts: seq<Action<M>>, a: Action<M>)
    requires s.Ok()
    ensures Exec(c, s, acts + [a]) == Step(c, Exec(c, s, acts), a)
  {
    assert (acts + [a])[..|acts|] == acts;
  }

  // ---------------------------------------------------------------------------------------------
  // The mutex is always given up
  // ---------------------------------------------------------------------------------------------

  /** How many statements a call can still be from giving up the mutex. */
  function Rank<M>(at: Loc<M>): nat {
    match at
    case RecvEnter => 4
    case Waited(_) => 3
    case SendEnter(_) => 3
    case RecvCheck(_) => 2
    case SendSignal(_) => 2
    case _ => 1
  }

  ghost function OwnerRank<M>(m: Monitor<Loc<M>>): nat
    requires m.Valid()
  {
    if m.owner.None? then 0 else Rank(m.threads[m.owner.value].at)
  }

  /** Nobody else is disturbed, except that a parked thread may be woken. */
  ghost predicate OthersKept<M>(m: Monitor<Loc<M>>, m': Monitor<Loc<M>>) {
    && |m'.threads| == |m.threads|
    && forall t :: 0 <= t < |m.threads| && (m.threads[t].Entering? || m.threads[t].Outside?) ==>
         m'.threads[t] == m.threads[t]
  }

  /** The owner's next statement. */
  ghost function NextOf<M>(s: State<M>): Action<M>
    requires s.Ok() && s.mon.owner.Some?
  {
    var o := s.mon.owner.value;
    var at := s.mon.threads[o].at;
    if at.RecvEnter? && s.ring.count == 0 then Wait(o)
    else if at.SendSignal? && s.ring.count == 1 then Signal(o, Waiter(s.mon))
    else Run(o)
  }

  ghost function Waiter<M>(m: Monitor<Loc<M>>): Tid {
    if m.AnyParked() then
      var v :| 0 <= v < |m.threads| && m.IsParked(v);
      v
    else 0
  }

  lemma OwnerMoves<M>(c: Config, s: State<M>)
    requires s.Ok() && s.mon.owner.Some?
    ensures var o, r := s.mon.owner.value, Step(c, s, NextOf(s));
            && OthersKept(s.mon, r.mon) && OwnerRank(r.mon) < OwnerRank(s.mon)
            && (r.mon.owner == Some(o) || r.mon.owner == None)
            && (r.mon.owner == None ==> r.mon.IsOutside(o) || (s.mon.threads[o].at.RecvEnter? && r.mon.IsParked(o)))
            && (r.mon.owner.Some? ==> r.mon.threads[o].at.RecvEnter? ==> s.mon.threads[o].at.RecvEnter?)
  {
    var o := s.mon.owner.value;
    if s.mon.threads[o].at.SendSignal? && s.ring.count == 1 {
      assert AboutToSignal(s, o);
    }
  }

  /** The owner `o` has returned, or waits at its first test. */
  ghost predicate GivenUp<M>(m: Monitor<Loc<M>>, m': Monitor<Loc<M>>, o: Tid)
    requires m.Holds(o)
  {
    m'.IsOutside(o) || (m'.IsParked(o) && m.threads[o].at.RecvEnter?)
  }

  /** From every state the owner gives up the mutex, by returning or by waiting. */
  lemma {:induction false} FreeMutex<M(!new)>(c: Config, start: State<M>, s: State<M>) returns (r: State<M>)
    requires start.Ok() && s.Ok() && Leads(c, start, s)
    ensures r.Ok() && Leads(c, start, r) && r.mon.owner == None && OthersKept(s.mon, r.mon)
    ensures s.mon.owner.Some? ==> GivenUp(s.mon, r.mon, s.mon.owner.value)
    decreases OwnerRank(s.mon)
  {
    if s.mon.owner.None? {
      r := s;
    } else {
      var next := OwnerStep(c, start, s);
      if next.mon.owner.None? {
        r := next;
      } else {
        r := FreeMutex(c, start, next);
        KeptOn(s.mon, next.mon, r.mon);
      }
    }
  }

  lemma OwnerStep<M(!new)>(c: Config, start: State<M>, s: State<M>) returns (r: State<M>)
    requires start.Ok() && s.Ok() && Leads(c, start, s) && s.mon.owner.Some?
    ensures r.Ok() && Leads(c, start, r)
    ensures OthersKept(s.mon, r.mon) && OwnerRank(r.mon) < OwnerRank(s.mon)
    ensures var o := s.mon.owner.value;
            if r.mon.owner.None? then r.mon.IsOutside(o) || (r.mon.IsParked(o) && s.mon.threads[o].at.RecvEnter?)
            else r.mon.owner == Some(o) && (r.mon.threads[o].at.RecvEnter? ==> s.mon.threads[o].at.RecvEnter?)
  {
    OwnerMoves(c, s);
    r := Then(c, start, s, NextOf(s));
  }

  lemma KeptOn<M>(m: Monitor<Loc<M>>, m': Monitor<Loc<M>>, m'': Monitor<Loc<M>>)
    requires OthersKept(m, m') && OthersKept(m', m'')
    ensures OthersKept(m, m'')
  {
  }

  // ---------------------------------------------------------------------------------------------
  // Every call can return
  // ---------------------------------------------------------------------------------------------

  /** A thread that contends for the mutex gets it. */
  lemma GetMutex<M(!new)>(c: Config, start: State<M>, s: State<M>, t: Tid) returns (r: State<M>)
    requires start.Ok() && s.Ok() && Leads(c, start, s) && s.mon.IsEntering(t)
    ensures r.Ok() && Leads(c, start, r) && r.mon.Holds(t) && r.mon.threads[t].at == s.mon.threads[t].at
    ensures |r.mon.threads| == |s.mon.threads| && forall u :: s.mon.IsOutside(u) ==> r.mon.IsOutside(u)
  {
    var free := FreeMutex(c, start, s);
    assert free.mon.threads[t] == s.mon.threads[t];
    r := Then(c, start, free, Lock(t));
  }

  /** Whatever wakes a parked receiver without a signal, it gets to its next statement. */
  lemma Woken<M(!new)>(c: Config, start: State<M>, s: State<M>, t: Tid, why: Wake) returns (r: State<M>)
    requires start.Ok() && s.Ok() && Leads(c, start, s)
    requires s.mon.IsParked(t) && why != Signalled && why != Consumed
    ensures r.Ok() && Leads(c, start, r) && r.mon.Holds(t) && r.mon.threads[t].at == Waited(why)
    ensures |r.mon.threads| == |s.mon.threads| && forall u :: s.mon.IsOutside(u) ==> r.mon.IsOutside(u)
  {
    var left := Then(c, start, s, Leave(t, why));
    r := GetMutex(c, start, left, t);
  }

  ghost predicate Returned<M>(m: Monitor<Loc<M>>, m': Monitor<Loc<M>>, t: Tid) {
    m'.IsOutside(t) && |m'.threads| == |m.threads| && forall u :: m.IsOutside(u) ==> m'.IsOutside(u)
  }

  lemma ParkedReturns<M(!new)>(c: Config, start: State<M>, s: State<M>, t: Tid) returns (r: State<M>)
    requires start.Ok() && s.Ok() && Leads(c, start, s) && s.mon.IsParked(t)
    ensures r.Ok() && Leads(c, start, r) && Returned(s.mon, r.mon, t)
  {
    var woken := Woken(c, start, s, t, TimedOut);
    r := FreeMutex(c, start, woken);
  }

  lemma HolderReturns<M(!new)>(c: Config, start: State<M>, s: State<M>, t: Tid) returns (r: State<M>)
    requires start.Ok() && s.Ok() && Leads(c, start, s) && s.mon.Holds(t)
    ensures r.Ok() && Leads(c, start, r) && Returned(s.mon, r.mon, t)
  {
    var free := FreeMutex(c, start, s);
    if free.mon.IsParked(t) {
      r := ParkedReturns(c, start, free, t);
    } else {
      r := free;
    }
  }

  lemma CallReturns<M(!new)>(c: Config, start: State<M>, s: State<M>, t: Tid) returns (r: State<M>)
    requires start.Ok() && s.Ok() && Leads(c, start, s) && t < |s.mon.threads|
    ensures r.Ok() && Leads(c, start, r) && Returned(s.mon, r.mon, t)
  {
    match s.mon.threads[t]
    case Outside => r := s;
    case Parked => r := ParkedReturns(c, start, s, t);
    case Holding(_) => r := HolderReturns(c, start, s, t);
    case Entering(_) =>
      var got := GetMutex(c, start, s, t);
      r := HolderReturns(c, start, got, t);
  }

  ghost predicate AllOutside<M>(s: State<M>) {
    s.mon.owner == None && forall t :: 0 <= t < |s.mon.threads| ==> s.mon.IsOutside(t)
  }

  lemma NobodyHolds<M>(m: Monitor<Loc<M>>)
    requires m.Valid() && forall t :: 0 <= t < |m.threads| ==> m.IsOutside(t)
    ensures m.owner == None
  {
    assert forall t :: 0 <= t < |m.threads| ==> m.IsOutside(t) && !m.threads[t].Holding?;
  }

  /** The first `n` threads return, one after the other. */
  lemma {:induction false} FirstReturn<M(!new)>(c: Config, start: State<M>, s: State<M>, n: nat) returns (r: State<M>)
    requires start.Ok() && s.Ok() && Leads(c, start, s) && n <= |s.mon.threads|
    ensures r.Ok() && Leads(c, start, r) && |r.mon.threads| == |s.mon.threads|
    ensures forall t :: 0 <= t < n ==> r.mon.IsOutside(t)
  {
    r := s;
    if n > 0 {
      var before := FirstReturn(c, start, s, n - 1);
      r := CallReturns(c, start, before, n - 1);
    }
  }

  /** No deadlock: from every state, some run lets every call return. */
  lemma AllCanReturn<M(!new)>(c: Config, s: State<M>)
    requires s.Ok()
    ensures exists r: State<M> :: Leads(c, s, r) && AllOutside(r)
  {
    Here(c, s);
    var r := FirstReturn(c, s, s, |s.mon.threads|);
    NobodyHolds(r.mon);
    assert Leads(c, s, r) && AllOutside(r);
  }

  /** Where a receiver stands after a wait that no signal has ended. */
  function AfterWait<M>(why: Wake): Loc<M> {
    match why
    case TimedOut => RecvExit(ErrorTimeout, None, Some(TimedOut))
    case Failed => RecvExit(ErrorOs, None, Some(Failed))
    case _ => RecvCheck(Some(why))
  }

  /** From every state, a parked receiver's deadline can end its wait with ErrorTimeout, an error can end it
      with ErrorOs, and a spurious wake-up can take it to its second test. */
  lemma WaitEnds<M(!new)>(c: Config, s: State<M>, t: Tid, why: Wake)
    requires s.Ok() && s.mon.IsParked(t) && why != Signalled && why != Consumed
    ensures exists r: State<M> :: Leads(c, s, r) && r.mon.Holds(t) && r.mon.threads[t].at == AfterWait<M>(why)
  {
    Here(c, s);
    var r := Woken(c, s, s, t, why);
    r := Then(c, s, r, Run(t));
    assert r.mon.Holds(t) && r.mon.threads[t].at == AfterWait<M>(why);
  }

  /** A wait that pthread_cond_timedwait refuses at once ends the receive with ErrorOs. */
  lemma WaitRefused<M(!new)>(c: Config, s: State<M>, t: Tid)
    requires s.Ok() && s.mon.Holds(t) && s.mon.threads[t].at.RecvEnter? && s.ring.count == 0
    ensures var r := Exec(c, s, [Refuse(t), Run(t)]);
            r.mon.Holds(t) && r.mon.threads[t].at == RecvExit(ErrorOs, None, Some(Failed))
  {
    var acts: seq<Action<M>> := [Refuse(t), Run(t)];
    assert acts[..1] == [Refuse(t)] && acts[..1][..0] == [];
    assert Exec(c, s, acts[..1]) == Step(c, s, Refuse(t));
    assert Exec(c, s, acts) == Step(c, Step(c, s, Refuse(t)), Run(t));
  }

  lemma {:induction false} ReachableOn<M(!new)>(c: Config, s: State<M>, acts: seq<Action<M>>)
    requires s.Ok() && Reachable(c, s)
    ensures Reachable(c, Exec(c, s, acts))
  {
    if acts != [] {
      var before := acts[..|acts| - 1];
      ReachableOn(c, s, before);
      Extend(c, Exec(c, s, before), acts[|acts| - 1]);
    }
  }

  lemma LeadsOn<M(!new)>(c: Config, s: State<M>, r: State<M>)
    requires s.Ok() && Reachable(c, s) && Leads(c, s, r)
    ensures Reachable(c, r)
  {
    var acts :| Exec(c, s, acts) == r;
    ReachableOn(c, s, acts);
  }

  /** From every state: a thread outside can start its calls, whoever holds the mutex or waits; and a thread
      that starts a call can fail to lock. */
  lemma CallsStart<M>(c: Config, s: State<M>, t: Tid, m: M)
    requires s.Ok() && t < |s.mon.threads|
    ensures s.mon.IsOutside(t) && t in c.producers ==>
              Step(c, s, CallSend(t, m)).mon.threads[t] == Entering(SendEnter(m))
    ensures s.mon.IsOutside(t) && t in c.consumers ==> Step(c, s, CallReceive(t)).mon.threads[t] == Entering(RecvEnter)
    ensures s.mon.IsEntering(t) && !s.mon.threads[t].at.Waited? ==> Step(c, s, LockFails(t)).mon.IsOutside(t)
  {
  }

  lemma OvertakenHolds<M(!new)>(c: Config, s: State<M>, t: Tid) returns (r: State<M>)
    requires s.Ok() && c.consumes && s.mon.IsEntering(t) && s.mon.threads[t].at == Waited(Signalled)
    ensures r.Ok() && Leads(c, s, r) && r.mon.Holds(t) && r.mon.threads[t].at == Waited(Consumed)
  {
    Here(c, s);
    var overtaken := Then(c, s, s, Overtake(t));
    r := GetMutex(c, s, overtaken, t);
  }

  /** From every state, where a timeout can consume a signal, a signalled receiver can report its timeout. */
  lemma SignalOvertaken<M(!new)>(c: Config, s: State<M>, t: Tid)
    requires s.Ok() && c.consumes && s.mon.IsEntering(t) && s.mon.threads[t].at == Waited(Signalled)
    ensures exists r: State<M> :: Leads(c, s, r) && StolenWakeup(r, t)
  {
    var got := OvertakenHolds(c, s, t);
    var exit := Then(c, s, got, Run(t));
    assert Leads(c, s, exit) && StolenWakeup(exit, t);
  }

  ghost predicate TimesOut<M>(s: State<M>, t: Tid) {
    s.mon.Holds(t) && s.mon.threads[t].at == RecvExit(ErrorTimeout, None, Some(TimedOut))
  }

  /** A receive can report the end of its deadline, for exactly the receivers. */
  lemma DeadlineEndsIff<M(!new)>(c: Config, t: Tid)
    requires ValidConfig(c)
    ensures (exists s: State<M> :: Reachable(c, s) && TimesOut(s, t)) <==> t in c.consumers
  {
    if t in c.consumers {
      var s := InitReachable<M>(c);
      s := ParkRun(c, s, t);
      WaitEnds(c, s, t, TimedOut);
      var r: State<M> :| Leads(c, s, r) && r.mon.Holds(t) && r.mon.threads[t].at == AfterWait<M>(TimedOut);
      LeadsOn(c, s, r);
      assert TimesOut(r, t);
    }
    forall s: State<M> | Reachable(c, s) && TimesOut(s, t)
      ensures t in c.consumers
    {
      var acts :| Exec(c, Init(c), acts) == s;
      RolesAlways(c, acts);
      assert RoleKept(c, s, t);
    }
  }

  // ---------------------------------------------------------------------------------------------
  // Which results a thread's calls can have
  // ---------------------------------------------------------------------------------------------

  ghost predicate Returnable<M(!new)>(c: Config, t: Tid, result: Result<M>) {
    exists acts: seq<Action<M>> :: result in ReturnsTo(c, acts, t)
  }

  ghost predicate Possible<M>(c: Config, t: Tid, result: Result<M>) {
    match result
    case Sent(Success) => t in c.producers && c.size > 0
    case Sent(ErrorResourceNotAvailable) => t in c.producers
    case Sent(Failure) => t in c.producers
    case Received(Success, Some(_)) => t in c.consumers && c.size > 0 && c.producers != {}
    case Received(ErrorTimeout, None) => t in c.consumers
    case Received(ErrorOs, None) => t in c.consumers
    case Received(Failure, None) => t in c.consumers
    case _ => false
  }

  lemma ReturnsLast<M(!new)>(c: Config, s: State<M>, a: Action<M>, t: Tid, result: Result<M>)
    requires s.Ok() && Reachable(c, s) && Returns(s, a, t) == [result]
    ensures Returnable(c, t, result)
  {
    var acts :| Exec(c, Init(c), acts) == s;
    assert (acts + [a])[..|acts|] == acts;
    assert result in ReturnsTo(c, acts + [a], t);
  }

  /** A Send while nobody waits, up to its return. */
  lemma LoneSendRun<M(!new)>(c: Config, s: State<M>, p: Tid, m: M) returns (exit: State<M>)
    requires s.Ok() && Reachable(c, s) && s.mon.owner == None && !s.mon.AnyParked()
    requires p in c.producers && s.mon.IsOutside(p) && !s.ring.Full()
    ensures exit.Ok() && Reachable(c, exit) && exit.ring == s.ring.Push(m)
    ensures exit.mon == Monitor(Some(p), s.mon.threads[p := Holding(SendExit(m, Success))])
  {
    var s1 := GoSend(c, s, p, m);
    var s2 := GoRun(c, s1, p);
    if s2.ring.count == 1 {
      assert forall t :: s2.mon.IsParked(t) ==> s.mon.IsParked(t);
      exit := UnheardSignalRun(c, s2, p, m);
    } else {
      exit := GoRun(c, s2, p);
    }
    assert exit.mon.threads == s.mon.threads[p := Holding(SendExit(m, Success))];
  }

  /** A signal that nobody waits for. */
  lemma UnheardSignalRun<M(!new)>(c: Config, s: State<M>, p: Tid, m: M) returns (r: State<M>)
    requires s.Ok() && Reachable(c, s) && !s.mon.AnyParked() && s.ring.count == 1
    requires s.mon.Holds(p) && s.mon.threads[p].at == SendSignal(m)
    ensures r == s.(mon := Goto(s.mon, p, SendExit(m, Success))) && r.Ok() && Reachable(c, r)
  {
    assert AboutToSignal(s, p);
    r := Go(c, s, Signal(p, 0));
  }

  lemma SentRun<M(!new)>(c: Config, s: State<M>, p: Tid, m: M) returns (r: State<M>)
    requires s.Ok() && Reachable(c, s) && s.mon.owner == None && !s.mon.AnyParked()
    requires p in c.producers && s.mon.IsOutside(p) && !s.ring.Full()
    ensures r.Ok() && Reachable(c, r) && r.mon == s.mon && r.ring == s.ring.Push(m)
  {
    var exit := LoneSendRun(c, s, p, m);
    r := ReturnRun(c, exit, p);
    assert r.mon.threads == s.mon.threads;
  }

  /** One producer fills the queue. */
  lemma {:induction false} FillRun<M(!new)>(c: Config, s: State<M>, p: Tid, m: M) returns (r: State<M>)
    requires s.Ok() && Reachable(c, s) && s.mon.owner == None && !s.mon.AnyParked()
    requires p in c.producers && s.mon.IsOutside(p)
    ensures r.Ok() && Reachable(c, r) && r.mon == s.mon && r.ring.Full()
    decreases s.ring.size - s.ring.count
  {
    r := s;
    if !s.ring.Full() {
      var next := SentRun(c, s, p, m);
      r := FillRun(c, next, p, m);
    }
  }

  lemma NobodyParked<M>(c: Config)
    requires ValidConfig(c)
    ensures var s := Init<M>(c); s.mon.owner == None && !s.mon.AnyParked()
    ensures forall t :: t in c.producers || t in c.consumers ==> Init<M>(c).mon.IsOutside(t)
  {
  }

  lemma SendFailsToLock<M(!new)>(c: Config, t: Tid, m: M)
    requires ValidConfig(c) && t in c.producers
    ensures Returnable<M>(c, t, Sent(Failure))
  {
    var s := InitReachable<M>(c);
    NobodyParked<M>(c);
    var called := Go(c, s, CallSend(t, m));
    ReturnsLast(c, called, LockFails(t), t, Sent(Failure));
  }

  lemma SendRefused<M(!new)>(c: Config, t: Tid, m: M)
    requires ValidConfig(c) && t in c.producers
    ensures Returnable<M>(c, t, Sent(ErrorResourceNotAvailable))
  {
    var s := InitReachable<M>(c);
    NobodyParked<M>(c);
    var full := FillRun(c, s, t, m);
    var entered := GoSend(c, full, t, m);
    var refused := GoRun(c, entered, t);
    ReturnsLast(c, refused, Run(t), t, Sent(ErrorResourceNotAvailable));
  }

  lemma SendSucceeds<M(!new)>(c: Config, t: Tid, m: M)
    requires ValidConfig(c) && t in c.producers && c.size > 0
    ensures Returnable<M>(c, t, Sent(Success))
  {
    var s := InitReachable<M>(c);
    NobodyParked<M>(c);
    var exit := LoneSendRun(c, s, t, m);
    ReturnsLast(c, exit, Run(t), t, Sent(Success));
  }

  lemma ReceiveFailsToLock<M(!new)>(c: Config, t: Tid)
    requires ValidConfig(c) && t in c.consumers
    ensures Returnable<M>(c, t, Received(Failure, None))
  {
    var s := InitReachable<M>(c);
    NobodyParked<M>(c);
    var called := Go(c, s, CallReceive(t));
    ReturnsLast(c, called, LockFails(t), t, Received(Failure, None));
  }

  lemma ReceiveWaits<M(!new)>(c: Config, t: Tid, why: Wake, error: ErrorCode)
    requires ValidConfig(c) && t in c.consumers
    requires (why == TimedOut && error == ErrorTimeout) || (why == Failed && error == ErrorOs)
    ensures Returnable<M>(c, t, Received(error, None))
  {
    var s := InitReachable<M>(c);
    NobodyParked<M>(c);
    var parked := ParkRun(c, s, t);
    WaitReturns(c, parked, t, why, error);
  }

  lemma WaitReturns<M(!new)>(c: Config, s: State<M>, t: Tid, why: Wake, error: ErrorCode)
    requires s.Ok() && Reachable(c, s) && s.mon.IsParked(t) && why != Signalled && why != Consumed
    requires AfterWait<M>(why) == RecvExit(error, None, Some(why))
    ensures Returnable<M>(c, t, Received(error, None))
  {
    WaitEnds(c, s, t, why);
    var r: State<M> :| Leads(c, s, r) && r.mon.Holds(t) && r.mon.threads[t].at == AfterWait<M>(why);
    LeadsOn(c, s, r);
    ExitReturns(c, r, t, error);
  }

  lemma ExitReturns<M(!new)>(c: Config, s: State<M>, t: Tid, error: ErrorCode)
    requires Reachable(c, s) && s.mon.Holds(t)
    requires s.mon.threads[t].at.RecvExit? && s.mon.threads[t].at.error == error && s.mon.threads[t].at.message == None
    ensures Returnable<M>(c, t, Received(error, None))
  {
    var acts :| Exec(c, Init(c), acts) == s;
    ReturnsLast(c, s, Run(t), t, Received(error, None));
  }

  lemma SuccessfulReceive<M(!new)>(c: Config, t: Tid, m: M)
    requires ValidConfig(c) && t in c.consumers && c.size > 0 && c.producers != {}
    ensures Returnable(c, t, Received(Success, Some(m)))
  {
    var p :| p in c.producers;
    var s := InitReachable<M>(c);
    NobodyParked<M>(c);
    var s1 := SentRun(c, s, p, m);
    assert s1.ring.Window() == [m];
    var s2 := TakeOldest(c, s1, t);
    ReturnsLast(c, s2, Run(t), t, Received(Success, Some(m)));
  }

  /** A whole Receive call on a non-empty queue, up to its return. */
  lemma TakeOldest<M(!new)>(c: Config, s: State<M>, t: Tid) returns (exit: State<M>)
    requires s.Ok() && Reachable(c, s) && s.mon.owner == None && s.ring.count > 0
    requires t in c.consumers && s.mon.IsOutside(t)
    ensures exit.Ok() && Reachable(c, exit) && exit.mon.Holds(t)
    ensures exit.mon.threads[t].at == RecvExit(Success, Some(s.ring.Window()[0]), None)
  {
    var s1 := GoReceive(c, s, t);
    var s2 := RecheckRun(c, s1, t);
    assert s2.mon.threads[t] == Holding(RecvCheck(None)) && s2.ring == s.ring;
    exit := GoTake(c, s2, t);
  }

  lemma GoReceive<M(!new)>(c: Config, s: State<M>, t: Tid) returns (r: State<M>)
    requires s.Ok() && Reachable(c, s) && t in c.consumers && s.mon.IsOutside(t)
    ensures r == s.(mon := Call(s.mon, t, RecvEnter)) && r.Ok() && Reachable(c, r)
  {
    r := Go(c, s, CallReceive(t));
  }

  lemma GoTake<M(!new)>(c: Config, s: State<M>, t: Tid) returns (r: State<M>)
    requires s.Ok() && Reachable(c, s) && s.ring.count > 0
    requires s.mon.Holds(t) && s.mon.threads[t].at == RecvCheck(None)
    ensures r.Ok() && Reachable(c, r) && r.mon.Holds(t)
    ensures r.mon.threads[t].at == RecvExit(Success, Some(s.ring.Window()[0]), None)
  {
    r := GoRun(c, s, t);
  }

  predicate HandsMessage<M>(thread: Thread<Loc<M>>) {
    match thread
    case Holding(RecvExit(_, Some(_), _)) => true
    case _ => false
  }

  /** Messages come from producers. */
  ghost predicate Sourced<M>(c: Config, s: State<M>) {
    c.producers == {} ==>
      && s.ring.count == 0
      && forall t :: 0 <= t < |s.mon.threads| ==> !HandsMessage(s.mon.threads[t])
  }

  lemma SourcedStep<M>(c: Config, s: State<M>, a: Action<M>)
    requires Roles(c, s) && Sourced(c, s)
    ensures Sourced(c, Step(c, s, a))
  {
    var r := Step(c, s, a);
    if c.producers == {} {
      if a.Run? && s.mon.Holds(a.t) {
        assert RoleKept(c, s, a.t);
      }
      forall t | 0 <= t < |r.mon.threads|
        ensures !HandsMessage(r.mon.threads[t])
      {
        assert !HandsMessage(s.mon.threads[t]);
      }
    }
  }

  lemma {:induction false} SourcedAlways<M>(c: Config, acts: seq<Action<M>>)
    ensures Sourced(c, Exec(c, Init<M>(c), acts))
  {
    if acts != [] {
      SourcedAlways(c, acts[..|acts| - 1]);
      RolesAlways(c, acts[..|acts| - 1]);
      SourcedStep(c, Exec(c, Init<M>(c), acts[..|acts| - 1]), acts[|acts| - 1]);
    }
  }

  lemma ReturnPossible<M>(c: Config, s: State<M>, a: Action<M>, t: Tid)
    requires Roles(c, s) && CodesJustified(s) && Sourced(c, s)
    ensures forall result :: result in Returns(s, a, t) ==> Possible(c, t, result)
  {
    if a.Run? && s.mon.Holds(t) {
      assert RoleKept(c, s, t) && CodeJustified(s, t);
    } else if a.LockFails? && s.mon.IsEntering(t) {
      assert RoleKept(c, s, t);
    }
  }

  lemma {:induction false} AllPossible<M>(c: Config, acts: seq<Action<M>>, t: Tid)
    ensures forall result :: result in ReturnsTo(c, acts, t) ==> Possible(c, t, result)
  {
    if acts != [] {
      var before := acts[..|acts| - 1];
      AllPossible(c, before, t);
      RolesAlways(c, before);
      CodesAlways(c, before);
      SourcedAlways(c, before);
      ReturnPossible(c, Exec(c, Init<M>(c), before), acts[|acts| - 1], t);
    }
  }

  lemma PossibleReturns<M(!new)>(c: Config, t: Tid, result: Result<M>, m: M)
    requires ValidConfig(c) && Possible(c, t, result)
    ensures Returnable(c, t, result)
  {
    match result
    case Sent(error) =>
      if error == Success {
        SendSucceeds(c, t, m);
      } else if error == Failure {
        SendFailsToLock(c, t, m);
      } else {
        SendRefused(c, t, m);
      }
    case Received(error, message) =>
      if message.Some? {
        SuccessfulReceive(c, t, message.value);
      } else if error == Failure {
        ReceiveFailsToLock<M>(c, t);
      } else {
        ReceiveWaits<M>(c, t, if error == ErrorTimeout then TimedOut else Failed, error);
      }
  }

  lemma ReturnsPossible<M(!new)>(c: Config, t: Tid, result: Result<M>)
    requires Returnable(c, t, result)
    ensures Possible(c, t, result)
  {
    var acts: seq<Action<M>> :| result in ReturnsTo(c, acts, t);
    AllPossible(c, acts, t);
  }

  /** Exactly the results the calls of a thread can have: a Send succeeds, is refused or fails to lock; a
      Receive delivers any message, times out, fails to wait or fails to lock. */
  lemma ReturnableIff<M(!new)>(c: Config, t: Tid, result: Result<M>, m: M)
    requires ValidConfig(c)
    ensures Returnable(c, t, result) <==> Possible(c, t, result)
  {
    if Possible(c, t, result) {
      PossibleReturns(c, t, result, m);
    }
    if Returnable(c, t, result) {
      ReturnsPossible(c, t, result);
    }
  }
}
