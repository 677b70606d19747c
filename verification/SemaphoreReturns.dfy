/** That calls of the semaphore return: from every state its threads can reach, every call can still return; a
    passed deadline ends a wait; and how each return code of Semaphore_Take comes about. */
module SemaphoreReturns {
  import opened Base
  import opened Pthread
  import opened SemaphoreSteps

  /** Some run leads from `s` to `r`. */
  ghost predicate Leads(c: Config, s: State, r: State)
    requires s.Ok()
  {
    exists acts: seq<Action> :: Exec(c, s, acts) == r
  }

  lemma Here(c: Config, s: State)
    requires s.Ok()
    ensures Leads(c, s, s)
  {
    assert Exec(c, s, []) == s;
  }

  /** One more step of the run that has led from `start` to `s`. */
  lemma Then(c: Config, start: State, s: State, a: Action) returns (r: State)
    requires start.Ok() && s.Ok() && Leads(c, start, s)
    ensures r == Step(c, s, a) && r.Ok() && Leads(c, start, r)
  {
    var acts :| Exec(c, start, acts) == s;
    assert (acts + [a])[..|acts|] == acts;
    assert Exec(c, start, acts + [a]) == Step(c, s, a);
    r := Step(c, s, a);
  }

  lemma {:induction false} ReachableOn(c: Config, s: State, acts: seq<Action>)
    requires s.Ok() && Reachable(c, s)
    ensures Reachable(c, Exec(c, s, acts))
  {
    if acts != [] {
      var before := acts[..|acts| - 1];
      ReachableOn(c, s, before);
      var _ := Go(c, Exec(c, s, before), acts[|acts| - 1]);
    }
  }

  lemma LeadsOn(c: Config, s: State, r: State)
    requires s.Ok() && Reachable(c, s) && Leads(c, s, r)
    ensures Reachable(c, r)
  {
    var acts :| Exec(c, s, acts) == r;
    ReachableOn(c, s, acts);
  }

  // ---------------------------------------------------------------------------------------------
  // Every call can return
  // ---------------------------------------------------------------------------------------------

  /** How many statements a call can still be from giving up the mutex. */
  function Rank(at: Loc): nat {
    match at
    case Waited(_) => 5
    case TakeLoop(_) => 4
    case GiveEnter => 3
    case TakeCheck(_, _) => 2
    case GiveSignal => 2
    case _ => 1
  }

  ghost function OwnerRank(m: Monitor<Loc>): nat
    requires m.Valid()
  {
    if m.owner.None? then 0 else Rank(m.threads[m.owner.value].at)
  }

  /** Nobody else is disturbed, except that a parked thread may be woken. */
  ghost predicate OthersKept(m: Monitor<Loc>, m': Monitor<Loc>) {
    && |m'.threads| == |m.threads|
    && forall t :: 0 <= t < |m.threads| && (m.threads[t].Entering? || m.threads[t].Outside?) ==>
         m'.threads[t] == m.threads[t]
  }

  ghost function Waiter(m: Monitor<Loc>): Tid {
    if m.AnyParked() then
      var v :| 0 <= v < |m.threads| && m.IsParked(v);
      v
    else 0
  }

  /** The owner's next statement, once its timeout has passed. */
  ghost function NextOf(s: State): Action
    requires s.Ok() && s.mon.owner.Some?
  {
    var o := s.mon.owner.value;
    match s.mon.threads[o].at
    case TakeLoop(_) => LoopTest(o, true)
    case GiveSignal => Signal(o, Waiter(s.mon))
    case _ => Run(o)
  }

  lemma OwnerMoves(c: Config, s: State)
    requires s.Ok() && s.mon.owner.Some?
    ensures var o, r := s.mon.owner.value, Step(c, s, NextOf(s));
            && OthersKept(s.mon, r.mon) && OwnerRank(r.mon) < OwnerRank(s.mon)
            && if r.mon.owner.None? then r.mon.IsOutside(o) else r.mon.owner == Some(o)
  {
    var o := s.mon.owner.value;
    if s.mon.threads[o].at.GiveSignal? {
      assert AboutToSignal(s, o);
    }
  }

  lemma KeptOn(m: Monitor<Loc>, m': Monitor<Loc>, m'': Monitor<Loc>)
    requires OthersKept(m, m') && OthersKept(m', m'')
    ensures OthersKept(m, m'')
  {
  }

  /** From every state the owner can return. */
  lemma {:induction false} OwnerReturns(c: Config, start: State, s: State) returns (r: State)
    requires start.Ok() && s.Ok() && Leads(c, start, s)
    ensures r.Ok() && Leads(c, start, r) && r.mon.owner == None && OthersKept(s.mon, r.mon)
    ensures s.mon.owner.Some? ==> r.mon.IsOutside(s.mon.owner.value)
    decreases OwnerRank(s.mon)
  {
    if s.mon.owner.None? {
      r := s;
    } else {
      OwnerMoves(c, s);
      var next := Then(c, start, s, NextOf(s));
      if next.mon.owner.None? {
        r := next;
      } else {
        r := OwnerReturns(c, start, next);
        KeptOn(s.mon, next.mon, r.mon);
      }
    }
  }

  /** A thread that contends for the mutex gets it. */
  lemma GetMutex(c: Config, start: State, s: State, t: Tid) returns (r: State)
    requires start.Ok() && s.Ok() && Leads(c, start, s) && s.mon.IsEntering(t)
    ensures r.Ok() && Leads(c, start, r) && r.mon.Holds(t) && r.mon.threads[t].at == s.mon.threads[t].at
    ensures |r.mon.threads| == |s.mon.threads| && forall u :: s.mon.IsOutside(u) ==> r.mon.IsOutside(u)
  {
    var free := OwnerReturns(c, start, s);
    assert free.mon.threads[t] == s.mon.threads[t];
    r := Then(c, start, free, Lock(t));
  }

  /** Whatever wakes a parked thread without a signal, it gets to its next statement. */
  lemma Woken(c: Config, start: State, s: State, t: Tid, why: Wake) returns (r: State)
    requires start.Ok() && s.Ok() && Leads(c, start, s)
    requires s.mon.IsParked(t) && why != Signalled && why != Consumed
    ensures r.Ok() && Leads(c, start, r) && r.mon.Holds(t) && r.mon.threads[t].at == Waited(why)
    ensures |r.mon.threads| == |s.mon.threads| && forall u :: s.mon.IsOutside(u) ==> r.mon.IsOutside(u)
  {
    var left := Then(c, start, s, Leave(t, why));
    r := GetMutex(c, start, left, t);
  }

  lemma CallReturns(c: Config, start: State, s: State, t: Tid) returns (r: State)
    requires start.Ok() && s.Ok() && Leads(c, start, s) && t < |s.mon.threads|
    ensures r.Ok() && Leads(c, start, r) && r.mon.IsOutside(t)
    ensures |r.mon.threads| == |s.mon.threads| && forall u :: s.mon.IsOutside(u) ==> r.mon.IsOutside(u)
  {
    match s.mon.threads[t]
    case Outside => r := s;
    case Parked =>
      var woken := Woken(c, start, s, t, TimedOut);
      r := OwnerReturns(c, start, woken);
    case Holding(_) => r := OwnerReturns(c, start, s);
    case Entering(_) =>
      var got := GetMutex(c, start, s, t);
      r := OwnerReturns(c, start, got);
  }

  ghost predicate AllOutside(s: State) {
    s.mon.owner == None && forall t :: 0 <= t < |s.mon.threads| ==> s.mon.IsOutside(t)
  }

  lemma NobodyHolds(m: Monitor<Loc>)
    requires m.Valid() && forall t :: 0 <= t < |m.threads| ==> m.IsOutside(t)
    ensures m.owner == None
  {
    assert forall t :: 0 <= t < |m.threads| ==> m.IsOutside(t) && !m.threads[t].Holding?;
  }

  /** The first `n` threads return, one after the other. */
  lemma {:induction false} FirstReturn(c: Config, start: State, s: State, n: nat) returns (r: State)
    requires start.Ok() && s.Ok() && Leads(c, start, s) && n <= |s.mon.threads|
    ensures r.Ok() && Leads(c, start, r) && |r.mon.threads| == |s.mon.threads|
    ensures forall t :: 0 <= t < n ==> r.mon.IsOutside(t)
  {
    r := s;
    if n > 0 {
      var before := FirstReturn(c, start, s, n - 1);
      r := CallReturns(c, start, before, n - 1);
    }
  }

  /** No deadlock: from every state, some run lets every call return. */
  lemma AllCanReturn(c: Config, s: State)
    requires s.Ok()
    ensures exists r: State :: Leads(c, s, r) && AllOutside(r)
  {
    Here(c, s);
    var r := FirstReturn(c, s, s, |s.mon.threads|);
    NobodyHolds(r.mon);
    assert Leads(c, s, r) && AllOutside(r);
  }

  // ---------------------------------------------------------------------------------------------
  // How a Take ends
  // ---------------------------------------------------------------------------------------------

  /** Where a taker stands after a wait that no signal has ended. */
  function AfterWait(why: Wake): Loc {
    match why
    case TimedOut => TakeExit(ErrorTimeout, Some(TimedOut), false)
    case Failed => TakeExit(ErrorOs, Some(Failed), false)
    case _ => TakeLoop(Some(why))
  }

  /** From every state, a parked taker's deadline can end its wait with ErrorTimeout, an error can end it with
      ErrorOs, and a spurious wake-up takes it back to its loop test. */
  lemma WaitEnds(c: Config, s: State, t: Tid, why: Wake)
    requires s.Ok() && s.mon.IsParked(t) && why != Signalled && why != Consumed
    ensures exists r: State :: Leads(c, s, r) && r.mon.Holds(t) && r.mon.threads[t].at == AfterWait(why)
  {
    Here(c, s);
    var r := Woken(c, s, s, t, why);
    r := Then(c, s, r, Run(t));
    assert r.mon.Holds(t) && r.mon.threads[t].at == AfterWait(why);
  }

  lemma ExecTwo(c: Config, s: State, a: Action, b: Action)
    requires s.Ok()
    ensures Exec(c, s, [a, b]) == Step(c, Step(c, s, a), b)
  {
    assert [a, b][..1] == [a] && [a][..0] == [];
    assert Exec(c, s, [a]) == Step(c, s, a);
  }

  /** From the loop test: an unlocked semaphore is taken, whatever the elapsed time; a locked one whose timeout
      has passed is given up; any other is waited for, and a wait that is refused at once ends in ErrorOs. */
  lemma LoopTestDecides(c: Config, s: State, t: Tid, expired: bool)
    requires s.Ok() && s.mon.Holds(t) && s.mon.threads[t].at.TakeLoop?
    ensures var after, r := s.mon.threads[t].at.after, Exec(c, s, [LoopTest(t, expired), Run(t)]);
            if !s.locked then r.locked && r.mon.Holds(t) && r.mon.threads[t].at == TakeExit(Success, after, expired)
            else if expired then
              r.locked && r.mon.Holds(t) && r.mon.threads[t].at == TakeExit(ErrorTimeout, after, true)
            else r.locked && r.mon.IsParked(t) && r.mon.owner == None
    ensures var r := Exec(c, s, [Refuse(t), Run(t)]);
            s.locked ==> r.mon.Holds(t) && r.mon.threads[t].at == TakeExit(ErrorOs, Some(Failed), false)
  {
    ExecTwo(c, s, LoopTest(t, expired), Run(t));
    ExecTwo(c, s, Refuse(t), Run(t));
  }

  /** From every state: a thread outside can start either call, whoever holds the mutex or waits. */
  lemma CallsStart(c: Config, s: State, t: Tid)
    requires s.Ok() && s.mon.IsOutside(t)
    ensures Step(c, s, CallTake(t)).mon.threads[t] == Entering(TakeLoop(None))
    ensures Step(c, s, CallGive(t)).mon.threads[t] == Entering(GiveEnter)
  {
  }

  lemma OvertakenHolds(c: Config, s: State, t: Tid) returns (r: State)
    requires s.Ok() && c.consumes && s.mon.IsEntering(t) && s.mon.threads[t].at == Waited(Signalled)
    ensures r.Ok() && Leads(c, s, r) && r.mon.Holds(t) && r.mon.threads[t].at == Waited(Consumed)
  {
    Here(c, s);
    var overtaken := Then(c, s, s, Overtake(t));
    r := GetMutex(c, s, overtaken, t);
  }

  /** From every state, where a timeout can consume a signal, a signalled taker can report its timeout. */
  lemma SignalOvertaken(c: Config, s: State, t: Tid)
    requires s.Ok() && c.consumes && s.mon.IsEntering(t) && s.mon.threads[t].at == Waited(Signalled)
    ensures exists r: State ::
              Leads(c, s, r) && r.mon.Holds(t) && r.mon.threads[t].at == TakeExit(ErrorTimeout, Some(Consumed), false)
  {
    var got := OvertakenHolds(c, s, t);
    var exit := Then(c, s, got, Run(t));
    assert Leads(c, s, exit) && exit.mon.Holds(t);
    assert exit.mon.threads[t].at == TakeExit(ErrorTimeout, Some(Consumed), false);
  }

  ghost predicate Reports(s: State, t: Tid, error: ErrorCode) {
    s.mon.Holds(t) && s.mon.threads[t].at.TakeExit? && s.mon.threads[t].at.error == error
  }

  lemma SuccessRun(c: Config, t: Tid) returns (s: State)
    requires t < c.threads
    ensures Reachable(c, s) && Reports(s, t, Success)
  {
    var s1 := InitReachable(c);
    var s2 := LoneGiveRun(c, s1, t);
    var s3 := EnterRun(c, s2, t, false);
    LoopTestDecides(c, s3, t, false);
    s := Exec(c, s3, [LoopTest(t, false), Run(t)]);
    ReachableOn(c, s3, [LoopTest(t, false), Run(t)]);
  }

  /** A Give that nobody waits for. */
  lemma LoneGiveRun(c: Config, s: State, t: Tid) returns (r: State)
    requires s.Ok() && Reachable(c, s) && s.mon.owner == None && s.mon.IsOutside(t) && s.locked && !s.mon.AnyParked()
    ensures r.Ok() && Reachable(c, r) && r.mon == s.mon && !r.locked
  {
    var s1 := UnlockRun(c, s, t);
    assert forall u :: s1.mon.IsParked(u) ==> s.mon.IsParked(u);
    var s2 := UnheardSignalRun(c, s1, t);
    r := ReturnRun(c, s2, t);
    assert r.mon.threads == s.mon.threads;
  }

  lemma UnheardSignalRun(c: Config, s: State, t: Tid) returns (r: State)
    requires s.Ok() && Reachable(c, s) && AboutToSignal(s, t) && !s.mon.AnyParked()
    ensures r == s.(mon := Goto(s.mon, t, GiveExit)) && r.Ok() && Reachable(c, r)
  {
    r := Go(c, s, Signal(t, 0));
  }

  lemma DeadlineRun(c: Config, t: Tid) returns (s: State)
    requires t < c.threads
    ensures Reachable(c, s) && Reports(s, t, ErrorTimeout)
  {
    var s1 := InitReachable(c);
    var s2 := ParkRun(c, s1, t);
    WaitEnds(c, s2, t, TimedOut);
    s :| Leads(c, s2, s) && s.mon.Holds(t) && s.mon.threads[t].at == AfterWait(TimedOut);
    LeadsOn(c, s2, s);
  }

  /** The return codes of Semaphore_Take, for every thread: SUCCESS, ERROR_TIMEOUT and ERROR_OS, and no other. */
  lemma CodesIff(c: Config, t: Tid, error: ErrorCode)
    ensures (exists s: State :: Reachable(c, s) && Reports(s, t, error)) <==>
            t < c.threads && (error == Success || error == ErrorTimeout || error == ErrorOs)
  {
    if t < c.threads {
      var s1 := SuccessRun(c, t);
      var s2 := DeadlineRun(c, t);
      var s3 := OsErrorRun(c, t);
      assert Reports(s3, t, ErrorOs);
    }
    forall s: State | Reachable(c, s) && Reports(s, t, error)
      ensures t < c.threads && (error == Success || error == ErrorTimeout || error == ErrorOs)
    {
      var acts :| Exec(c, Init(c), acts) == s;
      CodesAlways(c, acts);
      assert CodeJustified(s, t);
    }
  }
}
