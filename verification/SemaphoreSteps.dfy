/** Semaphore_Take and Semaphore_Give of main/src/adapter/posix/semaphore.c as steps of many threads,
    on the same mutex and condition-variable rules as the queue. The wait is in a loop here and every
    give that unlocks signals, so no condition on the callers is needed as long as a wait that times out
    cannot consume a signal; a Take that times out does not test the flag again. */
module SemaphoreSteps {
  import opened Base
  import opened Pthread

  /** Program points. `after` records how the last wait ended, if there was one; `expired`, whether the
      loop's elapsed-time test had reached the timeout. */
  datatype Loc =
    | TakeLoop(after: Option<Wake>)                                  // loop test
    | Waited(why: Wake)                                              // pthread_cond_timedwait has returned
    | TakeCheck(after: Option<Wake>, expired: bool)                  // second test of the flag
    | TakeExit(error: ErrorCode, after: Option<Wake>, expired: bool) // unlock and return
    | GiveEnter                                                      // test of the flag
    | GiveSignal                                                     // flag cleared, signal still to come
    | GiveExit                                                       // unlock and return

  /** `consumes`: a wait that times out may consume a signal directed at it. */
  datatype Config = Config(threads: nat, consumes: bool)

  /** A change of the flag: a give that unlocked, or a take that locked. */
  datatype Event = Given(t: Tid) | Taken(t: Tid)

  /** `history` lists the flag's changes; `returned` the threads whose Take returned Success, in order. */
  datatype State = State(mon: Monitor<Loc>, locked: bool, history: seq<Event>, returned: seq<Tid>) {
    ghost predicate Ok() {
      && mon.Valid()
      && forall t :: 0 <= t < |mon.threads| && mon.threads[t].Entering? ==> IsEntry(mon.threads[t].at)
    }
  }

  /** The points from which a thread contends for the mutex. */
  predicate IsEntry(at: Loc) {
    at == TakeLoop(None) || at.GiveEnter? || at.Waited?
  }

  datatype Action =
    | CallTake(t: Tid)
    | CallGive(t: Tid)
    | Lock(t: Tid)
    | LoopTest(t: Tid, expired: bool)  // `expired`: the elapsed time has reached the timeout
    | Refuse(t: Tid)                   // pthread_cond_timedwait returns an error at once
    | Run(t: Tid)
    | Signal(t: Tid, v: Tid)
    | Leave(t: Tid, why: Wake)
    | Overtake(t: Tid)                 // t was signalled, but its deadline passes before it returns

  function Init(c: Config): (s: State)
    ensures s.Ok()
  {
    State(Monitor(None, seq(c.threads, _ => Outside)), true, [], [])
  }

  function RunAt(s: State, t: Tid): (r: State)
    requires s.Ok() && s.mon.Holds(t)
    ensures r.Ok() && |r.mon.threads| == |s.mon.threads|
  {
    match s.mon.threads[t].at
    case TakeLoop(_) => s
    case Waited(why) =>
      s.(mon := Goto(s.mon, t, match Status(why)
                               case Zero => TakeLoop(Some(why))
                               case ETimedOut => TakeExit(ErrorTimeout, Some(why), false)
                               case OtherError => TakeExit(ErrorOs, Some(why), false)))
    case TakeCheck(after, expired) =>
      if !s.locked then
        s.(mon := Goto(s.mon, t, TakeExit(Success, after, expired)), locked := true, history := s.history + [Taken(t)])
      else
        s.(mon := Goto(s.mon, t, TakeExit(ErrorTimeout, after, expired)))
    case TakeExit(error, _, _) =>
      s.(mon := Release(s.mon, t), returned := if error == Success then s.returned + [t] else s.returned)
    case GiveEnter =>
      if s.locked then
        s.(mon := Goto(s.mon, t, GiveSignal), locked := false, history := s.history + [Given(t)])
      else
        s.(mon := Goto(s.mon, t, GiveExit))
    case GiveSignal => s
    case GiveExit =>
      s.(mon := Release(s.mon, t))
  }

  ghost function Step(c: Config, s: State, a: Action): (r: State)
    requires s.Ok()
    ensures r.Ok() && |r.mon.threads| == |s.mon.threads|
  {
    match a
    case CallTake(t) =>
      if s.mon.IsOutside(t) then s.(mon := Call(s.mon, t, TakeLoop(None))) else s
    case CallGive(t) =>
      if s.mon.IsOutside(t) then s.(mon := Call(s.mon, t, GiveEnter)) else s
    case Lock(t) =>
      if s.mon.IsEntering(t) && s.mon.owner.None? then s.(mon := Acquire(s.mon, t)) else s
    case LoopTest(t, expired) =>
      if s.mon.Holds(t) && s.mon.threads[t].at.TakeLoop? then
        if s.locked && !expired then s.(mon := Park(s.mon, t))
        else s.(mon := Goto(s.mon, t, TakeCheck(s.mon.threads[t].at.after, expired)))
      else s
    case Refuse(t) =>
      if s.mon.Holds(t) && s.mon.threads[t].at.TakeLoop? && s.locked then
        s.(mon := Goto(s.mon, t, Waited(Failed)))
      else s
    case Run(t) =>
      if s.mon.Holds(t) then RunAt(s, t) else s
    case Signal(t, v) =>
      if AboutToSignal(s, t) && (s.mon.IsParked(v) || !s.mon.AnyParked()) then
        var woken := if s.mon.IsParked(v) then Unpark(s.mon, v, Waited(Signalled)) else s.mon;
        s.(mon := Goto(woken, t, GiveExit))
      else s
    case Leave(t, why) =>
      if s.mon.IsParked(t) && why != Signalled && why != Consumed then s.(mon := Unpark(s.mon, t, Waited(why))) else s
    case Overtake(t) =>
      if c.consumes && s.mon.IsEntering(t) && s.mon.threads[t].at == Waited(Signalled) then
        s.(mon := Redirect(s.mon, t, Waited(Consumed)))
      else s
  }

  /** `t` has just unlocked the semaphore and is at its pthread_cond_signal. */
  ghost predicate AboutToSignal(s: State, t: Tid) {
    s.mon.Holds(t) && s.mon.threads[t].at == GiveSignal
  }

  ghost function Exec(c: Config, s: State, acts: seq<Action>): (r: State)
    requires s.Ok()
    ensures r.Ok() && |r.mon.threads| == |s.mon.threads|
  {
    if acts == [] then s else Step(c, Exec(c, s, acts[..|acts| - 1]), acts[|acts| - 1])
  }

  ghost predicate Reachable(c: Config, s: State) {
    exists acts: seq<Action> :: Exec(c, Init(c), acts) == s
  }

  lemma Go(c: Config, s: State, a: Action) returns (r: State)
    requires s.Ok() && Reachable(c, s)
    ensures r == Step(c, s, a) && r.Ok() && Reachable(c, r)
  {
    var acts :| Exec(c, Init(c), acts) == s;
    assert (acts + [a])[..|acts|] == acts;
    assert Exec(c, Init(c), acts + [a]) == Step(c, s, a);
    r := Step(c, s, a);
  }

  lemma InitReachable(c: Config) returns (s: State)
    ensures s == Init(c) && Reachable(c, s)
  {
    s := Init(c);
    assert Exec(c, Init(c), []) == s;
  }

  // ---------------------------------------------------------------------------------------------
  // No lost wake-up
  // ---------------------------------------------------------------------------------------------

  /** `t` has been signalled and has not tested the flag since. */
  ghost predicate Pending(s: State, t: Tid) {
    && t < |s.mon.threads|
    && match s.mon.threads[t]
       case Entering(at) => at == Waited(Signalled)
       case Holding(Waited(why)) => why == Signalled
       case Holding(TakeLoop(after)) => after == Some(Signalled)
       case Holding(TakeCheck(after, _)) => after == Some(Signalled)
       case _ => false
  }

  /** While the semaphore is unlocked and some thread is parked, a give is about to signal or a signalled
      thread has yet to test the flag. */
  ghost predicate Awake(s: State) {
    !s.locked && s.mon.AnyParked() ==>
      (exists t :: AboutToSignal(s, t)) || (exists t :: Pending(s, t))
  }

  /** Three threads can lose a wake-up where a timeout can consume a signal. */
  predicate CanLose(c: Config) {
    c.consumes && c.threads >= 3
  }

  /** What keeps `Awake` where a timeout can consume a signal: with two threads, a give that signals leaves
      nobody parked. */
  ghost predicate AwakeIn(c: Config, s: State) {
    && Awake(s)
    && (c.consumes && !s.locked && s.mon.AnyParked() ==> exists t :: AboutToSignal(s, t))
  }

  lemma SignalKeepsAwake(c: Config, s: State, t: Tid, v: Tid)
    requires s.Ok() && |s.mon.threads| == c.threads && !CanLose(c)
    requires Step(c, s, Signal(t, v)) != s
    ensures AwakeIn(c, Step(c, s, Signal(t, v)))
  {
    var r := Step(c, s, Signal(t, v));
    if r.mon.AnyParked() {
      var u :| 0 <= u < |r.mon.threads| && r.mon.IsParked(u);
      assert s.mon.IsParked(u) && u != t && u != v && v != t;
      assert Pending(r, v);
    }
  }

  lemma OthersKeepAwake(c: Config, s: State, a: Action)
    requires s.Ok() && AwakeIn(c, s) && !a.Signal? && !s.locked
    ensures AwakeIn(c, Step(c, s, a))
  {
    var r := Step(c, s, a);
    if !r.locked && r.mon.AnyParked() {
      var u :| 0 <= u < |r.mon.threads| && r.mon.IsParked(u);
      assert s.mon.IsParked(u);
      if t :| AboutToSignal(s, t) {
        assert AboutToSignal(r, t);
      } else {
        var t :| Pending(s, t);
        PendingStays(c, s, a, t);
      }
    }
  }

  lemma PendingStays(c: Config, s: State, a: Action, t: Tid)
    requires s.Ok() && Pending(s, t) && !a.Signal? && !s.locked && !Step(c, s, a).locked && !c.consumes
    ensures Pending(Step(c, s, a), t)
  {
  }

  lemma UnlockAwakes(c: Config, s: State, a: Action)
    requires s.Ok() && s.locked && !Step(c, s, a).locked
    ensures AwakeIn(c, Step(c, s, a))
  {
    assert a.Run?;
    assert AboutToSignal(Step(c, s, a), a.t);
  }

  lemma AwakeStep(c: Config, s: State, a: Action)
    requires s.Ok() && AwakeIn(c, s) && |s.mon.threads| == c.threads && !CanLose(c)
    ensures AwakeIn(c, Step(c, s, a))
  {
    var r := Step(c, s, a);
    if r != s && !r.locked {
      if a.Signal? {
        SignalKeepsAwake(c, s, a.t, a.v);
      } else if s.locked {
        UnlockAwakes(c, s, a);
      } else {
        OthersKeepAwake(c, s, a);
      }
    }
  }

  lemma {:induction false} NoLostWakeup(c: Config, acts: seq<Action>)
    requires !CanLose(c)
    ensures AwakeIn(c, Exec(c, Init(c), acts))
  {
    if acts != [] {
      NoLostWakeup(c, acts[..|acts| - 1]);
      AwakeStep(c, Exec(c, Init(c), acts[..|acts| - 1]), acts[|acts| - 1]);
    }
  }

  lemma GoRun(c: Config, s: State, t: Tid) returns (r: State)
    requires s.Ok() && Reachable(c, s) && s.mon.Holds(t)
    ensures r == RunAt(s, t) && r.Ok() && Reachable(c, r)
  {
    r := Go(c, s, Run(t));
  }

  /** Gets the mutex. */
  lemma GoLock(c: Config, s: State, t: Tid) returns (r: State)
    requires s.Ok() && Reachable(c, s) && s.mon.owner == None && s.mon.IsEntering(t)
    ensures r == s.(mon := Monitor(Some(t), s.mon.threads[t := Holding(s.mon.threads[t].at)]))
    ensures r.Ok() && Reachable(c, r)
  {
    r := Go(c, s, Lock(t));
  }

  /** Unlocks and returns. */
  lemma ReturnRun(c: Config, s: State, t: Tid) returns (r: State)
    requires s.Ok() && Reachable(c, s) && s.mon.Holds(t)
    requires s.mon.threads[t].at.TakeExit? || s.mon.threads[t].at.GiveExit?
    ensures r.mon == Monitor(None, s.mon.threads[t := Outside]) && r.locked == s.locked && r.Ok() && Reachable(c, r)
  {
    r := GoRun(c, s, t);
  }

  /** Calls Take or Give and gets the mutex. */
  lemma EnterRun(c: Config, s: State, t: Tid, give: bool) returns (r: State)
    requires s.Ok() && Reachable(c, s) && s.mon.owner == None && s.mon.IsOutside(t)
    ensures var at := if give then GiveEnter else TakeLoop(None);
            r == s.(mon := Monitor(Some(t), s.mon.threads[t := Holding(at)]))
    ensures r.Ok() && Reachable(c, r)
  {
    var s1 := Go(c, s, if give then CallGive(t) else CallTake(t));
    r := GoLock(c, s1, t);
    assert r.mon.threads == s.mon.threads[t := r.mon.threads[t]];
  }

  /** A thread calls Take on the locked semaphore and parks. */
  lemma ParkRun(c: Config, s: State, t: Tid) returns (r: State)
    requires s.Ok() && Reachable(c, s) && s.mon.owner == None && s.mon.IsOutside(t) && s.locked
    ensures r == s.(mon := Monitor(None, s.mon.threads[t := Parked])) && r.Ok() && Reachable(c, r)
  {
    var s1 := EnterRun(c, s, t, false);
    r := Go(c, s1, LoopTest(t, false));
    assert r.mon.threads == s.mon.threads[t := Parked];
  }

  /** The signal of `p` picks `v`. */
  lemma GoSignal(c: Config, s: State, p: Tid, v: Tid) returns (r: State)
    requires s.Ok() && Reachable(c, s) && AboutToSignal(s, p) && s.mon.IsParked(v)
    ensures r == s.(mon := Monitor(Some(p), s.mon.threads[v := Entering(Waited(Signalled))][p := Holding(GiveExit)]))
    ensures r.Ok() && Reachable(c, r)
  {
    r := Go(c, s, Signal(p, v));
  }

  /** A thread calls Give and unlocks. */
  lemma UnlockRun(c: Config, s: State, p: Tid) returns (r: State)
    requires s.Ok() && Reachable(c, s) && s.mon.owner == None && s.mon.IsOutside(p) && s.locked
    ensures r.Ok() && Reachable(c, r) && !r.locked
    ensures r.mon == Monitor(Some(p), s.mon.threads[p := Holding(GiveSignal)])
  {
    var s1 := EnterRun(c, s, p, true);
    r := GoRun(c, s1, p);
    assert r.mon.threads == s.mon.threads[p := Holding(GiveSignal)];
  }

  /** A thread unlocks, and its signal picks `v`. */
  lemma GiveRun(c: Config, s: State, p: Tid, v: Tid) returns (r: State)
    requires s.Ok() && Reachable(c, s) && s.mon.owner == None && s.mon.IsOutside(p) && s.locked && s.mon.IsParked(v)
    ensures r.Ok() && Reachable(c, r) && !r.locked
    ensures r.mon == Monitor(None, s.mon.threads[v := Entering(Waited(Signalled))])
  {
    var s2 := UnlockRun(c, s, p);
    assert s2.mon.IsParked(v);
    var s3 := GoSignal(c, s2, p, v);
    r := ReturnRun(c, s3, p);
    assert r.mon.threads == s.mon.threads[v := Entering(Waited(Signalled))];
  }

  /** The deadline of the signalled thread `t` overtakes the signal, and `t` gets the mutex. */
  lemma OvertakenRun(c: Config, s: State, t: Tid) returns (r: State)
    requires c.consumes && s.Ok() && Reachable(c, s) && s.mon.owner == None
    requires s.mon.IsEntering(t) && s.mon.threads[t].at == Waited(Signalled)
    ensures r == s.(mon := Monitor(Some(t), s.mon.threads[t := Holding(Waited(Consumed))])) && r.Ok() && Reachable(c, r)
  {
    var s1 := Go(c, s, Overtake(t));
    r := GoLock(c, s1, t);
    assert r.mon.threads == s.mon.threads[t := Holding(Waited(Consumed))];
  }

  /** It then returns without a look at the flag. */
  lemma OvertakeRun(c: Config, s: State, t: Tid) returns (r: State)
    requires c.consumes && s.Ok() && Reachable(c, s) && s.mon.owner == None
    requires s.mon.IsEntering(t) && s.mon.threads[t].at == Waited(Signalled)
    ensures r.Ok() && Reachable(c, r) && r.locked == s.locked
    ensures r.mon == Monitor(None, s.mon.threads[t := Outside])
  {
    var s1 := OvertakenRun(c, s, t);
    var s2 := GoRun(c, s1, t);
    r := ReturnRun(c, s2, t);
    assert r.mon.threads == s.mon.threads[t := Outside];
  }

  /** Two waiters, one give, one timeout that consumes the signal: the run ends with the semaphore unlocked
      and every thread at rest except one that sleeps. */
  lemma LosingRun(c: Config) returns (s: State)
    requires CanLose(c)
    ensures s.Ok() && Reachable(c, s) && !Awake(s)
    ensures !s.locked && s.mon == Monitor(None, Init(c).mon.threads[1 := Parked])
  {
    s := InitReachable(c);
    s := ParkRun(c, s, 0);
    s := ParkRun(c, s, 1);
    s := GiveRun(c, s, 2, 0);
    s := OvertakeRun(c, s, 0);
    assert s.mon.threads == Init(c).mon.threads[1 := Parked];
    assert s.mon.IsParked(1);
  }

  /** No thread ever sleeps beside an unlocked semaphore, whatever the interleaving, if and only if a
      timeout cannot consume a signal or there are at most two threads. */
  lemma NoLostWakeupIff(c: Config)
    ensures (forall s: State :: Reachable(c, s) ==> Awake(s)) <==> !CanLose(c)
  {
    if CanLose(c) {
      var s := LosingRun(c);
    } else {
      forall s: State | Reachable(c, s)
        ensures Awake(s)
      {
        var acts :| Exec(c, Init(c), acts) == s;
        NoLostWakeup(c, acts);
      }
    }
  }

  // ---------------------------------------------------------------------------------------------
  // What a return code says
  // ---------------------------------------------------------------------------------------------

  /** The code a thread is about to return, against the flag it still holds and how its wait ended. */
  ghost predicate CodeJustified(s: State, t: Tid)
    requires s.mon.Holds(t)
  {
    match s.mon.threads[t].at
    case TakeLoop(after) => after.Some? ==> Status(after.value) == Zero
    case TakeCheck(after, expired) => (after.Some? ==> Status(after.value) == Zero) && (s.locked ==> expired)
    case TakeExit(error, after, expired) =>
      if after.Some? && Status(after.value) == ETimedOut then error == ErrorTimeout
      else if after.Some? && Status(after.value) == OtherError then error == ErrorOs
      else s.locked && (error == Success || (error == ErrorTimeout && expired))
    case _ => true
  }

  ghost predicate CodesJustified(s: State) {
    forall t :: s.mon.Holds(t) ==> CodeJustified(s, t)
  }

  lemma CodesRun(s: State, u: Tid)
    requires s.Ok() && CodesJustified(s) && s.mon.Holds(u)
    ensures CodesJustified(RunAt(s, u))
  {
    assert CodeJustified(s, u);
    assert forall t :: RunAt(s, u).mon.Holds(t) ==> t == u;
  }

  lemma CodesSignal(c: Config, s: State, u: Tid, v: Tid)
    requires s.Ok() && CodesJustified(s)
    ensures CodesJustified(Step(c, s, Signal(u, v)))
  {
    var r := Step(c, s, Signal(u, v));
    if r != s {
      assert r.mon.threads[u] == Holding(GiveExit);
      assert forall t :: r.mon.Holds(t) ==> t == u;
    }
  }

  lemma CodesStep(c: Config, s: State, a: Action)
    requires s.Ok() && CodesJustified(s)
    ensures CodesJustified(Step(c, s, a))
  {
    if a.Run? {
      if s.mon.Holds(a.t) {
        CodesRun(s, a.t);
      }
    } else if a.Signal? {
      CodesSignal(c, s, a.t, a.v);
    } else {
      var r := Step(c, s, a);
      forall t | r.mon.Holds(t)
        ensures CodeJustified(r, t)
      {
        assert s.mon.Holds(t) ==> CodeJustified(s, t);
      }
    }
  }

  /** In every run: a Take whose wait timed out returns ErrorTimeout, one whose wait failed ErrorOs; any
      other returns Success, having locked, or ErrorTimeout on a locked semaphore whose elapsed-time test
      has reached the timeout. So neither a signal nor a spurious wake-up makes it give up. */
  lemma {:induction false} CodesAlways(c: Config, acts: seq<Action>)
    ensures CodesJustified(Exec(c, Init(c), acts))
  {
    if acts != [] {
      CodesAlways(c, acts[..|acts| - 1]);
      CodesStep(c, Exec(c, Init(c), acts[..|acts| - 1]), acts[|acts| - 1]);
    }
  }

  /** `t` is about to return ErrorOs, which `adapter/semaphore.h` does not name. */
  ghost predicate ReportsOsError(s: State, t: Tid) {
    s.mon.Holds(t) && s.mon.threads[t].at.TakeExit? && s.mon.threads[t].at.error == ErrorOs
  }

  lemma RefuseRun(c: Config, s: State, t: Tid) returns (r: State)
    requires s.Ok() && Reachable(c, s) && s.mon.Holds(t) && s.mon.threads[t].at.TakeLoop? && s.locked
    ensures r == s.(mon := Goto(s.mon, t, Waited(Failed))) && r.Ok() && Reachable(c, r)
  {
    r := Go(c, s, Refuse(t));
  }

  lemma OsErrorRun(c: Config, t: Tid) returns (s: State)
    requires t < c.threads
    ensures Reachable(c, s) && ReportsOsError(s, t)
  {
    s := InitReachable(c);
    s := EnterRun(c, s, t, false);
    s := RefuseRun(c, s, t);
    s := GoRun(c, s, t);
  }

  /** Every thread can get ErrorOs, and it means that its wait failed. */
  lemma OsErrorIff(c: Config, t: Tid)
    ensures (exists s: State :: Reachable(c, s) && ReportsOsError(s, t)) <==> t < c.threads
    ensures forall s: State :: Reachable(c, s) && ReportsOsError(s, t) ==> s.mon.threads[t].at.after == Some(Failed)
  {
    if t < c.threads {
      var s := OsErrorRun(c, t);
    }
    forall s: State | Reachable(c, s) && ReportsOsError(s, t)
      ensures t < c.threads && s.mon.threads[t].at.after == Some(Failed)
    {
      var acts :| Exec(c, Init(c), acts) == s;
      CodesAlways(c, acts);
      assert CodeJustified(s, t);
    }
  }

  // ---------------------------------------------------------------------------------------------
  // Conservation
  // ---------------------------------------------------------------------------------------------

  function Gives(h: seq<Event>): nat {
    if h == [] then 0 else Gives(h[..|h| - 1]) + if h[|h| - 1].Given? then 1 else 0
  }

  function Takers(h: seq<Event>): seq<Tid> {
    if h == [] then []
    else Takers(h[..|h| - 1]) + if h[|h| - 1].Taken? then [h[|h| - 1].t] else []
  }

  /** The thread whose successful Take has not returned yet. */
  ghost function InTake(s: State): seq<Tid>
    requires s.Ok()
  {
    if s.mon.owner.Some? then TakingAt(s.mon.owner.value, s.mon.threads[s.mon.owner.value]) else []
  }

  function TakingAt(t: Tid, thread: Thread<Loc>): seq<Tid> {
    match thread
    case Holding(TakeExit(Success, _, _)) => [t]
    case _ => []
  }

  /** The flag's changes alternate, starting with a give. */
  ghost predicate Alternates(h: seq<Event>) {
    forall i :: 0 <= i < |h| ==> (h[i].Given? <==> i % 2 == 0)
  }

  ghost predicate Conserved(s: State) {
    && s.Ok()
    && Alternates(s.history)
    && (s.locked <==> |s.history| % 2 == 0)
    && Gives(s.history) - |Takers(s.history)| == (if s.locked then 0 else 1)
    && Takers(s.history) == s.returned + InTake(s)
  }

  lemma AlternatesSnoc(h: seq<Event>, e: Event)
    requires Alternates(h) && (e.Given? <==> |h| % 2 == 0)
    ensures Alternates(h + [e])
  {
    var longer := h + [e];
    forall i | 0 <= i < |longer|
      ensures longer[i].Given? <==> i % 2 == 0
    {
      assert i < |h| ==> longer[i] == h[i];
    }
  }

  lemma CountsSnoc(h: seq<Event>, e: Event)
    ensures Gives(h + [e]) == Gives(h) + if e.Given? then 1 else 0
    ensures Takers(h + [e]) == Takers(h) + if e.Taken? then [e.t] else []
  {
    assert (h + [e])[..|h|] == h;
  }

  lemma ConservedTake(s: State, t: Tid)
    requires Conserved(s) && s.mon.Holds(t) && s.mon.threads[t].at.TakeCheck? && !s.locked
    ensures Conserved(RunAt(s, t))
  {
    assert InTake(s) == [] && InTake(RunAt(s, t)) == [t];
    AlternatesSnoc(s.history, Taken(t));
    CountsSnoc(s.history, Taken(t));
    assert s.returned + [] == s.returned;
  }

  lemma ConservedGive(s: State, t: Tid)
    requires Conserved(s) && s.mon.Holds(t) && s.mon.threads[t].at.GiveEnter? && s.locked
    ensures Conserved(RunAt(s, t))
  {
    assert InTake(s) == [] && InTake(RunAt(s, t)) == [];
    AlternatesSnoc(s.history, Given(t));
    CountsSnoc(s.history, Given(t));
    assert Takers(s.history) + [] == Takers(s.history);
  }

  lemma ConservedReturn(s: State, t: Tid)
    requires Conserved(s) && s.mon.Holds(t) && s.mon.threads[t].at.TakeExit?
    ensures Conserved(RunAt(s, t))
  {
    var r := RunAt(s, t);
    assert InTake(r) == [] && r.returned == s.returned + InTake(s);
    assert r.returned + [] == r.returned;
  }

  lemma ConservedOther(s: State, t: Tid)
    requires Conserved(s) && s.mon.Holds(t)
    requires var at := s.mon.threads[t].at;
             !at.TakeExit? && !(at.TakeCheck? && !s.locked) && !(at.GiveEnter? && s.locked)
    ensures Conserved(RunAt(s, t))
  {
    assert InTake(s) == [] && InTake(RunAt(s, t)) == [];
  }

  lemma ConservedRun(s: State, t: Tid)
    requires Conserved(s) && s.mon.Holds(t)
    ensures Conserved(RunAt(s, t))
  {
    var at := s.mon.threads[t].at;
    if at.TakeCheck? && !s.locked {
      ConservedTake(s, t);
    } else if at.GiveEnter? && s.locked {
      ConservedGive(s, t);
    } else if at.TakeExit? {
      ConservedReturn(s, t);
    } else {
      ConservedOther(s, t);
    }
  }

  lemma ConservedStep(c: Config, s: State, a: Action)
    requires Conserved(s)
    ensures Conserved(Step(c, s, a))
  {
    if a.Run? {
      if s.mon.Holds(a.t) {
        ConservedRun(s, a.t);
      }
    } else {
      SameTaker(c, s, a);
    }
  }

  lemma SameTaker(c: Config, s: State, a: Action)
    requires s.Ok() && !a.Run?
    ensures var r := Step(c, s, a);
            InTake(r) == InTake(s) && r.locked == s.locked && r.history == s.history && r.returned == s.returned
  {
  }

  /** Gives that unlock and takes that succeed alternate strictly, starting with a give; their difference
      is what the flag shows; and the Take calls that return Success are exactly the takes, in order. */
  lemma {:induction false} ConservedAlways(c: Config, acts: seq<Action>)
    ensures Conserved(Exec(c, Init(c), acts))
  {
    if acts != [] {
      ConservedAlways(c, acts[..|acts| - 1]);
      ConservedStep(c, Exec(c, Init(c), acts[..|acts| - 1]), acts[|acts| - 1]);
    }
  }
}
