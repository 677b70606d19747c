/** Queue_Send and Queue_Receive of main/src/adapter/posix/queue.c as steps of many threads.

    Every statement that reads or writes the queue runs while its thread holds the mutex; between two
    statements any other thread may lock, unpark, time out or wake spuriously. A step that is not
    enabled leaves the state as it is, so every sequence of actions is a run. */
module QueueSteps {
  import opened Base
  import opened RingBuffer
  import opened Pthread

  /** Program points. `after` records how a receive left the condition variable, if it waited. */
  datatype Loc<+M> =
    | SendEnter(msg: M)                    // test for a full queue
    | SendSignal(msg: M)                   // message stored, signal still to come
    | SendExit(msg: M, error: ErrorCode)   // unlock and return
    | RecvEnter                            // first test for an empty queue
    | Waited(why: Wake)                    // pthread_cond_timedwait has returned
    | RecvCheck(after: Option<Wake>)       // second test for an empty queue
    | RecvExit(error: ErrorCode, message: Option<M>, after: Option<Wake>)

  /** The points from which a thread contends for the mutex. */
  predicate IsEntry<M>(at: Loc<M>) {
    at.SendEnter? || at.RecvEnter? || at.Waited?
  }

  /** Which threads ever call Queue_Send and Queue_Receive. `consumes`: a wait that times out may consume a
      signal directed at it. */
  datatype Config = Config(size: nat, threads: nat, producers: set<Tid>, consumers: set<Tid>, consumes: bool)

  /** `sent` and `got` list the messages of the Send and Receive calls that returned Success,
      in the order in which they returned. */
  datatype State<+M> = State(mon: Monitor<Loc<M>>, ring: Ring<M>, sent: seq<M>, got: seq<M>) {
    ghost predicate Ok() {
      && mon.Valid()
      && ring.Valid()
      && forall t :: 0 <= t < |mon.threads| && mon.threads[t].Entering? ==> IsEntry(mon.threads[t].at)
    }
  }

  datatype Action<+M> =
    | CallSend(t: Tid, msg: M)
    | CallReceive(t: Tid)
    | LockFails(t: Tid)
    | Lock(t: Tid)
    | Run(t: Tid)             // the next statement under the mutex
    | Signal(t: Tid, v: Tid)  // pthread_cond_signal by t; v is the waiter it picks
    | Wait(t: Tid)            // pthread_cond_timedwait releases the mutex and parks t
    | Refuse(t: Tid)          // pthread_cond_timedwait returns an error at once
    | Leave(t: Tid, why: Wake) // t leaves the condition variable without a signal
    | Overtake(t: Tid)         // t was signalled, but its deadline passes before it returns

  function Init<M>(c: Config): (s: State<M>)
    ensures s.Ok()
  {
    State(Monitor(None, seq(c.threads, _ => Outside)), Empty(c.size), [], [])
  }

  function RunAt<M>(s: State<M>, t: Tid): (r: State<M>)
    requires s.Ok() && s.mon.Holds(t)
    ensures r.Ok() && r.ring.size == s.ring.size
  {
    match s.mon.threads[t].at
    case SendEnter(msg) =>
      if s.ring.Full() then
        s.(mon := Goto(s.mon, t, SendExit(msg, ErrorResourceNotAvailable)))
      else
        s.(mon := Goto(s.mon, t, SendSignal(msg)), ring := s.ring.Push(msg))
    case SendSignal(msg) =>
      if s.ring.count == 1 then s else s.(mon := Goto(s.mon, t, SendExit(msg, Success)))
    case SendExit(msg, error) =>
      s.(mon := Release(s.mon, t), sent := if error == Success then s.sent + [msg] else s.sent)
    case RecvEnter =>
      if s.ring.count == 0 then s else s.(mon := Goto(s.mon, t, RecvCheck(None)))
    case Waited(why) =>
      s.(mon := Goto(s.mon, t, match Status(why)
                               case Zero => RecvCheck(Some(why))
                               case ETimedOut => RecvExit(ErrorTimeout, None, Some(why))
                               case OtherError => RecvExit(ErrorOs, None, Some(why))))
    case RecvCheck(why) =>
      if s.ring.count == 0 then
        s.(mon := Goto(s.mon, t, RecvExit(ErrorTimeout, None, why)))
      else
        s.(mon := Goto(s.mon, t, RecvExit(Success, Some(s.ring.Oldest()), why)), ring := s.ring.Pop())
    case RecvExit(_, message, _) =>
      s.(mon := Release(s.mon, t), got := if message.Some? then s.got + [message.value] else s.got)
  }

  ghost function Step<M>(c: Config, s: State<M>, a: Action<M>): (r: State<M>)
    requires s.Ok()
    ensures r.Ok() && r.ring.size == s.ring.size
  {
    match a
    case CallSend(t, msg) =>
      if t in c.producers && s.mon.IsOutside(t) then s.(mon := Call(s.mon, t, SendEnter(msg))) else s
    case CallReceive(t) =>
      if t in c.consumers && s.mon.IsOutside(t) then s.(mon := Call(s.mon, t, RecvEnter)) else s
    case LockFails(t) =>
      if s.mon.IsEntering(t) && !s.mon.threads[t].at.Waited? then s.(mon := Abandon(s.mon, t)) else s
    case Lock(t) =>
      if s.mon.IsEntering(t) && s.mon.owner.None? then s.(mon := Acquire(s.mon, t)) else s
    case Run(t) =>
      if s.mon.Holds(t) then RunAt(s, t) else s
    case Signal(t, v) =>
      if AboutToSignal(s, t) && (s.mon.IsParked(v) || !s.mon.AnyParked()) then
        var exit := SendExit(s.mon.threads[t].at.msg, Success);
        var woken := if s.mon.IsParked(v) then Unpark(s.mon, v, Waited(Signalled)) else s.mon;
        s.(mon := Goto(woken, t, exit))
      else s
    case Wait(t) =>
      if s.mon.Holds(t) && s.mon.threads[t].at.RecvEnter? && s.ring.count == 0 then s.(mon := Park(s.mon, t)) else s
    case Refuse(t) =>
      if s.mon.Holds(t) && s.mon.threads[t].at.RecvEnter? && s.ring.count == 0 then
        s.(mon := Goto(s.mon, t, Waited(Failed)))
      else s
    case Leave(t, why) =>
      if s.mon.IsParked(t) && why != Signalled && why != Consumed then s.(mon := Unpark(s.mon, t, Waited(why))) else s
    case Overtake(t) =>
      if c.consumes && s.mon.IsEntering(t) && s.mon.threads[t].at == Waited(Signalled) then
        s.(mon := Redirect(s.mon, t, Waited(Consumed)))
      else s
  }

  /** The sender `t` has just stored the only message and is at its pthread_cond_signal. */
  ghost predicate AboutToSignal<M>(s: State<M>, t: Tid) {
    s.mon.Holds(t) && s.mon.threads[t].at.SendSignal? && s.ring.count == 1
  }

  ghost function Exec<M>(c: Config, s: State<M>, acts: seq<Action<M>>): (r: State<M>)
    requires s.Ok()
    ensures r.Ok() && r.ring.size == s.ring.size
  {
    if acts == [] then s else Step(c, Exec(c, s, acts[..|acts| - 1]), acts[|acts| - 1])
  }

  ghost predicate Reachable<M(!new)>(c: Config, s: State<M>) {
    exists acts: seq<Action<M>> :: Exec(c, Init(c), acts) == s
  }

  lemma Extend<M(!new)>(c: Config, s: State<M>, a: Action<M>)
    requires s.Ok() && Reachable(c, s)
    ensures Reachable(c, Step(c, s, a))
  {
    var acts :| Exec(c, Init(c), acts) == s;
    assert (acts + [a])[..|acts|] == acts;
    assert Exec(c, Init(c), acts + [a]) == Step(c, s, a);
  }

  // ---------------------------------------------------------------------------------------------
  // First in, first out
  // ---------------------------------------------------------------------------------------------

  /** The message of a Send that is stored but whose call has not returned yet. */
  ghost function InSend<M>(s: State<M>): seq<M>
    requires s.Ok()
  {
    if s.mon.owner.None? then []
    else match s.mon.threads[s.mon.owner.value].at
      case SendSignal(msg) => [msg]
      case SendExit(msg, Success) => [msg]
      case _ => []
  }

  /** The message a Receive has copied out but not returned yet. */
  ghost function InReceive<M>(s: State<M>): seq<M>
    requires s.Ok()
  {
    if s.mon.owner.None? then []
    else match s.mon.threads[s.mon.owner.value].at
      case RecvExit(_, Some(msg), _) => [msg]
      case _ => []
  }

  ghost predicate Fifo<M>(s: State<M>) {
    && s.Ok()
    && s.sent + InSend(s) == s.got + InReceive(s) + s.ring.Window()
  }

  lemma FifoRun<M>(s: State<M>, t: Tid)
    requires Fifo(s) && s.mon.Holds(t)
    ensures Fifo(RunAt(s, t))
  {
    var r := RunAt(s, t);
    var at := s.mon.threads[t].at;
    if at.SendEnter? && !s.ring.Full() {
      Append(s.sent, s.got, s.ring.Window(), at.msg);
    } else if at.RecvCheck? && s.ring.count > 0 {
      TakeFirst(s.got, s.ring.Window());
    } else if at.SendExit? || at.RecvExit? {
      FifoReturn(s, t);
    }
  }

  lemma Append<M>(sent: seq<M>, got: seq<M>, window: seq<M>, msg: M)
    requires sent + [] == got + [] + window
    ensures sent + [msg] == got + [] + (window + [msg])
  {
    assert sent + [] == sent && got + [] == got;
  }

  lemma TakeFirst<M>(got: seq<M>, window: seq<M>)
    requires window != []
    ensures got + [] + window == got + [window[0]] + window[1..]
  {
    assert got + [] == got;
  }

  /** A call returns what it had at its unlock. */
  lemma FifoReturn<M>(s: State<M>, t: Tid)
    requires Fifo(s) && s.mon.Holds(t) && (s.mon.threads[t].at.SendExit? || s.mon.threads[t].at.RecvExit?)
    ensures Fifo(RunAt(s, t))
  {
    var r := RunAt(s, t);
    assert r.sent + [] == r.sent == s.sent + InSend(s);
    assert r.got + [] == r.got == s.got + InReceive(s);
  }

  lemma FifoStep<M>(c: Config, s: State<M>, a: Action<M>)
    requires Fifo(s)
    ensures Fifo(Step(c, s, a))
  {
    if a.Run? {
      if s.mon.Holds(a.t) {
        FifoRun(s, a.t);
      }
    } else {
      NothingMoves(c, s, a);
    }
  }

  lemma NothingMoves<M>(c: Config, s: State<M>, a: Action<M>)
    requires s.Ok() && !a.Run?
    ensures var r := Step(c, s, a);
            && InSend(r) == InSend(s) && InReceive(r) == InReceive(s)
            && r.ring == s.ring && r.sent == s.sent && r.got == s.got
  {
  }

  /** For any number of producers and consumers, and whatever the interleaving, the timeouts and the
      wake-ups: the messages whose Send succeeded are, in order, those whose Receive succeeded followed
      by those in the ring (with the one call in its critical section accounted for). */
  lemma {:induction false} FifoAlways<M>(c: Config, acts: seq<Action<M>>)
    ensures Fifo(Exec(c, Init(c), acts))
  {
    if acts != [] {
      FifoAlways(c, acts[..|acts| - 1]);
      FifoStep(c, Exec(c, Init(c), acts[..|acts| - 1]), acts[|acts| - 1]);
    }
  }

  // ---------------------------------------------------------------------------------------------
  // What a return code says
  // ---------------------------------------------------------------------------------------------

  /** The code a thread is about to return, against the queue it still holds and how its wait ended. */
  ghost predicate CodeJustified<M>(s: State<M>, t: Tid)
    requires s.mon.Holds(t)
  {
    match s.mon.threads[t].at
    case SendSignal(_) => s.ring.count > 0
    case SendExit(_, error) =>
      if error == Success then s.ring.count > 0 else error == ErrorResourceNotAvailable && s.ring.Full()
    case RecvCheck(after) =>
      if after.None? then s.ring.count > 0 else Status(after.value) == Zero
    case RecvExit(error, message, after) =>
      && (message.Some? <==> error == Success)
      && (error == Success ==> !s.ring.Full())
      && (match after
          case None => error == Success
          case Some(TimedOut) => error == ErrorTimeout
          case Some(Consumed) => error == ErrorTimeout
          case Some(Failed) => error == ErrorOs
          case Some(_) => error == Success || (error == ErrorTimeout && s.ring.count == 0))
    case _ => true
  }

  ghost predicate CodesJustified<M>(s: State<M>) {
    forall t :: s.mon.Holds(t) ==> CodeJustified(s, t)
  }

  lemma CodesRun<M>(s: State<M>, u: Tid)
    requires s.Ok() && CodesJustified(s) && s.mon.Holds(u)
    ensures CodesJustified(RunAt(s, u))
  {
    var r := RunAt(s, u);
    assert CodeJustified(s, u);
    assert forall t :: r.mon.Holds(t) ==> t == u;
  }

  lemma CodesSignal<M>(c: Config, s: State<M>, u: Tid, v: Tid)
    requires s.Ok() && CodesJustified(s)
    ensures CodesJustified(Step(c, s, Signal(u, v)))
  {
    var r := Step(c, s, Signal(u, v));
    if r != s {
      assert r.mon.threads[u] == Holding(SendExit(s.mon.threads[u].at.msg, Success));
      assert forall t :: r.mon.Holds(t) ==> t == u;
    }
  }

  lemma CodesStep<M>(c: Config, s: State<M>, a: Action<M>)
    requires s.Ok() && CodesJustified(s)
    ensures CodesJustified(Step(c, s, a))
  {
    if a.Run? {
      if s.mon.Holds(a.t) {
        CodesRun(s, a.t);
      }
    } else if a.Signal? {
      CodesSignal(c, s, a.t, a.v);
    } else {
      var r := Step(c, s, a);
      forall t | r.mon.Holds(t)
        ensures CodeJustified(r, t)
      {
        assert s.mon.Holds(t) ==> CodeJustified(s, t);
      }
    }
  }

  /** In every run: a Send is refused only by a full queue, and otherwise leaves a message; a Receive that
      waited returns ErrorTimeout when its deadline ended the wait, ErrorOs when the wait failed, and
      otherwise succeeds unless the queue is empty as it returns; one that did not wait always succeeds;
      and one that succeeds leaves a free slot. */
  lemma {:induction false} CodesAlways<M>(c: Config, acts: seq<Action<M>>)
    ensures CodesJustified(Exec(c, Init<M>(c), acts))
  {
    if acts != [] {
      CodesAlways(c, acts[..|acts| - 1]);
      CodesStep(c, Exec(c, Init<M>(c), acts[..|acts| - 1]), acts[|acts| - 1]);
    }
  }

  /** In every run the receives never outnumber the sends, nor fall behind them by more than the capacity;
      and between calls what was sent is what was received, then what is queued. */
  lemma QuiescentFifo<M>(c: Config, acts: seq<Action<M>>)
    ensures var s := Exec(c, Init(c), acts);
            |s.got| <= |s.sent| <= |s.got| + c.size
    ensures var s := Exec(c, Init(c), acts);
            s.mon.owner == None ==> s.sent == s.got + s.ring.Window()
  {
    FifoAlways(c, acts);
    CodesAlways(c, acts);
    FifoCounts(Exec(c, Init(c), acts));
  }

  lemma FifoCounts<M>(s: State<M>)
    requires Fifo(s) && CodesJustified(s)
    ensures |s.got| <= |s.sent| <= |s.got| + s.ring.size
    ensures s.mon.owner == None ==> s.sent == s.got + s.ring.Window()
  {
    assert s.sent + [] == s.sent && s.got + [] == s.got;
    assert |s.sent| + |InSend(s)| == |s.got| + |InReceive(s)| + s.ring.count;
    if s.mon.owner.Some? {
      assert CodeJustified(s, s.mon.owner.value);
    }
  }
}
