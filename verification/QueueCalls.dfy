/** Calls of Queue_Send and Queue_Receive as single steps. Every run of the two functions, statement by
    statement and by any number of threads, is a run of a queue on which every call is decided in one step;
    and what the calls of a thread return, in order, is what those steps decided for it. */
module QueueCalls {
  import opened Base
  import opened RingBuffer
  import opened Pthread
  import opened QueueSteps

  /** A call of thread `t` at the moment that decides it: a message goes in, a full queue or a failed lock
      refuses one, or a receive gets its code and the oldest message or none. */
  datatype Op<+M> =
    | Put(t: Tid, msg: M)
    | Refused(t: Tid, msg: M)
    | LockFailed(t: Tid, msg: M)
    | Took(t: Tid, error: ErrorCode, outcome: Option<M>)

  // ---------------------------------------------------------------------------------------------
  // The deciding statements
  // ---------------------------------------------------------------------------------------------

  /** What the statement under the mutex decides. */
  ghost function Decides<M>(s: State<M>, t: Tid): seq<Op<M>>
    requires s.Ok() && s.mon.Holds(t)
  {
    match s.mon.threads[t].at
    case SendEnter(msg) => if s.ring.Full() then [Refused(t, msg)] else [Put(t, msg)]
    case Waited(why) =>
      (match Status(why)
       case Zero => []
       case ETimedOut => [Took(t, ErrorTimeout, None)]
       case OtherError => [Took(t, ErrorOs, None)])
    case RecvCheck(_) =>
      if s.ring.count == 0 then [Took(t, ErrorTimeout, None)] else [Took(t, Success, Some(s.ring.Oldest()))]
    case _ => []
  }

  ghost function Emits<M>(s: State<M>, a: Action<M>): seq<Op<M>>
    requires s.Ok()
  {
    match a
    case Run(t) => if s.mon.Holds(t) then Decides(s, t) else []
    case LockFails(t) =>
      if !s.mon.IsEntering(t) then []
      else
        (match s.mon.threads[t].at
         case SendEnter(msg) => [LockFailed(t, msg)]
         case RecvEnter => [Took(t, Failure, None)]
         case _ => [])
    case _ => []
  }

  /** The deciding moments of a run, in order. */
  ghost function Ops<M>(c: Config, acts: seq<Action<M>>): seq<Op<M>> {
    if acts == [] then []
    else Ops(c, acts[..|acts| - 1]) + Emits(Exec(c, Init(c), acts[..|acts| - 1]), acts[|acts| - 1])
  }

  lemma OpsSnoc<M>(c: Config, before: seq<Action<M>>, a: Action<M>)
    ensures (before + [a])[..|before|] == before
    ensures Ops(c, before + [a]) == Ops(c, before) + Emits(Exec(c, Init(c), before), a)
    ensures Exec(c, Init(c), before + [a]) == Step(c, Exec(c, Init(c), before), a)
  {
    assert (before + [a])[..|before|] == before;
  }

  // ---------------------------------------------------------------------------------------------
  // The queue whose calls are single steps
  // ---------------------------------------------------------------------------------------------

  /** Which calls it allows. */
  predicate Allowed<M(==)>(size: nat, q: seq<M>, op: Op<M>) {
    match op
    case Put(_, _) => |q| < size
    case Refused(_, _) => |q| == size
    case LockFailed(_, _) => true
    case Took(_, error, None) => error != Success
    case Took(_, error, Some(m)) => error == Success && q != [] && q[0] == m
  }

  /** What they make of it. */
  function Apply<M>(q: seq<M>, op: Op<M>): seq<M> {
    match op
    case Put(_, msg) => q + [msg]
    case Took(_, _, Some(_)) => if q == [] then [] else q[1..]
    case _ => q
  }

  /** The queue after a list of calls; None if it would not have allowed one of them. */
  function Replay<M(==)>(size: nat, ops: seq<Op<M>>): Option<seq<M>> {
    if ops == [] then Some([])
    else
      var q, op := Replay(size, ops[..|ops| - 1]), ops[|ops| - 1];
      if q.Some? && Allowed(size, q.value, op) then Some(Apply(q.value, op)) else None
  }

  lemma ReplaySnoc<M>(size: nat, ops: seq<Op<M>>, op: Op<M>, q: seq<M>)
    requires Replay(size, ops) == Some(q) && Allowed(size, q, op)
    ensures Replay(size, ops + [op]) == Some(Apply(q, op))
  {
    assert (ops + [op])[..|ops|] == ops;
  }

  /** At most one call is decided by a step, and only that changes the queue. */
  ghost predicate OneCall<M>(size: nat, before: seq<M>, ops: seq<Op<M>>, after: seq<M>) {
    if ops == [] then after == before
    else |ops| == 1 && Allowed(size, before, ops[0]) && after == Apply(before, ops[0])
  }

  lemma DecidesAllowed<M>(s: State<M>, t: Tid)
    requires s.Ok() && s.mon.Holds(t)
    ensures OneCall(s.ring.size, s.ring.Window(), Decides(s, t), RunAt(s, t).ring.Window())
  {
  }

  lemma EmitsAllowed<M>(c: Config, s: State<M>, a: Action<M>)
    requires s.Ok()
    ensures OneCall(s.ring.size, s.ring.Window(), Emits(s, a), Step(c, s, a).ring.Window())
  {
    if a.Run? && s.mon.Holds(a.t) {
      DecidesAllowed(s, a.t);
    }
  }

  /** Every run, statement by statement, is a run of the queue whose calls are single steps, and both end with
      the same messages. */
  lemma {:induction false} Linearised<M>(c: Config, acts: seq<Action<M>>)
    ensures Replay(c.size, Ops(c, acts)) == Some(Exec(c, Init(c), acts).ring.Window())
  {
    if acts != [] {
      var before, a := acts[..|acts| - 1], acts[|acts| - 1];
      var s := Exec(c, Init(c), before);
      Linearised(c, before);
      EmitsAllowed(c, s, a);
      var ops := Emits(s, a);
      if ops == [] {
        assert Ops(c, before) + [] == Ops(c, before);
      } else {
        assert ops == [ops[0]];
        ReplaySnoc(c.size, Ops(c, before), ops[0], s.ring.Window());
      }
    }
  }

  // ---------------------------------------------------------------------------------------------
  // What the calls of a thread return
  // ---------------------------------------------------------------------------------------------

  datatype Result<+M> = Sent(error: ErrorCode) | Received(error: ErrorCode, message: Option<M>)

  /** What a call returns, by the step that decides it. */
  function ResultOf<M>(op: Op<M>): Result<M> {
    match op
    case Put(_, _) => Sent(Success)
    case Refused(_, _) => Sent(ErrorResourceNotAvailable)
    case LockFailed(_, _) => Sent(Failure)
    case Took(_, error, outcome) => Received(error, outcome)
  }

  /** The results that a list of calls decides for thread `t`, in order. */
  function ResultsOf<M>(ops: seq<Op<M>>, t: Tid): seq<Result<M>> {
    if ops == [] then []
    else ResultsOf(ops[..|ops| - 1], t) + if ops[|ops| - 1].t == t then [ResultOf(ops[|ops| - 1])] else []
  }

  /** What a step makes a call of thread `t` return. */
  ghost function Returns<M>(s: State<M>, a: Action<M>, t: Tid): seq<Result<M>>
    requires s.Ok()
  {
    match a
    case Run(u) =>
      if u != t || !s.mon.Holds(t) then []
      else
        (match s.mon.threads[t].at
         case SendExit(_, error) => [Sent(error)]
         case RecvExit(error, message, _) => [Received(error, message)]
         case _ => [])
    case LockFails(u) =>
      if u != t || !s.mon.IsEntering(t) then []
      else
        (match s.mon.threads[t].at
         case SendEnter(_) => [Sent(Failure)]
         case RecvEnter => [Received(Failure, None)]
         case _ => [])
    case _ => []
  }

  /** What the calls of thread `t` return in a run, in order. */
  ghost function ReturnsTo<M>(c: Config, acts: seq<Action<M>>, t: Tid): seq<Result<M>> {
    if acts == [] then []
    else ReturnsTo(c, acts[..|acts| - 1], t) + Returns(Exec(c, Init(c), acts[..|acts| - 1]), acts[|acts| - 1], t)
  }

  /** The result that a call of thread `t` holds but has not returned yet. */
  ghost function InHand<M>(s: State<M>, t: Tid): seq<Result<M>>
    requires s.Ok()
  {
    if !s.mon.Holds(t) then []
    else match s.mon.threads[t].at
      case SendSignal(_) => [Sent(Success)]
      case SendExit(_, error) => [Sent(error)]
      case RecvExit(error, message, _) => [Received(error, message)]
      case _ => []
  }

  /** What a step decides for thread `t`. */
  function DecidedFor<M>(ops: seq<Op<M>>, t: Tid): seq<Result<M>> {
    if ops != [] && ops[0].t == t then [ResultOf(ops[0])] else []
  }

  lemma ResultsMore<M>(all: seq<Op<M>>, ops: seq<Op<M>>, t: Tid)
    requires |ops| <= 1
    ensures ResultsOf(all + ops, t) == ResultsOf(all, t) + DecidedFor(ops, t)
  {
    if ops == [] {
      assert all + ops == all;
    } else {
      assert ops == [ops[0]] && (all + ops)[..|all|] == all;
    }
  }

  /** A statement of a call that returns its result; and any other statement. */
  lemma OwnReturn<M>(s: State<M>, t: Tid)
    requires s.Ok() && s.mon.Holds(t) && (s.mon.threads[t].at.SendExit? || s.mon.threads[t].at.RecvExit?)
    ensures Decides(s, t) == [] && InHand(RunAt(s, t), t) == [] && Returns(s, Run(t), t) == InHand(s, t)
  {
  }

  lemma OwnDecision<M>(s: State<M>, t: Tid)
    requires s.Ok() && s.mon.Holds(t) && !s.mon.threads[t].at.SendExit? && !s.mon.threads[t].at.RecvExit?
    ensures Returns(s, Run(t), t) == [] && InHand(RunAt(s, t), t) == InHand(s, t) + DecidedFor(Decides(s, t), t)
  {
    assert s.mon.threads[t].at.SendSignal? || InHand(s, t) == [];
  }

  lemma OwnRun<M>(s: State<M>, t: Tid)
    requires s.Ok() && s.mon.Holds(t)
    ensures InHand(s, t) + DecidedFor(Decides(s, t), t) == Returns(s, Run(t), t) + InHand(RunAt(s, t), t)
  {
    if s.mon.threads[t].at.SendExit? || s.mon.threads[t].at.RecvExit? {
      OwnReturn(s, t);
      assert InHand(s, t) + [] == InHand(s, t);
    } else {
      OwnDecision(s, t);
    }
  }

  /** A statement of another thread concerns nobody else's calls. */
  lemma AnotherRun<M>(s: State<M>, u: Tid, t: Tid)
    requires s.Ok() && s.mon.Holds(u) && u != t
    ensures InHand(s, t) == [] && InHand(RunAt(s, u), t) == []
    ensures DecidedFor(Decides(s, u), t) == [] && Returns(s, Run(u), t) == []
  {
    assert !s.mon.Holds(t) && !RunAt(s, u).mon.Holds(t);
  }

  lemma DecidesOrReturns<M>(c: Config, s: State<M>, a: Action<M>, t: Tid)
    requires s.Ok()
    ensures InHand(s, t) + DecidedFor(Emits(s, a), t) == Returns(s, a, t) + InHand(Step(c, s, a), t)
  {
    if a.Run? {
      if s.mon.Holds(a.t) && a.t == t {
        OwnRun(s, t);
      } else if s.mon.Holds(a.t) {
        AnotherRun(s, a.t, t);
      }
    } else if a.LockFails? {
      FailedLock(c, s, a.t, t);
    } else {
      NothingReturned(c, s, a, t);
    }
  }

  lemma FailedLock<M>(c: Config, s: State<M>, u: Tid, t: Tid)
    requires s.Ok()
    ensures InHand(Step(c, s, LockFails(u)), t) == InHand(s, t)
    ensures DecidedFor(Emits(s, LockFails(u)), t) == Returns(s, LockFails(u), t)
    ensures Returns(s, LockFails(u), t) != [] ==> InHand(s, t) == []
  {
  }

  lemma NothingReturned<M>(c: Config, s: State<M>, a: Action<M>, t: Tid)
    requires s.Ok() && !a.Run? && !a.LockFails?
    ensures InHand(Step(c, s, a), t) == InHand(s, t) && Emits(s, a) == [] && Returns(s, a, t) == []
  {
  }

  lemma Shift<T>(first: seq<T>, a: seq<T>, b: seq<T>, x: seq<T>, y: seq<T>)
    requires a + b == x + y
    ensures (first + a) + b == (first + x) + y
  {
    Associate(first, a, b);
    Associate(first, x, y);
  }

  /** For every thread, sender or receiver or both, in every run: what its calls return, in order, is what the
      single steps decided for it (with a call still to return accounted for). */
  lemma {:induction false} EachCallReturns<M>(c: Config, acts: seq<Action<M>>, t: Tid)
    ensures ResultsOf(Ops(c, acts), t) == ReturnsTo(c, acts, t) + InHand(Exec(c, Init(c), acts), t)
  {
    if acts != [] {
      var before, a := acts[..|acts| - 1], acts[|acts| - 1];
      var s := Exec(c, Init(c), before);
      EachCallReturns(c, before, t);
      EmitsAllowed(c, s, a);
      ResultsMore(Ops(c, before), Emits(s, a), t);
      DecidesOrReturns(c, s, a, t);
      var decided, returned := DecidedFor(Emits(s, a), t), Returns(s, a, t);
      Shift(ReturnsTo(c, before, t), InHand(s, t), decided, returned, InHand(Step(c, s, a), t));
    }
  }
}
