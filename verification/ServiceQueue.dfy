/** The service loop over the real queue. The lifecycle treats its queue as a sequence on which every call is
    one step. Here a handler service runs on Queue_Send and Queue_Receive statement by statement, with any
    number of threads that notify it, and every such run is shown to be a run of the lifecycle. */
module ServiceQueue {
  import opened Base
  import opened RingBuffer
  import opened Pthread
  import opened QueueSteps
  import opened QueueCalls
  import QueueWakeups
  import L = Lifecycle

  type Event = L.ServiceEvent

  // ---------------------------------------------------------------------------------------------
  // Services on the real queue
  // ---------------------------------------------------------------------------------------------

  /** A step of the queue's threads; a Service_Stop; the service's task `u` at its loop test after a stop. */
  datatype Move = Queue(a: Action<Event>) | Stop | LeaveLoop

  /** `acts` are the queue's steps so far, `life` the lifecycle's. A send that fails aborts the process. */
  datatype ServiceRun = ServiceRun(
    acts: seq<Action<Event>>, stopped: bool, left: bool, aborted: Option<Op<Event>>, life: seq<L.Action>)

  ghost function QueueOf(c: Config, r: ServiceRun): (s: State<Event>)
    ensures s.Ok() && s.ring.size == c.size
  {
    Exec(c, Init(c), r.acts)
  }

  /** A thread is inside a Queue_Send that is not decided yet. */
  predicate Sending(thread: Thread<Loc<Event>>) {
    match thread
    case Entering(SendEnter(_)) => true
    case Holding(SendEnter(_)) => true
    case _ => false
  }

  ghost predicate NoneSending(s: State<Event>) {
    forall t :: 0 <= t < |s.mon.threads| ==> !Sending(s.mon.threads[t])
  }

  /** The lifecycle's step for a decided call. */
  function StepOf(op: Op<Event>): L.Action {
    match op
    case Put(_, e) => L.Notify(e, true)
    case Refused(_, e) => L.Notify(e, true)
    case LockFailed(_, e) => L.Notify(e, false)
    case Took(_, _, outcome) => L.Run(0, outcome.Some?)
  }

  predicate SendFails(op: Op<Event>) {
    op.Refused? || op.LockFailed?
  }

  /** Task `u` passes its loop test and calls Queue_Receive. */
  ghost predicate Begins(c: Config, s: State<Event>, a: Action<Event>, u: Tid) {
    a == CallReceive(u) && u in c.consumers && s.mon.IsOutside(u)
  }

  /** Its Queue_Receive returns, and the handler is called. */
  ghost predicate Handles(s: State<Event>, a: Action<Event>, u: Tid)
    requires s.Ok()
  {
    Returns(s, a, u) != [] && Returns(s, a, u)[0].Received?
  }

  /** The lifecycle's steps for a step of the queue: loop test, decided call, handler. */
  ghost function LifeOf(c: Config, s: State<Event>, a: Action<Event>, u: Tid): seq<L.Action>
    requires s.Ok()
  {
    (if Begins(c, s, a, u) then [L.Run(0, true)] else [])
    + (if Emits(s, a) != [] then [StepOf(Emits(s, a)[0])] else [])
    + (if Handles(s, a, u) then [L.Run(0, true)] else [])
  }

  /** A stopped service begins no receive, and Service_Notify sends nothing to it. Service_Notify and
      Service_Stop exclude each other. */
  ghost function Advance(c: Config, u: Tid, r: ServiceRun, m: Move): ServiceRun {
    var s := QueueOf(c, r);
    if r.aborted.Some? then r
    else match m
      case Stop =>
        if r.stopped || !NoneSending(s) then r else r.(stopped := true, life := r.life + [L.Stop])
      case LeaveLoop =>
        if !r.stopped || r.left || !s.mon.IsOutside(u) then r else r.(left := true, life := r.life + [L.Run(0, true)])
      case Queue(a) =>
        if r.stopped && (a.CallSend? || a == CallReceive(u)) then r
        else
          var ops := Emits(s, a);
          r.(acts := r.acts + [a], life := r.life + LifeOf(c, s, a, u),
             aborted := if ops != [] && SendFails(ops[0]) then Some(ops[0]) else None)
  }

  /** The service has been started and its setup hook has run. */
  function Started(): ServiceRun {
    ServiceRun([], false, false, None, [L.Start, L.Run(0, true)])
  }

  ghost function RunService(c: Config, u: Tid, moves: seq<Move>): ServiceRun {
    if moves == [] then Started() else Advance(c, u, RunService(c, u, moves[..|moves| - 1]), moves[|moves| - 1])
  }

  // ---------------------------------------------------------------------------------------------
  // The lifecycle's state
  // ---------------------------------------------------------------------------------------------

  function Messages(results: seq<Result<Event>>): seq<Option<Event>> {
    if results == [] then []
    else
      Messages(results[..|results| - 1])
      + if results[|results| - 1].Received? then [results[|results| - 1].message] else []
  }

  function Puts(ops: seq<Op<Event>>): seq<Event> {
    if ops == [] then []
    else Puts(ops[..|ops| - 1]) + if ops[|ops| - 1].Put? then [ops[|ops| - 1].msg] else []
  }

  /** Where the service's task stands while its thread is where it is in the queue's code. */
  function PointOf(thread: Thread<Loc<Event>>): L.Pc {
    match thread
    case Outside => L.LoopTest
    case Parked => L.Receiving
    case Entering(at) => if at.SendEnter? then L.LoopTest else L.Receiving
    case Holding(RecvExit(_, message, _)) => L.Handling(L.Outcome(message))
    case Holding(at) => if at.SendEnter? || at.SendSignal? || at.SendExit? then L.LoopTest else L.Receiving
  }

  function PointAt(s: State<Event>, u: Tid): L.Pc {
    if u < |s.mon.threads| then PointOf(s.mon.threads[u]) else L.LoopTest
  }

  /** One live task, at `pc`; these events queued, received by its loop and accepted. */
  ghost predicate Stands(
    x: L.State, state: L.RunState, pc: L.Pc, q: seq<Event>, receives: seq<Option<Event>>, accepted: seq<Event>)
  {
    && x.state == state && x.fault == None && x.queue == Some(q) && x.accepted == accepted
    && |x.tasks| == 1 && !x.tasks[0].dead && x.tasks[0].pc == pc && x.tasks[0].receives == receives
  }

  function AbortOf(op: Op<Event>, q: seq<Event>): L.Fault {
    if op.Refused? then L.QueueFull(q) else L.NoMutex
  }

  ghost function LifeState(lc: L.Config, r: ServiceRun): L.State {
    L.Exec(lc, L.Init(), r.life)
  }

  /** The service's state while it has not aborted. */
  ghost predicate FollowsAs(
    x: L.State, s: State<Event>, u: Tid, stopped: bool, left: bool, receives: seq<Option<Event>>, accepted: seq<Event>)
    requires s.Ok()
  {
    && (stopped ==> NoneSending(s))
    && (left ==> stopped && PointAt(s, u) == L.LoopTest)
    && Stands(x, if stopped then L.Stopped else L.Running, if left then L.Teardown else PointAt(s, u),
              s.ring.Window(), receives, accepted)
  }

  /** The lifecycle has the same events queued and accepted, its loop has the receives that were decided for
      the task, and it stands where the task's thread does. After an abort it has the abort's fault. */
  ghost predicate Follows(lc: L.Config, c: Config, u: Tid, r: ServiceRun) {
    var s, ops, x := QueueOf(c, r), Ops(c, r.acts), LifeState(lc, r);
    if r.aborted.Some? then
      SendFails(r.aborted.value) && x.fault == Some(AbortOf(r.aborted.value, s.ring.Window()))
    else
      FollowsAs(x, s, u, r.stopped, r.left, Messages(ResultsOf(ops, u)), Puts(ops))
  }

  // ---------------------------------------------------------------------------------------------
  // One step of the lifecycle
  // ---------------------------------------------------------------------------------------------

  lemma ExecOne(lc: L.Config, x: L.State, a: L.Action)
    ensures L.Exec(lc, x, [a]) == L.Step(lc, x, a)
  {
    assert [a][..0] == [];
  }

  /** The steps of a task of a handler service that do not involve the queue. */
  lemma OwnStep(
    lc: L.Config, x: L.State, state: L.RunState, pc: L.Pc,
    q: seq<Event>, receives: seq<Option<Event>>, accepted: seq<Event>, next: L.Pc)
    requires Stands(x, state, pc, q, receives, accepted)
    requires (pc.LoopTest? && next == (if state == L.Running then L.Receiving else L.Teardown))
          || (pc.Handling? && next == L.LoopTest)
    ensures Stands(L.Exec(lc, x, [L.Run(0, true)]), state, next, q, receives, accepted)
  {
    ExecOne(lc, x, L.Run(0, true));
  }

  lemma StopStep(lc: L.Config, x: L.State, pc: L.Pc, q: seq<Event>, receives: seq<Option<Event>>, accepted: seq<Event>)
    requires Stands(x, L.Running, pc, q, receives, accepted)
    ensures Stands(L.Exec(lc, x, [L.Stop]), L.Stopped, pc, q, receives, accepted)
  {
    ExecOne(lc, x, L.Stop);
  }

  lemma PutStep(
    lc: L.Config, x: L.State, pc: L.Pc,
    q: seq<Event>, receives: seq<Option<Event>>, accepted: seq<Event>, op: Op<Event>)
    requires Stands(x, L.Running, pc, q, receives, accepted)
    requires op.Put? && Allowed(L.SERVICE_QUEUE_SIZE, q, op)
    ensures Stands(L.Exec(lc, x, [StepOf(op)]), L.Running, pc, Apply(q, op), receives, accepted + [op.msg])
  {
    ExecOne(lc, x, StepOf(op));
  }

  lemma FailStep(
    lc: L.Config, x: L.State, pc: L.Pc,
    q: seq<Event>, receives: seq<Option<Event>>, accepted: seq<Event>, op: Op<Event>)
    requires Stands(x, L.Running, pc, q, receives, accepted)
    requires SendFails(op) && Allowed(L.SERVICE_QUEUE_SIZE, q, op)
    ensures L.Exec(lc, x, [StepOf(op)]).fault == Some(AbortOf(op, q))
  {
    ExecOne(lc, x, StepOf(op));
  }

  lemma TakeStep(
    lc: L.Config, x: L.State, state: L.RunState, q: seq<Event>,
    receives: seq<Option<Event>>, accepted: seq<Event>, op: Op<Event>)
    requires Stands(x, state, L.Receiving, q, receives, accepted)
    requires op.Took? && Allowed(L.SERVICE_QUEUE_SIZE, q, op)
    ensures Stands(L.Exec(lc, x, [StepOf(op)]), state, L.Handling(L.Outcome(op.outcome)), Apply(q, op),
                   receives + [op.outcome], accepted)
  {
    ExecOne(lc, x, StepOf(op));
  }

  // ---------------------------------------------------------------------------------------------
  // One step of the queue
  // ---------------------------------------------------------------------------------------------

  /** How a step of the queue moves the task. */
  ghost predicate Moves(c: Config, s: State<Event>, a: Action<Event>, u: Tid)
    requires s.Ok()
  {
    var p, p', ops := PointAt(s, u), PointAt(Step(c, s, a), u), Emits(s, a);
    if Begins(c, s, a, u) then
      p == L.LoopTest && p' == L.Receiving && ops == [] && !Handles(s, a, u)
    else if ops != [] && ops[0].Took? then
      && ops[0].t == u && p == L.Receiving
      && p' == if Handles(s, a, u) then L.LoopTest else L.Handling(L.Outcome(ops[0].outcome))
    else if Handles(s, a, u) then
      ops == [] && p.Handling? && p' == L.LoopTest
    else
      p' == p
  }

  lemma RunMoves(c: Config, s: State<Event>, t: Tid, u: Tid)
    requires c.consumers == {u} && QueueWakeups.Roles(c, s) && s.mon.Holds(t)
    ensures Moves(c, s, Run(t), u)
  {
    assert QueueWakeups.RoleKept(c, s, t);
  }

  lemma OthersMove(c: Config, s: State<Event>, a: Action<Event>, u: Tid)
    requires c.consumers == {u} && QueueWakeups.Roles(c, s)
    requires !a.Run? && !a.LockFails?
    ensures Moves(c, s, a, u)
  {
  }

  lemma LockFailsMoves(c: Config, s: State<Event>, t: Tid, u: Tid)
    requires c.consumers == {u} && QueueWakeups.Roles(c, s)
    ensures Moves(c, s, LockFails(t), u)
  {
    assert s.mon.IsEntering(t) ==> QueueWakeups.RoleKept(c, s, t);
  }

  lemma QueueMoves(c: Config, s: State<Event>, a: Action<Event>, u: Tid)
    requires c.consumers == {u} && QueueWakeups.Roles(c, s)
    ensures Moves(c, s, a, u)
  {
    if a.Run? && s.mon.Holds(a.t) {
      RunMoves(c, s, a.t, u);
    } else if a.LockFails? {
      LockFailsMoves(c, s, a.t, u);
    } else if !a.Run? {
      OthersMove(c, s, a, u);
    }
  }

  /** No step but a call takes a thread into an undecided send. */
  lemma StillNoneSending(c: Config, s: State<Event>, a: Action<Event>)
    requires s.Ok() && NoneSending(s) && !a.CallSend?
    ensures NoneSending(Step(c, s, a))
  {
    var r := Step(c, s, a);
    forall t | 0 <= t < |r.mon.threads|
      ensures !Sending(r.mon.threads[t])
    {
      assert !Sending(s.mon.threads[t]);
    }
  }

  lemma NoNewSends(c: Config, s: State<Event>, a: Action<Event>)
    requires s.Ok() && NoneSending(s) && !a.CallSend?
    ensures NoneSending(Step(c, s, a))
    ensures Emits(s, a) != [] ==> Emits(s, a)[0].Took?
  {
    StillNoneSending(c, s, a);
    if a.Run? && s.mon.Holds(a.t) {
      assert !Sending(s.mon.threads[a.t]);
    } else if a.LockFails? && s.mon.IsEntering(a.t) {
      assert !Sending(s.mon.threads[a.t]);
    }
  }

  lemma MessagesMore(results: seq<Result<Event>>, more: seq<Result<Event>>)
    requires |more| <= 1
    ensures Messages(results + more)
         == Messages(results) + if more != [] && more[0].Received? then [more[0].message] else []
  {
    if more == [] {
      assert results + more == results;
    } else {
      assert more == [more[0]] && (results + more)[..|results|] == results;
    }
  }

  lemma PutsMore(all: seq<Op<Event>>, ops: seq<Op<Event>>)
    requires |ops| <= 1
    ensures Puts(all + ops) == Puts(all) + if ops != [] && ops[0].Put? then [ops[0].msg] else []
  {
    if ops == [] {
      assert all + ops == all;
    } else {
      assert ops == [ops[0]] && (all + ops)[..|all|] == all;
    }
  }

  /** What a step adds to the task's receives and to the accepted events. */
  lemma Recorded(c: Config, acts: seq<Action<Event>>, a: Action<Event>, u: Tid)
    ensures var s, ops := Exec(c, Init(c), acts), Emits(Exec(c, Init(c), acts), a);
            && |ops| <= 1
            && Messages(ResultsOf(Ops(c, acts + [a]), u))
               == Messages(ResultsOf(Ops(c, acts), u))
                + (if ops != [] && ops[0].t == u && ops[0].Took? then [ops[0].outcome] else [])
            && Puts(Ops(c, acts + [a])) == Puts(Ops(c, acts)) + if ops != [] && ops[0].Put? then [ops[0].msg] else []
  {
    var s := Exec(c, Init(c), acts);
    var ops := Emits(s, a);
    OpsSnoc(c, acts, a);
    EmitsAllowed(c, s, a);
    ResultsMore(Ops(c, acts), ops, u);
    MessagesMore(ResultsOf(Ops(c, acts), u), DecidedFor(ops, u));
    PutsMore(Ops(c, acts), ops);
  }

  // ---------------------------------------------------------------------------------------------
  // The refinement
  // ---------------------------------------------------------------------------------------------

  function WhenTook(ops: seq<Op<Event>>): seq<Option<Event>> {
    if ops != [] && ops[0].Took? then [ops[0].outcome] else []
  }

  function WhenPut(ops: seq<Op<Event>>): seq<Event> {
    if ops != [] && ops[0].Put? then [ops[0].msg] else []
  }

  lemma TakeAndHandle(
    lc: L.Config, x: L.State, state: L.RunState, q: seq<Event>,
    receives: seq<Option<Event>>, accepted: seq<Event>, op: Op<Event>)
    requires Stands(x, state, L.Receiving, q, receives, accepted)
    requires op.Took? && Allowed(L.SERVICE_QUEUE_SIZE, q, op)
    ensures Stands(L.Exec(lc, x, [StepOf(op)] + [L.Run(0, true)]), state, L.LoopTest, Apply(q, op),
                   receives + [op.outcome], accepted)
  {
    TakeStep(lc, x, state, q, receives, accepted, op);
    var y, q', receives' := L.Exec(lc, x, [StepOf(op)]), Apply(q, op), receives + [op.outcome];
    OwnStep(lc, y, state, L.Handling(L.Outcome(op.outcome)), q', receives', accepted, L.LoopTest);
    L.ExecAppend(lc, x, [StepOf(op)], [L.Run(0, true)]);
  }

  /** A step of the queue in which no send fails, as the lifecycle sees it. */
  lemma QueueStepStands(
    lc: L.Config, c: Config, u: Tid, s: State<Event>, a: Action<Event>,
    x: L.State, state: L.RunState, receives: seq<Option<Event>>, accepted: seq<Event>)
    requires s.Ok() && s.ring.size == L.SERVICE_QUEUE_SIZE && Moves(c, s, a, u)
    requires Stands(x, state, PointAt(s, u), s.ring.Window(), receives, accepted)
    requires Begins(c, s, a, u) ==> state == L.Running
    requires Emits(s, a) != [] ==> Emits(s, a)[0].Took? || (Emits(s, a)[0].Put? && state == L.Running)
    ensures Stands(L.Exec(lc, x, LifeOf(c, s, a, u)), state, PointAt(Step(c, s, a), u), Step(c, s, a).ring.Window(),
                   receives + WhenTook(Emits(s, a)), accepted + WhenPut(Emits(s, a)))
  {
    EmitsAllowed(c, s, a);
    var ops, q := Emits(s, a), s.ring.Window();
    assert receives + [] == receives && accepted + [] == accepted;
    if Begins(c, s, a, u) {
      assert LifeOf(c, s, a, u) == [L.Run(0, true)];
      OwnStep(lc, x, state, L.LoopTest, q, receives, accepted, L.Receiving);
    } else if ops != [] && ops[0].Took? {
      if Handles(s, a, u) {
        assert LifeOf(c, s, a, u) == [StepOf(ops[0])] + [L.Run(0, true)];
        TakeAndHandle(lc, x, state, q, receives, accepted, ops[0]);
      } else {
        assert LifeOf(c, s, a, u) == [StepOf(ops[0])];
        TakeStep(lc, x, state, q, receives, accepted, ops[0]);
      }
    } else if Handles(s, a, u) {
      assert LifeOf(c, s, a, u) == [L.Run(0, true)];
      OwnStep(lc, x, state, PointAt(s, u), q, receives, accepted, L.LoopTest);
    } else if ops != [] {
      assert LifeOf(c, s, a, u) == [StepOf(ops[0])];
      PutStep(lc, x, PointAt(s, u), q, receives, accepted, ops[0]);
    } else {
      assert LifeOf(c, s, a, u) == [];
    }
  }

  /** After it has left its loop, the task is not concerned by the queue's steps. */
  lemma NothingAfterLeaving(c: Config, u: Tid, s: State<Event>, a: Action<Event>)
    requires s.Ok() && NoneSending(s) && !a.CallSend? && a != CallReceive(u)
    requires PointAt(s, u) == L.LoopTest && Moves(c, s, a, u)
    ensures Emits(s, a) == [] && LifeOf(c, s, a, u) == [] && PointAt(Step(c, s, a), u) == L.LoopTest
    ensures Step(c, s, a).ring.Window() == s.ring.Window()
  {
    NoNewSends(c, s, a);
    EmitsAllowed(c, s, a);
  }

  lemma FailedSend(lc: L.Config, c: Config, u: Tid, s: State<Event>, a: Action<Event>, x: L.State, pc: L.Pc,
                   receives: seq<Option<Event>>, accepted: seq<Event>)
    requires s.Ok() && s.ring.size == L.SERVICE_QUEUE_SIZE && Moves(c, s, a, u)
    requires Stands(x, L.Running, pc, s.ring.Window(), receives, accepted)
    requires Emits(s, a) != [] && SendFails(Emits(s, a)[0])
    ensures L.Exec(lc, x, LifeOf(c, s, a, u)).fault == Some(AbortOf(Emits(s, a)[0], Step(c, s, a).ring.Window()))
  {
    EmitsAllowed(c, s, a);
    var op := Emits(s, a)[0];
    assert LifeOf(c, s, a, u) == [StepOf(op)];
    FailStep(lc, x, pc, s.ring.Window(), receives, accepted, op);
  }

  /** What a step of the queue makes of the run's parts. */
  lemma QueueAdvances(lc: L.Config, c: Config, u: Tid, r: ServiceRun, a: Action<Event>)
    requires r.aborted.None? && Advance(c, u, r, Queue(a)) != r && Moves(c, QueueOf(c, r), a, u)
    ensures var s, r' := QueueOf(c, r), Advance(c, u, r, Queue(a));
            var ops := Emits(s, a);
            && QueueOf(c, r') == Step(c, s, a) && r'.stopped == r.stopped && r'.left == r.left
            && r'.aborted == (if ops != [] && SendFails(ops[0]) then Some(ops[0]) else None)
            && LifeState(lc, r') == L.Exec(lc, LifeState(lc, r), LifeOf(c, s, a, u))
            && Messages(ResultsOf(Ops(c, r'.acts), u)) == Messages(ResultsOf(Ops(c, r.acts), u)) + WhenTook(ops)
            && Puts(Ops(c, r'.acts)) == Puts(Ops(c, r.acts)) + WhenPut(ops)
  {
    OpsSnoc(c, r.acts, a);
    Recorded(c, r.acts, a, u);
    L.ExecAppend(lc, L.Init(), r.life, LifeOf(c, QueueOf(c, r), a, u));
  }

  lemma LeftFollows(
    lc: L.Config, c: Config, u: Tid, s: State<Event>, a: Action<Event>,
    x: L.State, receives: seq<Option<Event>>, accepted: seq<Event>)
    requires s.Ok() && FollowsAs(x, s, u, true, true, receives, accepted)
    requires !a.CallSend? && a != CallReceive(u) && Moves(c, s, a, u)
    ensures Emits(s, a) == []
    ensures FollowsAs(L.Exec(lc, x, LifeOf(c, s, a, u)), Step(c, s, a), u, true, true,
                      receives + WhenTook(Emits(s, a)), accepted + WhenPut(Emits(s, a)))
  {
    NoNewSends(c, s, a);
    NothingAfterLeaving(c, u, s, a);
    assert receives + [] == receives && accepted + [] == accepted;
  }

  lemma LoopFollows(
    lc: L.Config, c: Config, u: Tid, s: State<Event>, a: Action<Event>,
    x: L.State, stopped: bool, receives: seq<Option<Event>>, accepted: seq<Event>)
    requires s.Ok() && s.ring.size == L.SERVICE_QUEUE_SIZE && FollowsAs(x, s, u, stopped, false, receives, accepted)
    requires (stopped ==> !a.CallSend? && a != CallReceive(u)) && Moves(c, s, a, u)
    requires Emits(s, a) != [] ==> !SendFails(Emits(s, a)[0])
    ensures FollowsAs(L.Exec(lc, x, LifeOf(c, s, a, u)), Step(c, s, a), u, stopped, false,
                      receives + WhenTook(Emits(s, a)), accepted + WhenPut(Emits(s, a)))
  {
    if stopped {
      NoNewSends(c, s, a);
    }
    QueueStepStands(lc, c, u, s, a, x, if stopped then L.Stopped else L.Running, receives, accepted);
  }

  /** Only a running service can see a send fail. */
  lemma FailureFollows(
    lc: L.Config, c: Config, u: Tid, s: State<Event>, a: Action<Event>,
    x: L.State, stopped: bool, left: bool, receives: seq<Option<Event>>, accepted: seq<Event>)
    requires s.Ok() && s.ring.size == L.SERVICE_QUEUE_SIZE && FollowsAs(x, s, u, stopped, left, receives, accepted)
    requires (stopped ==> !a.CallSend?) && Moves(c, s, a, u)
    requires Emits(s, a) != [] && SendFails(Emits(s, a)[0])
    ensures L.Exec(lc, x, LifeOf(c, s, a, u)).fault == Some(AbortOf(Emits(s, a)[0], Step(c, s, a).ring.Window()))
  {
    if stopped {
      NoNewSends(c, s, a);
    }
    FailedSend(lc, c, u, s, a, x, PointAt(s, u), receives, accepted);
  }

  lemma QueueFollows(lc: L.Config, c: Config, u: Tid, r: ServiceRun, a: Action<Event>)
    requires !lc.hasMain && c.size == L.SERVICE_QUEUE_SIZE && c.consumers == {u}
    requires Follows(lc, c, u, r) && r.aborted.None? && Advance(c, u, r, Queue(a)) != r
    ensures Follows(lc, c, u, Advance(c, u, r, Queue(a)))
  {
    var s, x, ops := QueueOf(c, r), LifeState(lc, r), Emits(QueueOf(c, r), a);
    var receives, accepted := Messages(ResultsOf(Ops(c, r.acts), u)), Puts(Ops(c, r.acts));
    QueueWakeups.RolesAlways(c, r.acts);
    QueueMoves(c, s, a, u);
    QueueAdvances(lc, c, u, r, a);
    if ops != [] && SendFails(ops[0]) {
      FailureFollows(lc, c, u, s, a, x, r.stopped, r.left, receives, accepted);
    } else if r.left {
      LeftFollows(lc, c, u, s, a, x, receives, accepted);
    } else {
      LoopFollows(lc, c, u, s, a, x, r.stopped, receives, accepted);
    }
  }

  lemma StopFollows(lc: L.Config, c: Config, u: Tid, r: ServiceRun)
    requires Follows(lc, c, u, r)
    ensures Follows(lc, c, u, Advance(c, u, r, Stop))
  {
    var s := QueueOf(c, r);
    if Advance(c, u, r, Stop) != r {
      StopStep(lc, LifeState(lc, r), PointAt(s, u), s.ring.Window(),
               Messages(ResultsOf(Ops(c, r.acts), u)), Puts(Ops(c, r.acts)));
      L.ExecAppend(lc, L.Init(), r.life, [L.Stop]);
    }
  }

  lemma LeaveFollows(lc: L.Config, c: Config, u: Tid, r: ServiceRun)
    requires Follows(lc, c, u, r)
    ensures Follows(lc, c, u, Advance(c, u, r, LeaveLoop))
  {
    var s := QueueOf(c, r);
    if Advance(c, u, r, LeaveLoop) != r {
      OwnStep(lc, LifeState(lc, r), L.Stopped, L.LoopTest, s.ring.Window(),
              Messages(ResultsOf(Ops(c, r.acts), u)), Puts(Ops(c, r.acts)), L.Teardown);
      L.ExecAppend(lc, L.Init(), r.life, [L.Run(0, true)]);
    }
  }

  lemma StartFollows(lc: L.Config, c: Config, u: Tid)
    requires !lc.hasMain
    ensures Follows(lc, c, u, Started())
  {
    var x := L.StartService(L.Init());
    L.ExecAppend(lc, L.Init(), [L.Start], [L.Run(0, true)]);
    ExecOne(lc, L.Init(), L.Start);
    ExecOne(lc, x, L.Run(0, true));
    assert [L.Start] + [L.Run(0, true)] == [L.Start, L.Run(0, true)];
  }

  /** Every run of a handler service on the real queue, in which one task receives and any number of threads
      notify it, with any timeouts and wake-ups, a stop at any moment and aborts by failed sends, is a run of
      the lifecycle: same events queued and accepted, the results decided for the task as its loop's receives,
      and the task where its thread is. */
  lemma {:induction false} ServiceLoopRefines(lc: L.Config, c: Config, u: Tid, moves: seq<Move>)
    requires !lc.hasMain && c.size == L.SERVICE_QUEUE_SIZE && c.consumers == {u}
    ensures Follows(lc, c, u, RunService(c, u, moves))
  {
    if moves == [] {
      StartFollows(lc, c, u);
    } else {
      var r, m := RunService(c, u, moves[..|moves| - 1]), moves[|moves| - 1];
      ServiceLoopRefines(lc, c, u, moves[..|moves| - 1]);
      if r.aborted.None? && Advance(c, u, r, m) != r {
        match m
        case Stop => StopFollows(lc, c, u, r);
        case LeaveLoop => LeaveFollows(lc, c, u, r);
        case Queue(a) => QueueFollows(lc, c, u, r, a);
      }
    }
  }

  /** What the loop has handed to the handler is exactly what the task's Queue_Receive calls have returned. */
  lemma LoopHandlesReturns(lc: L.Config, c: Config, u: Tid, moves: seq<Move>)
    requires !lc.hasMain && c.size == L.SERVICE_QUEUE_SIZE && c.consumers == {u}
    ensures var r := RunService(c, u, moves);
            r.aborted.None? ==>
              && |LifeState(lc, r).tasks| == 1
              && L.Handled(LifeState(lc, r).tasks[0]) == Messages(ReturnsTo(c, r.acts, u))
  {
    var r := RunService(c, u, moves);
    ServiceLoopRefines(lc, c, u, moves);
    EachCallReturns(c, r.acts, u);
    MessagesMore(ReturnsTo(c, r.acts, u), InHand(QueueOf(c, r), u));
    if r.aborted.None? && !r.left {
      HandlingInHand(QueueOf(c, r), u);
    } else {
      assert r.aborted.None? ==> PointAt(QueueOf(c, r), u) == L.LoopTest;
      HandlingInHand(QueueOf(c, r), u);
    }
  }

  /** The task is at its handler exactly if its thread has a receive's result in hand. */
  lemma HandlingInHand(s: State<Event>, u: Tid)
    requires s.Ok()
    ensures PointAt(s, u).Handling? <==> InHand(s, u) != [] && InHand(s, u)[0].Received?
  {
  }

  /** The first send that fails is the lifecycle's abort: with the queued events logged when the queue was
      full, and with none when the mutex failed. */
  lemma RefusalAborts(lc: L.Config, c: Config, u: Tid, moves: seq<Move>, a: Action<Event>, op: Op<Event>)
    requires !lc.hasMain && c.size == L.SERVICE_QUEUE_SIZE && c.consumers == {u}
    requires var r := RunService(c, u, moves);
             r.aborted.None? && Advance(c, u, r, Queue(a)) != r && Emits(QueueOf(c, r), a) == [op] && SendFails(op)
    ensures var r := RunService(c, u, moves);
            LifeState(lc, Advance(c, u, r, Queue(a))).fault == Some(AbortOf(op, QueueOf(c, r).ring.Window()))
  {
    var r := RunService(c, u, moves);
    ServiceLoopRefines(lc, c, u, moves);
    QueueFollows(lc, c, u, r, a);
    OpsSnoc(c, r.acts, a);
    EmitsAllowed(c, QueueOf(c, r), a);
  }

  // ---------------------------------------------------------------------------------------------
  // After a stop
  // ---------------------------------------------------------------------------------------------

  /** The receives decided for the task, and the one it is in. */
  ghost function ReceiveBudget(c: Config, u: Tid, r: ServiceRun): nat {
    |Messages(ResultsOf(Ops(c, r.acts), u))| + if PointAt(QueueOf(c, r), u).Receiving? then 1 else 0
  }

  lemma StoppedStep(c: Config, u: Tid, r: ServiceRun, m: Move)
    requires c.consumers == {u} && r.stopped
    ensures Advance(c, u, r, m).stopped && ReceiveBudget(c, u, Advance(c, u, r, m)) == ReceiveBudget(c, u, r)
  {
    if m.Queue? && Advance(c, u, r, m) != r {
      QueueWakeups.RolesAlways(c, r.acts);
      QueueMoves(c, QueueOf(c, r), m.a, u);
      OpsSnoc(c, r.acts, m.a);
      Recorded(c, r.acts, m.a, u);
    }
  }

  lemma RunServiceSnoc(c: Config, u: Tid, moves: seq<Move>, m: Move)
    ensures RunService(c, u, moves + [m]) == Advance(c, u, RunService(c, u, moves), m)
  {
    assert (moves + [m])[..|moves|] == moves;
  }

  /** Once the service is stopped, its task is decided exactly the receive it is in, if any, and no other. */
  lemma {:induction false} NoReceiveAfterStop(c: Config, u: Tid, before: seq<Move>, after: seq<Move>)
    requires c.consumers == {u} && RunService(c, u, before).stopped
    ensures RunService(c, u, before + after).stopped
    ensures ReceiveBudget(c, u, RunService(c, u, before + after)) == ReceiveBudget(c, u, RunService(c, u, before))
  {
    if after == [] {
      assert before + after == before;
    } else {
      var first, m := after[..|after| - 1], after[|after| - 1];
      NoReceiveAfterStop(c, u, before, first);
      assert before + after == before + first + [m];
      RunServiceSnoc(c, u, before + first, m);
      StoppedStep(c, u, RunService(c, u, before + first), m);
    }
  }
}
