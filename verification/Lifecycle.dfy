/** The lifecycle of a service (main/src/core/service.c) as steps of its tasks and its callers.

    Service_Start, Service_Stop and Service_Notify are one step each; Service_Main is one step for each
    statement that touches the service. Several tasks can exist: Start makes a new one whenever the
    state is Stopped, whether or not an older task has finished. */
module Lifecycle {
  import opened Base

  const SERVICE_QUEUE_SIZE := 20
  const EVENT_TIMEOUT: uint32 := 0xafaf

  datatype ServiceEvent = ServiceEvent(event: uint32, payload: uint32)

  /** What the loop hands to the handler when Queue_Receive has not filled the event in. */
  const TIMEOUT_EVENT := ServiceEvent(EVENT_TIMEOUT, 0)

  datatype RunState = Stopped | Waiting | Running

  /** Which of the optional members of the service are non-NULL. */
  datatype Config = Config(hasSetup: bool, hasMain: bool, hasHandler: bool, hasTeardown: bool, hasSemaphore: bool)

  /** The next statement of Service_Main. */
  datatype Pc =
    | Setup | InMain | LoopTest | Receiving | Handling(event: ServiceEvent)
    | Teardown | Give | DeleteTask | DeleteQueue | Sleeping

  /** The calls Service_Main makes that others can see. */
  datatype Hook = SetupHook | MainCall | HandlerCall(event: ServiceEvent) | TeardownHook | TerminationGive

  /** `receives` lists the outcomes of the loop's Queue_Receive calls: None when the call failed.
      `cancelled` is a pending pthread_cancel; it kills the thread later, at some cancellation point. */
  datatype Task = Task(pc: Pc, hooks: seq<Hook>, receives: seq<Option<ServiceEvent>>, cancelled: bool, dead: bool) {
    predicate Finished() {
      dead || pc.Sleeping?
    }
  }

  /** Why the process aborted. */
  datatype Fault = QueueFull(drained: seq<ServiceEvent>) | NoMutex | NullQueue | NullSemaphore

  /** `queue` is None when the pointer is NULL. `accepted` and `received` list the events that went into
      and came out of the current queue; `stops` counts the Stop calls that changed the state. The last
      task is the one `service->task` refers to. */
  datatype State = State(
    state: RunState, queue: Option<seq<ServiceEvent>>, tasks: seq<Task>, stops: nat,
    accepted: seq<ServiceEvent>, received: seq<ServiceEvent>, fault: Option<Fault>)

  datatype Action =
    | Start
    | Stop
    | Notify(event: ServiceEvent, locked: bool)  // `locked`: the queue's mutex can be obtained
    | Run(k: nat, ok: bool)                      // task k's next statement; `ok`: its receive is not timed out
    | Die(k: nat)                                // a pending cancellation takes effect

  function Init(): State {
    State(Stopped, None, [], 0, [], [], None)
  }

  function StartService(s: State): State {
    if s.state == Stopped then
      s.(state := Running, queue := Some([]), tasks := s.tasks + [Task(Setup, [], [], false, false)],
         accepted := [], received := [])
    else s
  }

  function StopService(s: State): State {
    if s.state == Stopped then s else s.(state := Stopped, stops := s.stops + 1)
  }

  /** A full queue is drained into the log before the process aborts; without the mutex nothing can be. */
  function NotifyService(s: State, e: ServiceEvent, locked: bool): State {
    if s.state == Stopped then s
    else if s.queue == None then s.(fault := Some(NullQueue))
    else if !locked then s.(fault := Some(NoMutex))
    else if |s.queue.value| == SERVICE_QUEUE_SIZE then
      s.(queue := Some([]), fault := Some(QueueFull(s.queue.value)))
    else s.(queue := Some(s.queue.value + [e]), accepted := s.accepted + [e])
  }

  function When(b: bool, h: Hook): seq<Hook> {
    if b then [h] else []
  }

  /** The task moves to `pc` after making the calls `hooks`. */
  function Move(t: Task, pc: Pc, hooks: seq<Hook>): Task {
    t.(pc := pc, hooks := t.hooks + hooks)
  }

  /** A task's own next statement, given whether it finds the service running. */
  function Advance(c: Config, t: Task, running: bool): Task {
    match t.pc
    case Setup => Move(t, if c.hasMain then InMain else LoopTest, When(c.hasSetup, SetupHook))
    case InMain => Move(t, Teardown, [MainCall])
    case LoopTest => Move(t, if running then Receiving else Teardown, [])
    case Receiving => t
    case Handling(e) => Move(t, LoopTest, When(c.hasHandler, HandlerCall(e)))
    case Teardown => Move(t, Give, When(c.hasTeardown, TeardownHook))
    case Give => Move(t, DeleteTask, [TerminationGive])
    case DeleteTask => Move(t, DeleteQueue, [])
    case DeleteQueue => Move(t, Sleeping, [])
    case Sleeping => t
  }

  /** The event the loop hands on after a receive. */
  function Outcome(got: Option<ServiceEvent>): ServiceEvent {
    match got
    case None => TIMEOUT_EVENT
    case Some(e) => e
  }

  function Receive(t: Task, got: Option<ServiceEvent>): Task {
    t.(pc := Handling(Outcome(got)), receives := t.receives + [got])
  }

  /** Task_Delete(service->task): cancels whichever task the service refers to now. */
  function CancelLast(tasks: seq<Task>): seq<Task>
    requires tasks != []
  {
    tasks[|tasks| - 1 := tasks[|tasks| - 1].(cancelled := true)]
  }

  function RunTask(c: Config, s: State, k: nat, ok: bool): State
    requires k < |s.tasks|
  {
    var t := s.tasks[k];
    if t.pc.Receiving? then
      if s.queue == None then
        s.(fault := Some(NullQueue))
      else if ok && s.queue.value != [] then
        s.(queue := Some(s.queue.value[1..]), received := s.received + [s.queue.value[0]],
           tasks := s.tasks[k := Receive(t, Some(s.queue.value[0]))])
      else
        s.(tasks := s.tasks[k := Receive(t, None)])
    else if t.pc.Give? && !c.hasSemaphore then
      s.(fault := Some(NullSemaphore))
    else
      var tasks := if t.pc.DeleteTask? then CancelLast(s.tasks) else s.tasks;
      s.(tasks := tasks[k := Advance(c, tasks[k], s.state == Running)],
         queue := if t.pc.DeleteQueue? then None else s.queue)
  }

  function Step(c: Config, s: State, a: Action): State {
    if s.fault.Some? then s
    else match a
      case Start => StartService(s)
      case Stop => StopService(s)
      case Notify(e, locked) => NotifyService(s, e, locked)
      case Run(k, ok) => if k < |s.tasks| && !s.tasks[k].dead then RunTask(c, s, k, ok) else s
      case Die(k) =>
        if k < |s.tasks| && s.tasks[k].cancelled && !s.tasks[k].pc.DeleteQueue? then
          s.(tasks := s.tasks[k := s.tasks[k].(dead := true)])
        else s
  }

  function Exec(c: Config, s: State, acts: seq<Action>): State {
    if acts == [] then s else Step(c, Exec(c, s, acts[..|acts| - 1]), acts[|acts| - 1])
  }

  lemma {:induction false} ExecAppend(c: Config, s: State, first: seq<Action>, next: seq<Action>)
    ensures Exec(c, s, first + next) == Exec(c, Exec(c, s, first), next)
  {
    if next == [] {
      assert first + next == first;
    } else {
      var init, last := next[..|next| - 1], next[|next| - 1];
      ExecAppend(c, s, first, init);
      assert first + next == first + init + [last];
      ExecSnoc(c, s, first + init, last);
    }
  }

  lemma ExecSnoc(c: Config, s: State, acts: seq<Action>, a: Action)
    ensures Exec(c, s, acts + [a]) == Step(c, Exec(c, s, acts), a)
  {
    assert (acts + [a])[..|acts|] == acts;
  }

  // ---------------------------------------------------------------------------------------------
  // Hooks in order, one handler call for each receive
  // ---------------------------------------------------------------------------------------------

  /** How far Service_Main has come. */
  function Stage(pc: Pc): nat {
    match pc
    case Setup => 0
    case InMain => 1
    case LoopTest => 1
    case Receiving => 1
    case Handling(_) => 1
    case Teardown => 2
    case Give => 3
    case DeleteTask => 4
    case DeleteQueue => 5
    case Sleeping => 6
  }

  predicate InLoop(pc: Pc) {
    pc.LoopTest? || pc.Receiving? || pc.Handling?
  }

  /** The handler calls that a list of receives asks for. */
  function Calls(receives: seq<Option<ServiceEvent>>): seq<Hook> {
    if receives == [] then [] else Calls(receives[..|receives| - 1]) + [HandlerCall(Outcome(receives[|receives| - 1]))]
  }

  /** The receives whose event has been handed over: all but one still at the call. */
  function Handled(t: Task): seq<Option<ServiceEvent>> {
    if t.pc.Handling? && t.receives != [] then t.receives[..|t.receives| - 1] else t.receives
  }

  /** What a task has called before, in and after its body by the time it is where it is. */
  function Before(c: Config, pc: Pc): seq<Hook> {
    When(c.hasSetup && Stage(pc) > 0, SetupHook)
  }

  function During(c: Config, t: Task): seq<Hook> {
    if c.hasMain then When(Stage(t.pc) > 1, MainCall)
    else if c.hasHandler then Calls(Handled(t))
    else []
  }

  function After(c: Config, pc: Pc): seq<Hook> {
    if Stage(pc) <= 2 then []
    else if Stage(pc) == 3 then When(c.hasTeardown, TeardownHook)
    else When(c.hasTeardown, TeardownHook) + [TerminationGive]
  }

  function Script(c: Config, t: Task): seq<Hook> {
    Before(c, t.pc) + During(c, t) + After(c, t.pc)
  }

  ghost predicate OnScript(c: Config, t: Task) {
    && t.hooks == Script(c, t)
    && (t.pc.Handling? ==> t.receives != [] && t.pc.event == Outcome(t.receives[|t.receives| - 1]))
    && (InLoop(t.pc) ==> !c.hasMain)
    && (t.pc.InMain? ==> c.hasMain)
    && (t.pc.Setup? ==> t.receives == [])
  }

  ghost predicate AllOnScript(c: Config, s: State) {
    forall k :: 0 <= k < |s.tasks| ==> OnScript(c, s.tasks[k])
  }

  lemma ReceiveOnScript(c: Config, t: Task, got: Option<ServiceEvent>)
    requires OnScript(c, t) && t.pc.Receiving?
    ensures OnScript(c, Receive(t, got))
  {
    var r := Receive(t, got);
    assert r.receives[..|t.receives|] == t.receives;
    assert During(c, r) == During(c, t);
  }

  lemma HandlingOnScript(c: Config, t: Task, running: bool)
    requires OnScript(c, t) && t.pc.Handling?
    ensures OnScript(c, Advance(c, t, running))
  {
    var r, calls := Advance(c, t, running), When(c.hasHandler, HandlerCall(t.pc.event));
    HandlingDuring(c, t, r);
    assert Before(c, r.pc) == Before(c, t.pc) && After(c, r.pc) == [] && After(c, t.pc) == [];
    Attach(Before(c, t.pc), During(c, t), calls);
    Attach(Before(c, t.pc) + During(c, t), [], calls);
    Attach(Before(c, t.pc), During(c, r), []);
  }

  lemma HandlingDuring(c: Config, t: Task, r: Task)
    requires OnScript(c, t) && t.pc.Handling? && r.pc == LoopTest && r.receives == t.receives
    ensures During(c, r) == During(c, t) + When(c.hasHandler, HandlerCall(t.pc.event))
  {
  }

  lemma BodyOnScript(c: Config, t: Task, running: bool)
    requires OnScript(c, t) && (t.pc.Setup? || t.pc.InMain? || t.pc.LoopTest?)
    ensures OnScript(c, Advance(c, t, running))
  {
    var r := Advance(c, t, running);
    assert After(c, r.pc) == [] && After(c, t.pc) == [];
    if t.pc.LoopTest? {
      assert During(c, r) == During(c, t);
    } else {
      assert During(c, t) == [];
    }
  }

  lemma TailOnScript(c: Config, t: Task, running: bool)
    requires OnScript(c, t) && Stage(t.pc) > 1
    ensures OnScript(c, Advance(c, t, running))
  {
    var r := Advance(c, t, running);
    TailKeeps(c, t, running);
    AfterGrows(c, t, running);
    var calls := TailCalls(c, t.pc);
    Attach(Before(c, t.pc) + During(c, t), After(c, t.pc), calls);
  }

  lemma TailKeeps(c: Config, t: Task, running: bool)
    requires Stage(t.pc) > 1
    ensures var r := Advance(c, t, running);
            && During(c, r) == During(c, t) && Before(c, r.pc) == Before(c, t.pc)
            && Stage(r.pc) > 1 && r.receives == t.receives
  {
  }

  /** The calls of the cleanup's statements. */
  function TailCalls(c: Config, pc: Pc): seq<Hook> {
    if pc.Teardown? then When(c.hasTeardown, TeardownHook) else if pc.Give? then [TerminationGive] else []
  }

  lemma AfterGrows(c: Config, t: Task, running: bool)
    requires Stage(t.pc) > 1
    ensures var r := Advance(c, t, running);
            r.hooks == t.hooks + TailCalls(c, t.pc) && After(c, r.pc) == After(c, t.pc) + TailCalls(c, t.pc)
  {
  }

  lemma Attach(a: seq<Hook>, b: seq<Hook>, x: seq<Hook>)
    ensures a + b + x == a + (b + x)
    ensures a + b + [] == a + b && [] + x == x
  {
  }

  lemma AdvanceOnScript(c: Config, t: Task, running: bool)
    requires OnScript(c, t) && !t.pc.Receiving?
    ensures OnScript(c, Advance(c, t, running)) && OnScript(c, Advance(c, t.(cancelled := true), running))
  {
    var u := t.(cancelled := true);
    assert During(c, u) == During(c, t);
    if t.pc.Handling? {
      HandlingOnScript(c, t, running);
      HandlingOnScript(c, u, running);
    } else if Stage(t.pc) <= 1 {
      BodyOnScript(c, t, running);
      BodyOnScript(c, u, running);
    } else {
      TailOnScript(c, t, running);
      TailOnScript(c, u, running);
    }
  }

  lemma OnScriptRun(c: Config, s: State, k: nat, ok: bool)
    requires k < |s.tasks| && OnScript(c, s.tasks[k])
    ensures OnScript(c, RunTask(c, s, k, ok).tasks[k])
  {
    var t, r := s.tasks[k], RunTask(c, s, k, ok).tasks[k];
    if r != t {
      if t.pc.Receiving? {
        var got := ReceivedBy(c, s, k, ok);
        ReceiveOnScript(c, t, got);
      } else {
        AdvancedBy(c, s, k, ok);
        AdvanceOnScript(c, t, s.state == Running);
      }
    }
  }

  lemma ReceivedBy(c: Config, s: State, k: nat, ok: bool) returns (got: Option<ServiceEvent>)
    requires k < |s.tasks| && s.tasks[k].pc.Receiving? && RunTask(c, s, k, ok).tasks[k] != s.tasks[k]
    ensures RunTask(c, s, k, ok).tasks[k] == Receive(s.tasks[k], got)
  {
    got := if ok && s.queue.value != [] then Some(s.queue.value[0]) else None;
  }

  lemma AdvancedBy(c: Config, s: State, k: nat, ok: bool)
    requires k < |s.tasks| && !s.tasks[k].pc.Receiving? && RunTask(c, s, k, ok).tasks[k] != s.tasks[k]
    ensures var t, r := s.tasks[k], RunTask(c, s, k, ok).tasks[k];
            r == Advance(c, t, s.state == Running) || r == Advance(c, t.(cancelled := true), s.state == Running)
  {
  }

  lemma OnScriptAt(c: Config, s: State, a: Action, k: nat)
    requires k < |s.tasks| && OnScript(c, s.tasks[k])
    ensures k < |Step(c, s, a).tasks| && OnScript(c, Step(c, s, a).tasks[k])
  {
    if a.Run? && a.k == k {
      if Step(c, s, a) != s {
        OnScriptRun(c, s, k, a.ok);
      }
    } else {
      SameButFlags(c, s, a, k);
      FlagsDoNotMatter(c, s.tasks[k], Step(c, s, a).tasks[k]);
    }
  }

  /** A step adds at most one task, at its start. */
  lemma OnlyNewTask(c: Config, s: State, a: Action, k: nat)
    requires |s.tasks| <= k < |Step(c, s, a).tasks|
    ensures OnScript(c, Step(c, s, a).tasks[k])
  {
    assert Step(c, s, a).tasks[k] == Task(Setup, [], [], false, false);
  }

  lemma OnScriptStep(c: Config, s: State, a: Action)
    requires AllOnScript(c, s)
    ensures AllOnScript(c, Step(c, s, a))
  {
    var r := Step(c, s, a);
    forall k | 0 <= k < |r.tasks|
      ensures OnScript(c, r.tasks[k])
    {
      if k < |s.tasks| {
        OnScriptAt(c, s, a, k);
      } else {
        OnlyNewTask(c, s, a, k);
      }
    }
  }

  lemma FlagsDoNotMatter(c: Config, t: Task, u: Task)
    requires OnScript(c, t) && u == t.(cancelled := u.cancelled, dead := u.dead)
    ensures OnScript(c, u)
  {
    assert During(c, u) == During(c, t);
  }

  /** A step of anybody else changes at most a task's flags. */
  lemma SameButFlags(c: Config, s: State, a: Action, k: nat)
    requires k < |s.tasks| && (a.Run? ==> a.k != k)
    ensures |s.tasks| <= |Step(c, s, a).tasks|
    ensures var t := Step(c, s, a).tasks[k];
            t == s.tasks[k].(cancelled := t.cancelled, dead := t.dead)
  {
  }

  /** In every run, restarts included, each task makes exactly these calls, in this order: the setup hook;
      one handler call for each receive, with the received event or EVENT_TIMEOUT (or the service's own
      main); the teardown hook after the last of them; the termination give after that; each once. */
  lemma {:induction false} HooksInOrder(c: Config, acts: seq<Action>)
    ensures AllOnScript(c, Exec(c, Init(), acts))
  {
    if acts != [] {
      HooksInOrder(c, acts[..|acts| - 1]);
      OnScriptStep(c, Exec(c, Init(), acts[..|acts| - 1]), acts[|acts| - 1]);
    }
  }

  // ---------------------------------------------------------------------------------------------
  // Accounting: tasks, events
  // ---------------------------------------------------------------------------------------------

  ghost predicate Accounted(s: State) {
    && s.state != Waiting
    && |s.tasks| == s.stops + (if s.state == Running then 1 else 0)
    && (s.queue.Some? && (s.fault.Some? ==> !s.fault.value.QueueFull?) ==> s.accepted == s.received + s.queue.value)
    && (s.fault.Some? && s.fault.value.QueueFull? ==> s.accepted == s.received + s.fault.value.drained)
  }

  lemma AccountedRun(c: Config, s: State, k: nat, ok: bool)
    requires Accounted(s) && s.fault == None && k < |s.tasks|
    ensures Accounted(RunTask(c, s, k, ok))
  {
    if s.queue.Some? && s.queue.value != [] {
      var q := s.queue.value;
      assert s.received + q == s.received + [q[0]] + q[1..];
    }
  }

  lemma AccountedStep(c: Config, s: State, a: Action)
    requires Accounted(s)
    ensures Accounted(Step(c, s, a))
  {
    if a.Run? {
      if s.fault == None && a.k < |s.tasks| {
        AccountedRun(c, s, a.k, a.ok);
      }
    } else if a.Notify? && s.queue.Some? {
      assert s.received + (s.queue.value + [a.event]) == s.received + s.queue.value + [a.event];
    }
  }

  /** In every run: as many tasks were created as stops took effect, plus one while running; and what
      Notify accepted is what the loops received followed by what is queued (or, in the run where a
      Notify found the queue full, by what it logged before aborting). */
  lemma {:induction false} AccountedAlways(c: Config, acts: seq<Action>)
    ensures Accounted(Exec(c, Init(), acts))
  {
    if acts != [] {
      AccountedAlways(c, acts[..|acts| - 1]);
      AccountedStep(c, Exec(c, Init(), acts[..|acts| - 1]), acts[|acts| - 1]);
    }
  }

  // ---------------------------------------------------------------------------------------------
  // After a stop
  // ---------------------------------------------------------------------------------------------

  function HandlerCalls(hooks: seq<Hook>): nat {
    if hooks == [] then 0 else HandlerCalls(hooks[..|hooks| - 1]) + if hooks[|hooks| - 1].HandlerCall? then 1 else 0
  }

  /** The handler calls a task has made, plus the one it is already bound to make. */
  function CallBudget(t: Task): nat {
    HandlerCalls(t.hooks) + if t.pc.Receiving? || t.pc.Handling? then 1 else 0
  }

  predicate NoStart(acts: seq<Action>) {
    forall i :: 0 <= i < |acts| ==> !acts[i].Start?
  }

  lemma BudgetAdvance(c: Config, t: Task)
    ensures !t.pc.Receiving? ==> CallBudget(Advance(c, t, false)) <= CallBudget(t)
    ensures forall got :: t.pc.Receiving? ==> CallBudget(Receive(t, got)) == CallBudget(t)
  {
    if !t.pc.Receiving? {
      CallsMove(c, t);
    }
  }

  lemma HandlerCallsSnoc(hooks: seq<Hook>, h: Hook)
    ensures HandlerCalls(hooks + [h]) == HandlerCalls(hooks) + if h.HandlerCall? then 1 else 0
  {
    assert (hooks + [h])[..|hooks|] == hooks;
  }

  /** The call of a task's own statement, if it makes one. */
  function OwnCall(c: Config, t: Task): seq<Hook> {
    match t.pc
    case Setup => When(c.hasSetup, SetupHook)
    case InMain => [MainCall]
    case Handling(e) => When(c.hasHandler, HandlerCall(e))
    case Teardown => When(c.hasTeardown, TeardownHook)
    case Give => [TerminationGive]
    case _ => []
  }

  lemma AdvanceCalls(c: Config, t: Task, running: bool)
    ensures Advance(c, t, running).hooks == t.hooks + OwnCall(c, t)
  {
  }

  lemma CallsMove(c: Config, t: Task)
    ensures HandlerCalls(Advance(c, t, false).hooks) <= HandlerCalls(t.hooks) + if t.pc.Handling? then 1 else 0
  {
    AdvanceCalls(c, t, false);
    var calls := OwnCall(c, t);
    if calls == [] {
      assert t.hooks + calls == t.hooks;
    } else {
      assert calls == [calls[0]];
      HandlerCallsSnoc(t.hooks, calls[0]);
    }
  }

  lemma BudgetStep(c: Config, s: State, a: Action, k: nat)
    requires s.state == Stopped && !a.Start? && k < |s.tasks|
    ensures Step(c, s, a).state == Stopped && |Step(c, s, a).tasks| == |s.tasks|
    ensures CallBudget(Step(c, s, a).tasks[k]) <= CallBudget(s.tasks[k])
  {
    if a.Run? && a.k == k {
      BudgetAdvance(c, s.tasks[k]);
      BudgetAdvance(c, s.tasks[k].(cancelled := true));
    } else {
      SameButFlags(c, s, a, k);
    }
  }

  /** Once a service is stopped, and until it is started again, a task begins at most one more handler
      call, and none unless it was past its loop test. */
  lemma {:induction false} AtMostOneMoreCall(c: Config, s: State, acts: seq<Action>, k: nat)
    requires s.state == Stopped && NoStart(acts) && k < |s.tasks|
    ensures Exec(c, s, acts).state == Stopped && |Exec(c, s, acts).tasks| == |s.tasks|
    ensures var t := Exec(c, s, acts).tasks[k];
            HandlerCalls(t.hooks) <= CallBudget(t) <= CallBudget(s.tasks[k])
    ensures CallBudget(s.tasks[k]) <= HandlerCalls(s.tasks[k].hooks) + 1
  {
    if acts != [] {
      AtMostOneMoreCall(c, s, acts[..|acts| - 1], k);
      BudgetStep(c, Exec(c, s, acts[..|acts| - 1]), acts[|acts| - 1], k);
    }
  }

  function WithoutNotifies(acts: seq<Action>): seq<Action> {
    if acts == [] then []
    else WithoutNotifies(acts[..|acts| - 1]) + if acts[|acts| - 1].Notify? then [] else [acts[|acts| - 1]]
  }

  /** The aborts that only a notification can cause. */
  predicate NotifyAborts(f: Option<Fault>) {
    f.Some? && (f.value.QueueFull? || f.value.NoMutex?)
  }

  lemma StoppedStep(c: Config, s: State, a: Action)
    requires s.state == Stopped && !a.Start?
    ensures a.Notify? ==> Step(c, s, a) == s
    ensures Step(c, s, a).state == Stopped && Step(c, s, a).accepted == s.accepted
    ensures NotifyAborts(Step(c, s, a).fault) ==> NotifyAborts(s.fault)
  {
  }

  /** Once a service is stopped, and until it is started again, notifications change nothing at all: every run
      ends as it would without them. So nothing is accepted, and no notification aborts the process. */
  lemma {:induction false} StoppedIgnoresNotify(c: Config, s: State, acts: seq<Action>)
    requires s.state == Stopped && NoStart(acts)
    ensures Exec(c, s, acts) == Exec(c, s, WithoutNotifies(acts))
    ensures Exec(c, s, acts).state == Stopped && Exec(c, s, acts).accepted == s.accepted
    ensures NotifyAborts(Exec(c, s, acts).fault) ==> NotifyAborts(s.fault)
  {
    if acts != [] {
      var before, a := acts[..|acts| - 1], acts[|acts| - 1];
      var kept := WithoutNotifies(before);
      StoppedIgnoresNotify(c, s, before);
      StoppedStep(c, Exec(c, s, before), a);
      assert kept + [] == kept;
      ExecSnoc(c, s, kept, a);
    }
  }
}
