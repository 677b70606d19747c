/** The whole path from the Wi-Fi driver to the network console: driver events are posted to the core
    service's queue, the core service's loop hands them to Core_HandleEvent, and that starts the console
    service (main/src/core/service_core.c). Nothing in the firmware stops either service. */
module Firmware {
  import opened Base
  import opened Lifecycle
  import Restarts
  import Wifi

  /** SERVICE_CORE: setup hook and handler. */
  const CORE := Config(true, false, true, false, false)

  /** SERVICE_NETWORK_CONSOLE: its own main. */
  const CONSOLE := Config(false, true, false, false, false)

  /** `steps` is the core service's own history; `posted` lists what the driver put in its queue. */
  datatype Device = Device(
    core: State, console: State, wifi: Wifi.Context,
    steps: seq<Lifecycle.Action>, posted: seq<ServiceEvent>, aborted: bool)

  datatype Action =
    | Driver(event: Wifi.DriverEvent)
    | Core(ok: bool)                 // the core task's next statement
    | Console(action: Lifecycle.Action)

  /** `early`: the boot code starts the console itself, as the emulator's does. */
  function Boot(early: bool): Device {
    Device(StartService(Init()), if early then StartService(Init()) else Init(), Wifi.After([]), [Start], [], false)
  }

  function CoreStep(d: Device, a: Lifecycle.Action): Device {
    d.(core := Step(CORE, d.core, a), steps := d.steps + [a])
  }

  /** WiFi_SendEvent: Queue_Send on the core service's queue, abort when it refuses. */
  function Post(d: Device, event: uint32): Device {
    var e := ServiceEvent(event, 0);
    if d.core.queue.Some? && |d.core.queue.value| < SERVICE_QUEUE_SIZE then
      CoreStep(d, Notify(e, true)).(posted := d.posted + [e])
    else
      d.(aborted := true)
  }

  /** The event the core task is about to handle starts the console. */
  predicate StartsConsole(s: State) {
    && |s.tasks| == 1
    && s.tasks[0].pc.Handling?
    && s.tasks[0].pc.event.event == Wifi.STA_GOT_IP
  }

  /** The driver's handlers are registered by the core service's setup hook. */
  predicate Registered(s: State) {
    |s.tasks| == 1 && !s.tasks[0].pc.Setup?
  }

  function DeviceStep(d: Device, a: Action): Device {
    if d.aborted || d.core.fault.Some? || d.console.fault.Some? then d
    else match a
      case Driver(e) =>
        if !Registered(d.core) then d
        else
          var posts := Wifi.EffectOf(d.wifi, e).posts;
          var d' := d.(wifi := Wifi.Next(d.wifi, e));
          if posts.Some? then Post(d', posts.value) else d'
      case Core(ok) =>
        var d' := if StartsConsole(d.core) then d.(console := StartService(d.console)) else d;
        CoreStep(d', Run(0, ok))
      case Console(b) =>
        if b.Run? || b.Die? then d.(console := Step(CONSOLE, d.console, b)) else d
  }

  function RunDevice(early: bool, acts: seq<Action>): Device {
    if acts == [] then Boot(early) else DeviceStep(RunDevice(early, acts[..|acts| - 1]), acts[|acts| - 1])
  }

  /** The core's handler has been called with a GOT_IP event. */
  ghost predicate GotIpHandled(s: State) {
    && s.tasks != []
    && exists i :: 0 <= i < |s.tasks[0].hooks| && IsGotIpCall(s.tasks[0].hooks[i])
  }

  predicate IsGotIpCall(h: Hook) {
    h.HandlerCall? && h.event.event == Wifi.STA_GOT_IP
  }

  ghost predicate CoreOk(d: Device) {
    && d.core == Exec(CORE, Init(), d.steps)
    && Restarts.Disciplined(CORE, d.steps)
    && |d.core.tasks| == 1
    && d.core.state == Running
    && d.core.fault == None
    && d.core.accepted == d.posted
  }

  ghost predicate ConsoleOk(early: bool, d: Device) {
    && d.console.state != Waiting
    && (d.console.state == Running <==> d.console.tasks != [])
    && |d.console.tasks| <= 1
    && (d.console.tasks != [] <==> early || GotIpHandled(d.core))
  }

  lemma ExtendCore(d: Device, a: Lifecycle.Action)
    requires CoreOk(d) && !a.Start?
    ensures Exec(CORE, Init(), d.steps + [a]) == Step(CORE, d.core, a)
    ensures Restarts.Disciplined(CORE, d.steps + [a])
  {
    assert (d.steps + [a])[..|d.steps|] == d.steps;
  }

  lemma CoreRun(d: Device, ok: bool)
    requires CoreOk(d)
    ensures CoreOk(CoreStep(d, Run(0, ok)))
  {
    Restarts.OneLoopAlways(CORE, d.steps);
    ExtendCore(d, Run(0, ok));
  }

  lemma CorePost(d: Device, event: uint32)
    requires CoreOk(d)
    ensures CoreOk(Post(d, event)) && Post(d, event).core.tasks == d.core.tasks
  {
    if d.core.queue.Some? && |d.core.queue.value| < SERVICE_QUEUE_SIZE {
      ExtendCore(d, Notify(ServiceEvent(event, 0), true));
    }
  }

  /** The core's next statement makes the GOT_IP call exactly when it is at that call. */
  lemma GotIpHandledRun(s: State, ok: bool)
    requires |s.tasks| == 1 && !s.tasks[0].dead && s.fault == None
    ensures |Step(CORE, s, Run(0, ok)).tasks| == 1
    ensures GotIpHandled(Step(CORE, s, Run(0, ok))) <==> GotIpHandled(s) || StartsConsole(s)
  {
    var t, r := s.tasks[0], Step(CORE, s, Run(0, ok)).tasks[0];
    assert r.hooks[..|t.hooks|] == t.hooks;
    assert forall i :: 0 <= i < |t.hooks| ==> r.hooks[i] == t.hooks[i];
    if t.pc.Handling? {
      assert r.hooks[|t.hooks|] == HandlerCall(t.pc.event);
    }
  }

  lemma DriverStepOk(early: bool, d: Device, e: Wifi.DriverEvent)
    requires CoreOk(d) && ConsoleOk(early, d)
    ensures CoreOk(DeviceStep(d, Driver(e))) && ConsoleOk(early, DeviceStep(d, Driver(e)))
  {
    var posts := Wifi.EffectOf(d.wifi, e).posts;
    if posts.Some? {
      CorePost(d.(wifi := Wifi.Next(d.wifi, e)), posts.value);
    }
  }

  lemma CoreStepOk(early: bool, d: Device, ok: bool)
    requires CoreOk(d) && ConsoleOk(early, d)
    ensures CoreOk(DeviceStep(d, Core(ok))) && ConsoleOk(early, DeviceStep(d, Core(ok)))
  {
    if DeviceStep(d, Core(ok)) != d {
      CoreAlive(d);
      CoreRun(d, ok);
      GotIpHandledRun(d.core, ok);
    }
  }

  lemma CoreAlive(d: Device)
    requires CoreOk(d)
    ensures !d.core.tasks[0].dead
  {
    Restarts.OneLoopAlways(CORE, d.steps);
  }

  lemma DeviceStepOk(early: bool, d: Device, a: Action)
    requires CoreOk(d) && ConsoleOk(early, d)
    ensures CoreOk(DeviceStep(d, a)) && ConsoleOk(early, DeviceStep(d, a))
  {
    match a
    case Driver(e) => DriverStepOk(early, d, e);
    case Core(ok) => CoreStepOk(early, d, ok);
    case Console(_) =>
  }

  lemma {:induction false} DeviceAlways(early: bool, acts: seq<Action>)
    ensures CoreOk(RunDevice(early, acts)) && ConsoleOk(early, RunDevice(early, acts))
  {
    if acts == [] {
      assert [Start][..0] == [];
      assert Exec(CORE, Init(), [Start]) == Step(CORE, Init(), Start);
    } else {
      DeviceAlways(early, acts[..|acts| - 1]);
      DeviceStepOk(early, RunDevice(early, acts[..|acts| - 1]), acts[|acts| - 1]);
    }
  }

  // ---------------------------------------------------------------------------------------------
  // End to end
  // ---------------------------------------------------------------------------------------------

  /** For every interleaving of driver events and task steps, the console task is created at most once,
      and it exists exactly if the boot code started it or the core handled a GOT_IP event. */
  lemma ConsoleStartedOnce(early: bool, acts: seq<Action>)
    ensures var d := RunDevice(early, acts);
            |d.console.tasks| <= 1 && (|d.console.tasks| == 1 <==> early || GotIpHandled(d.core))
  {
    DeviceAlways(early, acts);
  }

  /** The core handles what the driver posted, in the order it was posted, without loss. */
  lemma PostsDispatchedInOrder(early: bool, acts: seq<Action>)
    ensures var s := RunDevice(early, acts).core;
            && s.queue.Some? && |s.tasks| == 1
            && RunDevice(early, acts).posted == Restarts.Delivered(s.tasks[0].receives) + s.queue.value
            && s.tasks[0].hooks == (if s.tasks[0].pc.Setup? then [] else [SetupHook]) + Calls(Handled(s.tasks[0]))
  {
    DeviceAlways(early, acts);
    CoreInOrder(RunDevice(early, acts));
    SetupFirst(RunDevice(early, acts).core.tasks[0].pc);
  }

  /** The core service has a setup hook. */
  lemma SetupFirst(pc: Pc)
    ensures Before(CORE, pc) == if pc.Setup? then [] else [SetupHook]
  {
  }

  /** While the core runs, its task is in its loop and its queue lives. */
  lemma CoreLoops(d: Device)
    requires CoreOk(d)
    ensures d.core.queue.Some? && (d.core.tasks[0].pc.Setup? || InLoop(d.core.tasks[0].pc))
  {
    Restarts.OneLoopAlways(CORE, d.steps);
    HooksInOrder(CORE, d.steps);
    assert OnScript(CORE, d.core.tasks[0]);
  }

  lemma CoreInOrder(d: Device)
    requires CoreOk(d)
    ensures var t := d.core.tasks[0];
            && d.core.queue.Some?
            && d.posted == Restarts.Delivered(t.receives) + d.core.queue.value
            && t.hooks == Before(CORE, t.pc) + Calls(Handled(t))
  {
    CoreLoops(d);
    Restarts.DispatchExact(CORE, d.steps);
    var t := d.core.tasks[0];
    NothingAfter(CORE, t.pc, Before(CORE, t.pc) + Calls(Handled(t)));
  }

  lemma NothingAfter(c: Config, pc: Pc, hooks: seq<Hook>)
    requires Stage(pc) <= 2
    ensures hooks + After(c, pc) == hooks
  {
  }

  lemma {:induction false} CalledWasDelivered(receives: seq<Option<ServiceEvent>>, i: nat)
    requires i < |Calls(receives)| && Calls(receives)[i].HandlerCall?
    requires Calls(receives)[i].event.event != EVENT_TIMEOUT
    ensures Calls(receives)[i].event in Restarts.Delivered(receives)
  {
    var before := receives[..|receives| - 1];
    if i < |Calls(before)| {
      CalledWasDelivered(before, i);
    }
  }

  /** A handled GOT_IP has been received. */
  lemma CalledWasReceived(t: Task, first: seq<Hook>)
    requires t.hooks == first + Calls(Handled(t)) && (first == [] || first == [SetupHook])
    requires exists i :: 0 <= i < |t.hooks| && IsGotIpCall(t.hooks[i])
    ensures exists e :: e in Restarts.Delivered(t.receives) && e.event == Wifi.STA_GOT_IP
  {
    var i :| 0 <= i < |t.hooks| && IsGotIpCall(t.hooks[i]);
    var j := i - |first|;
    assert t.hooks[i] == Calls(Handled(t))[j];
    CalledWasDelivered(Handled(t), j);
    HandledDelivered(t);
    assert t.hooks[i].event in Restarts.Delivered(t.receives);
  }

  /** On the board, where only the core service starts it: no console without a GOT_IP from the driver. */
  lemma ConsoleNeedsGotIp(acts: seq<Action>)
    ensures var d := RunDevice(false, acts);
            d.console.tasks != [] ==> exists e :: e in d.posted && e.event == Wifi.STA_GOT_IP
  {
    DeviceAlways(false, acts);
    PostsDispatchedInOrder(false, acts);
    var d := RunDevice(false, acts);
    if d.console.tasks != [] {
      var t := d.core.tasks[0];
      CalledWasReceived(t, if t.pc.Setup? then [] else [SetupHook]);
      var e :| e in Restarts.Delivered(t.receives) && e.event == Wifi.STA_GOT_IP;
      assert e in d.posted;
    }
  }

  lemma HandledDelivered(t: Task)
    ensures forall e :: e in Restarts.Delivered(Handled(t)) ==> e in Restarts.Delivered(t.receives)
  {
  }

  // ---------------------------------------------------------------------------------------------
  // Down to the driver's events
  // ---------------------------------------------------------------------------------------------

  predicate Halted(d: Device) {
    d.aborted || d.core.fault.Some? || d.console.fault.Some?
  }

  /** The driver events whose handler runs: those after the registration, while nothing has aborted. */
  function HandledEvents(early: bool, acts: seq<Action>): seq<Wifi.DriverEvent> {
    if acts == [] then []
    else
      var d, a := RunDevice(early, acts[..|acts| - 1]), acts[|acts| - 1];
      HandledEvents(early, acts[..|acts| - 1])
      + if a.Driver? && Registered(d.core) && !Halted(d) then [a.event] else []
  }

  function EventsOf(numbers: seq<uint32>): seq<ServiceEvent> {
    seq(|numbers|, i requires 0 <= i < |numbers| => ServiceEvent(numbers[i], 0))
  }

  /** What has been posted is one event for each address event handled, in order; the one post that finds 20
      events queued aborts instead. */
  ghost predicate PostsAddresses(d: Device, handled: seq<Wifi.DriverEvent>) {
    var numbers := Wifi.AddressEvents(handled);
    && d.wifi == Wifi.After(handled)
    && if !d.aborted then d.posted == EventsOf(numbers)
       else
         && |numbers| > 0 && d.posted == EventsOf(numbers[..|numbers| - 1])
         && d.core.queue.Some? && |d.core.queue.value| == 20
  }

  lemma EventsOfSnoc(numbers: seq<uint32>, n: uint32)
    ensures EventsOf(numbers + [n]) == EventsOf(numbers) + [ServiceEvent(n, 0)]
  {
  }

  lemma HandledSnoc(handled: seq<Wifi.DriverEvent>, e: Wifi.DriverEvent)
    ensures Wifi.AddressEvents(handled + [e]) == Wifi.AddressEvents(handled) + Wifi.AddressEvent(e)
    ensures Wifi.After(handled + [e]) == Wifi.Next(Wifi.After(handled), e)
  {
    assert (handled + [e])[..|handled|] == handled;
  }

  lemma PostsAddressesStep(d: Device, e: Wifi.DriverEvent, handled: seq<Wifi.DriverEvent>)
    requires CoreOk(d) && !Halted(d) && Registered(d.core) && PostsAddresses(d, handled)
    ensures PostsAddresses(DeviceStep(d, Driver(e)), handled + [e])
  {
    CoreLoops(d);
    HandledSnoc(handled, e);
    var numbers, more := Wifi.AddressEvents(handled), Wifi.AddressEvent(e);
    assert d.core.queue.Some? && |d.core.queue.value| <= 20 by {
      QueueFits(d.steps);
    }
    if more == [] {
      assert numbers + more == numbers;
    } else {
      assert more == [more[0]] && (numbers + more)[..|numbers|] == numbers;
      EventsOfSnoc(numbers, more[0]);
    }
  }

  /** No service queue ever holds more than 20 events. */
  lemma {:induction false} QueueFits(steps: seq<Lifecycle.Action>)
    ensures var s := Exec(CORE, Init(), steps); s.queue.Some? ==> |s.queue.value| <= 20
  {
    if steps != [] {
      QueueFits(steps[..|steps| - 1]);
    }
  }

  lemma {:induction false} PostedReadOff(early: bool, acts: seq<Action>)
    ensures PostsAddresses(RunDevice(early, acts), HandledEvents(early, acts))
  {
    if acts != [] {
      var before, a := acts[..|acts| - 1], acts[|acts| - 1];
      var d := RunDevice(early, before);
      PostedReadOff(early, before);
      DeviceAlways(early, before);
      if a.Driver? && Registered(d.core) && !Halted(d) {
        PostsAddressesStep(d, a.event, HandledEvents(early, before));
      } else {
        assert HandledEvents(early, before) + [] == HandledEvents(early, before);
      }
    }
  }

  lemma {:induction false} GotIpAmong(handled: seq<Wifi.DriverEvent>)
    requires 0x101 in Wifi.AddressEvents(handled)
    ensures Wifi.GotIp in handled
  {
    if handled[|handled| - 1] != Wifi.GotIp {
      GotIpAmong(handled[..|handled| - 1]);
    }
  }

  lemma {:induction false} HandledHappened(early: bool, acts: seq<Action>, e: Wifi.DriverEvent)
    requires e in HandledEvents(early, acts)
    ensures exists i :: 0 <= i < |acts| && acts[i] == Driver(e)
  {
    var before := acts[..|acts| - 1];
    if e in HandledEvents(early, before) {
      HandledHappened(early, before, e);
      var i :| 0 <= i < |before| && before[i] == Driver(e);
      assert acts[i] == Driver(e);
    } else {
      assert acts[|acts| - 1] == Driver(e);
    }
  }

  /** On the board there is no console unless the driver has reported an address of its own. */
  lemma ConsoleNeedsAddress(acts: seq<Action>)
    ensures RunDevice(false, acts).console.tasks != [] ==>
              exists i :: 0 <= i < |acts| && acts[i] == Driver(Wifi.GotIp)
  {
    var d, handled := RunDevice(false, acts), HandledEvents(false, acts);
    if d.console.tasks != [] {
      ConsoleNeedsGotIp(acts);
      PostedReadOff(false, acts);
      var e :| e in d.posted && e.event == Wifi.STA_GOT_IP;
      GotIpAmong(handled);
      HandledHappened(false, acts, Wifi.GotIp);
    }
  }

  lemma RunDeviceSnoc(early: bool, acts: seq<Action>, a: Action)
    ensures RunDevice(early, acts + [a]) == DeviceStep(RunDevice(early, acts), a)
  {
    assert (acts + [a])[..|acts|] == acts;
  }

  /** The core's task has made a step at `i`. */
  predicate CoreStepsAt(early: bool, acts: seq<Action>, i: nat) {
    i < |acts| && acts[i].Core? && !Halted(RunDevice(early, acts[..i]))
  }

  /** The driver's events are handled from the core's first step on, which registers its handlers, and no
      earlier. */
  lemma {:induction false} RegisteredIff(early: bool, acts: seq<Action>)
    ensures Registered(RunDevice(early, acts).core) <==> exists i :: CoreStepsAt(early, acts, i)
  {
    if acts != [] {
      var before, a := acts[..|acts| - 1], acts[|acts| - 1];
      RegisteredIff(early, before);
      DeviceAlways(early, before);
      RegisteredStep(early, RunDevice(early, before), a);
      StepsBefore(early, acts);
    }
  }

  lemma StepsBefore(early: bool, acts: seq<Action>)
    requires acts != []
    ensures var before := acts[..|acts| - 1];
            (exists i :: CoreStepsAt(early, acts, i)) <==>
            (exists i :: CoreStepsAt(early, before, i)) || CoreStepsAt(early, acts, |acts| - 1)
  {
    var before := acts[..|acts| - 1];
    forall i: nat | i < |before|
      ensures CoreStepsAt(early, acts, i) <==> CoreStepsAt(early, before, i)
    {
      assert acts[..i] == before[..i];
    }
  }

  lemma RegisteredStep(early: bool, d: Device, a: Action)
    requires CoreOk(d) && ConsoleOk(early, d)
    ensures Registered(DeviceStep(d, a).core) <==> Registered(d.core) || (a.Core? && !Halted(d))
  {
    CoreAlive(d);
  }

  /** How far the core's task is from its loop test with an empty queue. */
  function ToDrain(s: State): nat
    requires s.queue.Some? && |s.tasks| == 1
  {
    var n, pc := |s.queue.value|, s.tasks[0].pc;
    4 * n + (if pc.LoopTest? then 2 else if pc.Receiving? then (if n == 0 then 4 else 1) else 3)
  }

  predicate Drained(s: State) {
    s.queue == Some([]) && |s.tasks| == 1 && s.tasks[0].pc == LoopTest
  }

  lemma DrainStep(early: bool, d: Device)
    requires CoreOk(d) && ConsoleOk(early, d) && !Halted(d) && d.core.queue.Some? && !Drained(d.core)
    ensures var r := DeviceStep(d, Core(true));
            && r.core.queue.Some? && |r.core.tasks| == 1 && ToDrain(r.core) < ToDrain(d.core)
            && !Halted(r) && r.posted == d.posted
  {
    CoreLoops(d);
    CoreAlive(d);
  }

  lemma OneDrain(early: bool, acts: seq<Action>)
    requires !Halted(RunDevice(early, acts)) && !Drained(RunDevice(early, acts).core)
    ensures var d, r := RunDevice(early, acts), RunDevice(early, acts + [Core(true)]);
            && !Halted(r) && r.posted == d.posted
            && DrainMeasure(r.core) < DrainMeasure(d.core)
  {
    var d := RunDevice(early, acts);
    DeviceAlways(early, acts);
    CoreLoops(d);
    DrainStep(early, d);
    RunDeviceSnoc(early, acts, Core(true));
  }

  function DrainMeasure(s: State): nat {
    if s.queue.Some? && |s.tasks| == 1 then ToDrain(s) else 0
  }

  /** Left to itself, the core's task handles everything in its queue. */
  lemma {:induction false} CanDrain(early: bool, acts: seq<Action>) returns (more: seq<Action>)
    requires !Halted(RunDevice(early, acts))
    ensures forall i :: 0 <= i < |more| ==> more[i] == Core(true)
    ensures Drained(RunDevice(early, acts + more).core)
    ensures RunDevice(early, acts + more).posted == RunDevice(early, acts).posted
    decreases DrainMeasure(RunDevice(early, acts).core)
  {
    if Drained(RunDevice(early, acts).core) {
      more := [];
      assert acts + [] == acts;
    } else {
      OneDrain(early, acts);
      var rest := CanDrain(early, acts + [Core(true)]);
      more := [Core(true)] + rest;
      Associate(acts, [Core(true)], rest);
    }
  }

  lemma {:induction false} DeliveredIsCalled(receives: seq<Option<ServiceEvent>>, e: ServiceEvent)
    requires e in Restarts.Delivered(receives)
    ensures exists i :: 0 <= i < |Calls(receives)| && Calls(receives)[i] == HandlerCall(e)
  {
    var before := receives[..|receives| - 1];
    if e in Restarts.Delivered(before) {
      DeliveredIsCalled(before, e);
      var i :| 0 <= i < |Calls(before)| && Calls(before)[i] == HandlerCall(e);
      assert Calls(receives)[i] == HandlerCall(e);
    } else {
      assert Calls(receives)[|Calls(before)|] == HandlerCall(e);
    }
  }

  lemma DrainedHandled(early: bool, acts: seq<Action>, e: ServiceEvent)
    requires Drained(RunDevice(early, acts).core) && e in RunDevice(early, acts).posted && e.event == Wifi.STA_GOT_IP
    ensures GotIpHandled(RunDevice(early, acts).core)
  {
    PostsDispatchedInOrder(early, acts);
    var t := RunDevice(early, acts).core.tasks[0];
    assert Handled(t) == t.receives;
    DeliveredIsCalled(t.receives, e);
    var i :| 0 <= i < |Calls(t.receives)| && Calls(t.receives)[i] == HandlerCall(e);
    assert t.hooks == [SetupHook] + Calls(t.receives);
    assert t.hooks[1 + i] == HandlerCall(e);
    assert IsGotIpCall(t.hooks[1 + i]);
  }

  lemma {:induction false} AddressPosted(handled: seq<Wifi.DriverEvent>)
    requires Wifi.GotIp in handled
    ensures exists i :: 0 <= i < |Wifi.AddressEvents(handled)| && Wifi.AddressEvents(handled)[i] == 0x101
  {
    var before := handled[..|handled| - 1];
    if Wifi.GotIp in before {
      AddressPosted(before);
      var i :| 0 <= i < |Wifi.AddressEvents(before)| && Wifi.AddressEvents(before)[i] == 0x101;
      assert Wifi.AddressEvents(handled)[i] == 0x101;
    } else {
      assert Wifi.AddressEvents(handled)[|Wifi.AddressEvents(before)|] == 0x101;
    }
  }

  /** And an address starts it: from every state in which the driver has reported one, and nothing has aborted,
      the core's task alone, if its receives do not time out, gets to start the console. */
  lemma AddressStartsConsole(early: bool, acts: seq<Action>) returns (more: seq<Action>)
    requires !Halted(RunDevice(early, acts)) && Wifi.GotIp in HandledEvents(early, acts)
    ensures forall i :: 0 <= i < |more| ==> more[i] == Core(true)
    ensures RunDevice(early, acts + more).console.tasks != []
  {
    more := CanDrain(early, acts);
    PostedReadOff(early, acts);
    AddressPosted(HandledEvents(early, acts));
    var numbers := Wifi.AddressEvents(HandledEvents(early, acts));
    var i :| 0 <= i < |numbers| && numbers[i] == 0x101;
    assert EventsOf(numbers)[i] == ServiceEvent(0x101, 0);
    DrainedHandled(early, acts + more, ServiceEvent(0x101, 0));
    DeviceAlways(early, acts + more);
  }

  // ---------------------------------------------------------------------------------------------
  // The end of either service
  // ---------------------------------------------------------------------------------------------

  /** Neither service has a termination semaphore: the end of either would abort the process. */
  lemma EndsAbort()
    ensures exists acts :: Exec(CORE, Init(), acts).fault == Some(NullSemaphore)
    ensures exists acts :: Exec(CONSOLE, Init(), acts).fault == Some(NullSemaphore)
  {
    Restarts.NullSemaphoreIff(CORE);
    Restarts.NullSemaphoreIff(CONSOLE);
  }

  /** A statement of the console's task. */
  lemma ConsoleMoves(acts: seq<Action>, d: Device, pc: Pc) returns (next: seq<Action>, r: Device)
    requires d == RunDevice(true, acts) && !Halted(d)
    requires |d.console.tasks| == 1 && !d.console.tasks[0].dead && d.console.tasks[0].pc == pc
    requires pc.Setup? || pc.InMain? || pc.Teardown?
    ensures next == acts + [Console(Run(0, true))] && r == RunDevice(true, next) && !Halted(r)
    ensures |r.console.tasks| == 1 && !r.console.tasks[0].dead
    ensures r.console.tasks[0].pc == if pc.Setup? then InMain else if pc.InMain? then Teardown else Give
  {
    next := acts + [Console(Run(0, true))];
    RunDeviceSnoc(true, acts, Console(Run(0, true)));
    r := DeviceStep(d, Console(Run(0, true)));
  }

  /** When the console's main returns, the firmware aborts two statements later. */
  lemma ConsoleReturnAborts() returns (acts: seq<Action>)
    ensures |acts| == 4 && forall i :: 0 <= i < 4 ==> acts[i] == Console(Run(0, true))
    ensures RunDevice(true, acts).console.fault == Some(NullSemaphore)
  {
    acts := [];
    var d := Boot(true);
    acts, d := ConsoleMoves(acts, d, Setup);
    acts, d := ConsoleMoves(acts, d, InMain);
    acts, d := ConsoleMoves(acts, d, Teardown);
    RunDeviceSnoc(true, acts, Console(Run(0, true)));
    acts := acts + [Console(Run(0, true))];
  }

  /** The calls the core service's task makes in any run: its setup hook, then its handler. Those of the
      console's: its main. */
  lemma ServiceCalls(acts: seq<Lifecycle.Action>, k: nat)
    ensures var s := Exec(CORE, Init(), acts);
            k < |s.tasks| ==>
              s.tasks[k].hooks == (if s.tasks[k].pc.Setup? then [] else [SetupHook]) + Calls(Handled(s.tasks[k]))
    ensures var s := Exec(CONSOLE, Init(), acts);
            k < |s.tasks| ==> s.tasks[k].hooks == if Stage(s.tasks[k].pc) > 1 then [MainCall] else []
  {
    HooksInOrder(CORE, acts);
    HooksInOrder(CONSOLE, acts);
    Restarts.CleanupBlockedAlways(CORE, acts);
    Restarts.CleanupBlockedAlways(CONSOLE, acts);
    var s, x := Exec(CORE, Init(), acts), Exec(CONSOLE, Init(), acts);
    if k < |s.tasks| {
      assert OnScript(CORE, s.tasks[k]) && Stage(s.tasks[k].pc) <= 3;
      CoreScript(s.tasks[k]);
    }
    if k < |x.tasks| {
      assert OnScript(CONSOLE, x.tasks[k]) && Stage(x.tasks[k].pc) <= 3;
      ConsoleScript(x.tasks[k]);
    }
  }

  lemma CoreScript(t: Task)
    requires OnScript(CORE, t) && Stage(t.pc) <= 3
    ensures t.hooks == (if t.pc.Setup? then [] else [SetupHook]) + Calls(Handled(t))
  {
    var hooks := Before(CORE, t.pc) + Calls(Handled(t));
    SetupFirst(t.pc);
    assert After(CORE, t.pc) == [] && hooks + [] == hooks;
  }

  lemma ConsoleScript(t: Task)
    requires OnScript(CONSOLE, t) && Stage(t.pc) <= 3
    ensures t.hooks == if Stage(t.pc) > 1 then [MainCall] else []
  {
    assert Before(CONSOLE, t.pc) == [] && After(CONSOLE, t.pc) == [];
    assert During(CONSOLE, t) == if Stage(t.pc) > 1 then [MainCall] else [];
    assert [] + During(CONSOLE, t) + [] == During(CONSOLE, t);
  }
}
