/** The Wi-Fi driver's event handler (main/src/adapter/esp32/wifi.c) over traces of driver events. */
module Wifi {
  import opened Base

  const CONNECT_MAXIMUM_RETRY := 5

  const STA_GOT_IP: uint32 := 0x101
  const STA_LOST_IP: uint32 := 0x102
  const AP_IP_ASSIGNED: uint32 := 0x103

  datatype DriverEvent =
    | StaStart | StaDisconnected | StaConnected | OtherWifi
    | GotIp | LostIp | ApStaIpAssigned | OtherIp
    | OtherBase

  /** What one event makes the driver do: call esp_wifi_connect, and post an event to the core service. */
  datatype Effect = Effect(connects: bool, posts: Option<uint32>)

  class Driver {
    var isConnected: bool
    var connectionRetryCount: uint32

    constructor ()
      ensures !isConnected && connectionRetryCount == 0
    {
      isConnected := false;
      connectionRetryCount := 0;
    }

    ghost function View(): Context
      reads this
    {
      Context(isConnected, connectionRetryCount)
    }

    /** Wifi_EventHandler. */
    method HandleEvent(e: DriverEvent) returns (effect: Effect)
      requires connectionRetryCount <= CONNECT_MAXIMUM_RETRY
      modifies this
      ensures View() == Next(old(View()), e)
      ensures effect == EffectOf(old(View()), e)
      ensures connectionRetryCount <= CONNECT_MAXIMUM_RETRY
      ensures effect.posts == match e
                              case GotIp => Some(0x101)
                              case LostIp => Some(0x102)
                              case ApStaIpAssigned => Some(0x103)
                              case _ => None
      ensures effect.connects <==> e.StaStart? || (e.StaDisconnected? && old(connectionRetryCount) < 5)
    {
      effect := Effect(false, None);
      match e {
        case StaStart =>
          effect := Effect(true, None);
        case StaDisconnected =>
          isConnected := false;
          if connectionRetryCount < CONNECT_MAXIMUM_RETRY {
            connectionRetryCount := connectionRetryCount + 1;
            effect := Effect(true, None);
          }
        case StaConnected =>
          isConnected := true;
          connectionRetryCount := 0;
        case GotIp => effect := Effect(false, Some(STA_GOT_IP));
        case LostIp => effect := Effect(false, Some(STA_LOST_IP));
        case ApStaIpAssigned => effect := Effect(false, Some(AP_IP_ASSIGNED));
        case _ =>
      }
    }
  }

  datatype Context = Context(isConnected: bool, retries: nat)

  function Next(x: Context, e: DriverEvent): Context {
    if e.StaDisconnected? then Context(false, if x.retries < CONNECT_MAXIMUM_RETRY then x.retries + 1 else x.retries)
    else if e.StaConnected? then Context(true, 0)
    else x
  }

  function EffectOf(x: Context, e: DriverEvent): Effect {
    Effect(e.StaStart? || (e.StaDisconnected? && x.retries < CONNECT_MAXIMUM_RETRY),
           if e.GotIp? then Some(STA_GOT_IP)
           else if e.LostIp? then Some(STA_LOST_IP)
           else if e.ApStaIpAssigned? then Some(AP_IP_ASSIGNED)
           else None)
  }

  function After(trace: seq<DriverEvent>): Context {
    if trace == [] then Context(false, 0) else Next(After(trace[..|trace| - 1]), trace[|trace| - 1])
  }

  /** Reconnects the driver issues in answer to disconnections. */
  function Reconnects(trace: seq<DriverEvent>): nat {
    if trace == [] then 0
    else
      var before, e := trace[..|trace| - 1], trace[|trace| - 1];
      Reconnects(before) + if e.StaDisconnected? && EffectOf(After(before), e).connects then 1 else 0
  }

  // ---------------------------------------------------------------------------------------------
  // The same, read off the trace without the counter
  // ---------------------------------------------------------------------------------------------

  /** The number of disconnections in each round; a connection opens a new round. */
  function Rounds(trace: seq<DriverEvent>): (r: seq<nat>)
    ensures r != []
  {
    if trace == [] then [0]
    else
      var r, e := Rounds(trace[..|trace| - 1]), trace[|trace| - 1];
      if e.StaConnected? then r + [0]
      else if e.StaDisconnected? then r[|r| - 1 := r[|r| - 1] + 1]
      else r
  }

  function Connections(trace: seq<DriverEvent>): nat {
    if trace == [] then 0 else Connections(trace[..|trace| - 1]) + if trace[|trace| - 1].StaConnected? then 1 else 0
  }

  /** The verdict of the last connection or disconnection. */
  predicate LastVerdict(trace: seq<DriverEvent>) {
    if trace == [] then false
    else if trace[|trace| - 1].StaConnected? then true
    else if trace[|trace| - 1].StaDisconnected? then false
    else LastVerdict(trace[..|trace| - 1])
  }

  function Cap(n: nat): nat {
    if n < CONNECT_MAXIMUM_RETRY then n else CONNECT_MAXIMUM_RETRY
  }

  function CappedSum(r: seq<nat>): nat {
    if r == [] then 0 else CappedSum(r[..|r| - 1]) + Cap(r[|r| - 1])
  }

  lemma {:induction false} CappedSumBound(r: seq<nat>)
    ensures CappedSum(r) <= CONNECT_MAXIMUM_RETRY * |r|
  {
    if r != [] {
      CappedSumBound(r[..|r| - 1]);
    }
  }

  /** For every trace: the counter is the number of disconnections since the last connection, capped at 5;
      isConnected is the last verdict; the reconnects are each round's disconnections, capped at 5. */
  lemma {:induction false} CounterReadOff(trace: seq<DriverEvent>)
    ensures var r := Rounds(trace); After(trace) == Context(LastVerdict(trace), Cap(r[|r| - 1]))
    ensures Reconnects(trace) == CappedSum(Rounds(trace))
    ensures |Rounds(trace)| == Connections(trace) + 1
  {
    if trace != [] {
      var before := trace[..|trace| - 1];
      CounterReadOff(before);
      var r, r' := Rounds(before), Rounds(trace);
      assert r'[..|r'| - 1] == if trace[|trace| - 1].StaConnected? then r else r[..|r| - 1];
    }
  }

  lemma RetryBound(trace: seq<DriverEvent>)
    ensures After(trace).retries <= CONNECT_MAXIMUM_RETRY
    ensures Reconnects(trace) <= CONNECT_MAXIMUM_RETRY * (Connections(trace) + 1)
  {
    CounterReadOff(trace);
    CappedSumBound(Rounds(trace));
  }

  /** `adapter/wifi.h` says that the driver keeps trying to connect. It answers a disconnection with a new
      attempt exactly when fewer than five came before it since the last connection. */
  lemma RetriesIff(trace: seq<DriverEvent>)
    ensures var r := Rounds(trace);
            EffectOf(After(trace), StaDisconnected).connects <==> r[|r| - 1] < CONNECT_MAXIMUM_RETRY
  {
    CounterReadOff(trace);
  }

  /** With nothing but disconnections from the start, the sixth and all later ones are not answered. */
  lemma {:induction false} GivesUp(n: nat)
    ensures var trace := seq(n, _ => StaDisconnected);
            After(trace) == Context(false, Cap(n)) && (EffectOf(After(trace), StaDisconnected).connects <==> n < 5)
  {
    if n > 0 {
      GivesUp(n - 1);
      var trace := seq(n, _ => StaDisconnected);
      assert trace[..n - 1] == seq(n - 1, _ => StaDisconnected);
    }
  }

  // ---------------------------------------------------------------------------------------------
  // All effects of a trace
  // ---------------------------------------------------------------------------------------------

  /** What the driver posts to the core service, event by event. */
  function Posts(trace: seq<DriverEvent>): seq<uint32> {
    if trace == [] then []
    else
      var before, e := trace[..|trace| - 1], trace[|trace| - 1];
      var posted := EffectOf(After(before), e).posts;
      Posts(before) + if posted.Some? then [posted.value] else []
  }

  /** Its calls of esp_wifi_connect. */
  function Connects(trace: seq<DriverEvent>): nat {
    if trace == [] then 0
    else
      var before, e := trace[..|trace| - 1], trace[|trace| - 1];
      Connects(before) + if EffectOf(After(before), e).connects then 1 else 0
  }

  /** The event number of an address event. */
  function AddressEvent(e: DriverEvent): seq<uint32> {
    match e
    case GotIp => [0x101]
    case LostIp => [0x102]
    case ApStaIpAssigned => [0x103]
    case _ => []
  }

  function AddressEvents(trace: seq<DriverEvent>): seq<uint32> {
    if trace == [] then [] else AddressEvents(trace[..|trace| - 1]) + AddressEvent(trace[|trace| - 1])
  }

  function Starts(trace: seq<DriverEvent>): nat {
    if trace == [] then 0 else Starts(trace[..|trace| - 1]) + if trace[|trace| - 1].StaStart? then 1 else 0
  }

  /** For every trace: the posts are the address events, one number for each, in order; and the connection
      attempts are one for each start of the station plus each round's disconnections, capped at 5. */
  lemma EffectsReadOff(trace: seq<DriverEvent>)
    ensures Posts(trace) == AddressEvents(trace)
    ensures Connects(trace) == Starts(trace) + CappedSum(Rounds(trace))
  {
    PostsReadOff(trace);
    ConnectsReadOff(trace);
    CounterReadOff(trace);
  }

  lemma {:induction false} PostsReadOff(trace: seq<DriverEvent>)
    ensures Posts(trace) == AddressEvents(trace)
  {
    if trace != [] {
      PostsReadOff(trace[..|trace| - 1]);
    }
  }

  lemma {:induction false} ConnectsReadOff(trace: seq<DriverEvent>)
    ensures Connects(trace) == Starts(trace) + Reconnects(trace)
  {
    if trace != [] {
      ConnectsReadOff(trace[..|trace| - 1]);
    }
  }
}
