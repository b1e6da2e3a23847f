/** SdkWrapper: the polling loop that follows the sim's connection state,
    raises Connected / Disconnected / Connecting / TelemetryUpdated /
    SessionInfoUpdated, and counts the exceptions its iterations throw.
    What one iteration learns from the sim and from the sdk is an
    Observation; what it does that can be seen from outside is a trace of
    Events. */
module Wrapper {
  import opened Wrappers
  import opened Memory
  import opened Sdk

  /** The largest telemetry update frequency the setter accepts. */
  const MaxFrequency: int := 60
  /** The exception count at which the loop writes its crash report and stops. */
  const MaxTries: int := 5
  /** The step of the disconnected sleep, msWait. */
  const SleepStep: int := 100
  /** ConnectSleepTime as the constructor sets it. */
  const DefaultConnectSleepTime: int := 1000

  /** The fields of `_sdk.Header` that the loop consults. */
  datatype HeaderView = HeaderView(status: int, varCount: int, sessionInfoUpdate: int)

  /** The call of an iteration that throws, if the iteration reaches it.
      Startup, Shutdown and IsConnected catch their own exceptions, so
      what can throw is an event handler that RaiseEvent calls directly on
      the loop thread, and the telemetry reads of the connected step. */
  datatype Fault =
    | NoFault
    | HandlerFault        // the Connected, Disconnected or Connecting handler
    | PlayerCarIdxFault   // `_sdk.GetValue<int>(PlayerCarIdx)`
    | TelemetryTimeFault  // the SessionTick or SessionTime read

  /** One iteration's view of the sim: what `_sdk.IsConnected()` answers,
      what `_sdk.Startup` returns when it is called, `_sdk.Header`, the
      PlayerCarIdx telemetry value, the GetSessionInfo text, the stopwatch
      reading when the iteration's work is done, the call that throws, and
      whether cancellation is requested during the iteration. */
  datatype Observation = Observation(
    simConnected: bool,
    startup: bool,
    header: Option<HeaderView>,
    playerCarIdx: int,
    sessionInfo: Option<string>,
    elapsedMs: int,
    fault: Fault,
    cancelled: bool)

  /** The raised events, the calls that re-attach the sdk, the sleeps, the
      logged errors and the crash report, in the order they happen. */
  datatype Event =
    | OnConnected
    | OnDisconnected
    | OnConnecting
    | OnTelemetryUpdated
    | OnSessionInfoUpdated(info: string)
    | Reattached          // _sdk.Shutdown() then _sdk.Startup() on connecting
    | StartupAttempted    // _sdk.Startup() on a disconnected iteration
    | Slept(ms: int)
    | UnendingSleep       // a disconnected sleep whose counter never reaches ConnectSleepTime
    | ErrorLogged
    | CrashReport
    | SdkShutdown

  /** The wrapper's fields that the iterations read and write. */
  datatype LoopState = LoopState(
    isConnected: bool,
    hasConnected: bool,
    driverId: int,
    memoryFileExists: bool,
    loggedFirst: bool,
    loggedFirstConnecting: bool,
    initialConnectingWithMemoryExisting: bool,
    retrySessionInfoRetrieval: bool)

  /** Where an iteration leaves the fields and `lastUpdate`, and what it did. */
  datatype Outcome = Outcome(state: LoopState, lastUpdate: int, events: seq<Event>)

  /** Where a run of the loop leaves the fields, what it did, whether the
      loop left its `while` (by cancellation or the crash break; otherwise
      it is still iterating, or sleeping without end, when the
      observations run out), and whether it then shuts the sdk down. */
  datatype RunEnd = RunEnd(state: LoopState, events: seq<Event>, left: bool, shutDown: bool)

  /** IsConnected: connected and the driver's car is known. */
  predicate Reported(s: LoopState)
  {
    s.isConnected && s.driverId > -1
  }

  function Count(e: Event, es: seq<Event>): nat
  {
    if es == [] then 0 else (if es[0] == e then 1 else 0) + Count(e, es[1..])
  }

  lemma {:induction false} CountAppend(e: Event, a: seq<Event>, b: seq<Event>)
    ensures Count(e, a + b) == Count(e, a) + Count(e, b)
  {
    if a == [] {
      assert a + b == b;
    } else {
      assert (a + b)[0] == a[0];
      assert (a + b)[1..] == a[1..] + b;
      CountAppend(e, a[1..], b);
    }
  }

  lemma {:induction false} CountAbsent(e: Event, es: seq<Event>)
    ensures e !in es <==> Count(e, es) == 0
  {
    if es != [] {
      CountAbsent(e, es[1..]);
      assert es == [es[0]] + es[1..];
    }
  }

  // ---------------------------------------------------------------------------
  // Settings

  /** UpdateWaitTime: `floor(1000 / f) - 10` milliseconds, never negative.
      For a whole-number frequency the floor of the quotient is the integer
      quotient. */
  function UpdateWaitTime(hz: int): int
    requires hz > 0
  {
    var w := 1000 / hz - 10;
    if w > 0 then w else 0
  }

  /** Over the frequencies the setter accepts the clamp never applies, and
      the wait plus the 10 ms margin is the longest whole-millisecond period
      that still polls `hz` times a second. */
  lemma WaitTimeBounds(hz: int)
    requires 0 < hz <= MaxFrequency
    ensures UpdateWaitTime(hz) == 1000 / hz - 10
    ensures 6 <= UpdateWaitTime(hz) <= 990
    ensures (UpdateWaitTime(hz) + 10) * hz <= 1000 < (UpdateWaitTime(hz) + 11) * hz
  {
    var q := 1000 / hz;
    assert q * hz <= 1000 < (q + 1) * hz;
    assert 16 * hz <= 960;
    assert q <= 1000;
  }

  /** The connected-tick delay: `(int)(WaitTimeMs - elapsed)`, at least 1. */
  function TickDelay(waitTimeMs: int, elapsedMs: int): (d: int)
    ensures d >= 1 && IsInt32(d)
    ensures IsInt32(waitTimeMs - elapsedMs) ==>
              d == (if waitTimeMs - elapsedMs <= 1 then 1 else waitTimeMs - elapsedMs)
  {
    var delay := Wrap32(waitTimeMs - elapsedMs);
    if delay <= 1 then 1 else delay
  }

  /** A tick that took no time sleeps the whole wait (or 1 ms), and a tick
      never sleeps longer than the wait. */
  lemma TickDelayWithinWait(waitTimeMs: int, elapsedMs: int)
    requires 0 <= waitTimeMs < TwoTo31 && 0 <= elapsedMs < TwoTo31
    ensures TickDelay(waitTimeMs, elapsedMs) <= (if waitTimeMs <= 1 then 1 else waitTimeMs)
    ensures elapsedMs == 0 ==> TickDelay(waitTimeMs, elapsedMs) == (if waitTimeMs <= 1 then 1 else waitTimeMs)
  {
  }

  /** The disconnected sleep counts its 100 ms steps in an int32, which
      wraps around past 2^31 - 1. Since 2^32 leaves 96 modulo 100, after k
      wraps the counter runs through values congruent to 4k modulo 100;
      for k up to MaxLap the largest of them is LapTop(k). */
  const MaxLap: int := 11

  function LapTop(k: int): int
  {
    2147483600 + 4 * k
  }

  /** The number of wraps before the counter first reaches a
      ConnectSleepTime of at most LapTop(MaxLap). */
  function SleepLaps(connectSleepTime: int): int
  {
    if connectSleepTime <= LapTop(0) then 0 else (connectSleepTime - LapTop(0) + 3) / 4
  }

  /** The time the disconnected sleep sleeps: nothing for a non-positive
      ConnectSleepTime, one step when cancellation is seen after the first
      step, and otherwise 100 ms per step until the wrapping counter
      reaches ConnectSleepTime; None when it never does. */
  function SleptMs(connectSleepTime: int, cancelled: bool): (ms: Option<int>)
    ensures connectSleepTime <= 0 ==> ms == Some(0)
    ensures connectSleepTime > 0 && cancelled ==> ms == Some(SleepStep)
    ensures 0 < connectSleepTime <= LapTop(0) && !cancelled ==>
              ms.Some? && ms.value % SleepStep == 0 && connectSleepTime <= ms.value < connectSleepTime + SleepStep
    ensures connectSleepTime > LapTop(MaxLap) && !cancelled ==> ms == None
  {
    if connectSleepTime <= 0 then Some(0)
    else if cancelled then Some(SleepStep)
    else if connectSleepTime > LapTop(MaxLap) then None
    else
      var k := SleepLaps(connectSleepTime);
      Some(connectSleepTime + (4 * k - connectSleepTime) % SleepStep + k * TwoTo32)
  }

  /** Wrapping a value just past 2^31 - 1 subtracts 2^32. */
  lemma Wrap32Down(y: int)
    requires TwoTo31 <= y < TwoTo31 + TwoTo32
    ensures Wrap32(y) == y - TwoTo32
  {
    Wrap32Shift(y - TwoTo32, 1);
  }

  /** The lap where the sleep ends and the counter's value there. */
  lemma SleepEndFacts(connectSleepTime: int)
    requires 0 < connectSleepTime <= LapTop(MaxLap)
    ensures var k := SleepLaps(connectSleepTime);
            var w := connectSleepTime + (4 * k - connectSleepTime) % SleepStep;
            0 <= k <= MaxLap && connectSleepTime <= LapTop(k) && (k > 0 ==> LapTop(k - 1) < connectSleepTime) &&
            connectSleepTime <= w <= LapTop(k) && w < connectSleepTime + SleepStep &&
            w % SleepStep == 4 * k % SleepStep && (w + k * TwoTo32) % SleepStep == 0 &&
            Wrap32(w + k * TwoTo32) == w
  {
    var k := SleepLaps(connectSleepTime);
    var w := connectSleepTime + (4 * k - connectSleepTime) % SleepStep;
    assert (LapTop(k) - connectSleepTime) % SleepStep == (4 * k - connectSleepTime) % SleepStep;
    assert w + k * TwoTo32 == SleepStep * (k * 42949673) + (w - 4 * k);
    Wrap32Shift(w, k);
  }

  /** No number of steps brings the wrapping counter above LapTop(MaxLap),
      so a larger ConnectSleepTime is never reached: that sleep ends only
      by cancellation. */
  lemma SleepNeverEnds(connectSleepTime: int, n: nat)
    requires connectSleepTime > LapTop(MaxLap)
    ensures Wrap32(n * SleepStep) < connectSleepTime
  {
    var x := n * SleepStep;
    Wrap32Congruent(x);
    var q := (x - Wrap32(x)) / TwoTo32;
    assert Wrap32(x) == 4 * (25 * n - q * 0x4000_0000);
  }

  /** Otherwise the sleep ends after a whole number of steps, at a
      counter value that reaches ConnectSleepTime ... */
  lemma SleepEndsAt(connectSleepTime: int)
    requires 0 < connectSleepTime <= LapTop(MaxLap)
    ensures SleptMs(connectSleepTime, false).Some?
    ensures var ms := SleptMs(connectSleepTime, false).value;
            ms % SleepStep == 0 && Wrap32(ms) >= connectSleepTime
  {
    SleepEndFacts(connectSleepTime);
  }

  /** ... and at no earlier step does the counter reach it. */
  lemma SleepNotEndedBefore(connectSleepTime: int, n: nat)
    requires 0 < connectSleepTime <= LapTop(MaxLap)
    requires n * SleepStep < SleptMs(connectSleepTime, false).value
    ensures Wrap32(n * SleepStep) < connectSleepTime
  {
    SleepEndFacts(connectSleepTime);
    var k := SleepLaps(connectSleepTime);
    var w := connectSleepTime + (4 * k - connectSleepTime) % SleepStep;
    var x := n * SleepStep;
    var v := Wrap32(x);
    Wrap32Congruent(x);
    var q := (x - v) / TwoTo32;
    assert x == v + q * TwoTo32;
    assert 0 <= q <= k;
    LapResidue(n, q);
    if q == k {
      assert (w - v) % SleepStep == 0 by {
        assert w - v == (w + k * TwoTo32) - x;
      }
    } else {
      BelowLapTop(v, q);
    }
  }

  /** After q wraps the counter is congruent to 4q modulo 100. */
  lemma LapResidue(n: nat, q: int)
    ensures (n * SleepStep - q * TwoTo32) % SleepStep == 4 * q % SleepStep
  {
    assert n * SleepStep - q * TwoTo32 == SleepStep * (n - 42949673 * q) + 4 * q;
  }

  /** LapTop(q) is the largest int32 congruent to 4q modulo 100. */
  lemma BelowLapTop(v: int, q: int)
    requires 0 <= q <= MaxLap && IsInt32(v) && v % SleepStep == 4 * q % SleepStep
    ensures v <= LapTop(q)
  {
    assert (LapTop(q) - v) % SleepStep == 0;
  }

  /** Where the sleep loop stops: its lap and counter are SleptMs's. */
  lemma SleepLoopEnd(connectSleepTime: int, waited: int, lap: int)
    requires 0 < connectSleepTime <= LapTop(MaxLap) && 0 <= lap <= MaxLap
    requires waited % SleepStep == 4 * lap % SleepStep
    requires connectSleepTime <= waited <= LapTop(lap) && waited < connectSleepTime + SleepStep
    requires lap > 0 ==> LapTop(lap - 1) < connectSleepTime
    ensures lap == SleepLaps(connectSleepTime)
    ensures waited == connectSleepTime + (4 * lap - connectSleepTime) % SleepStep
  {
  }

  /** The step's trace entry for its sleep. */
  function SleepEvents(ms: Option<int>): seq<Event>
  {
    match ms
    case None => [UnendingSleep]
    case Some(m) => if m > 0 then [Slept(m)] else []
  }

  // ---------------------------------------------------------------------------
  // One iteration, as functions of the fields and the trace before it.
  // Each follows the branches of the method it specifies.

  /** The fields and the trace, without `lastUpdate`. */
  datatype Traced = Traced(state: LoopState, events: seq<Event>)

  /** IsNullOrEmpty, negated. */
  predicate HasText(info: Option<string>)
  {
    info.Some? && |info.value| > 0
  }

  /** ProcessSessionInfoUpdate: a known driver id that differs from the
      player's car is replaced; non-empty text raises SessionInfoUpdated,
      and empty or null text asks for a retry. */
  function SessionInfoUpdate(s: LoopState, playerCarIdx: int, info: Option<string>, t: seq<Event>): Traced
  {
    var s1 := if s.driverId != -1 && s.driverId != playerCarIdx then s.(driverId := playerCarIdx) else s;
    if HasText(info) then Traced(s1, t + [OnSessionInfoUpdated(info.value)])
    else Traced(s1.(retrySessionInfoRetrieval := true), t)
  }

  /** The `!_isConnected` block of ProcessConnectedState: connecting after
      an earlier connection, or after seeing the memory file while
      connecting for the first time, re-attaches the sdk first. */
  function ConnectBlock(s: LoopState, o: Observation, t: seq<Event>): Traced
  {
    if s.isConnected then Traced(s, t)
    else
      var s1 := s.(isConnected := true);
      if s1.hasConnected || s1.initialConnectingWithMemoryExisting then
        Traced(s1.(memoryFileExists := o.startup, initialConnectingWithMemoryExisting := false),
               t + [Reattached] + [OnConnected])
      else Traced(s1, t + [OnConnected])
  }

  /** ProcessConnectedState up to its telemetry-time reads: the connect
      block, `_hasConnected`, and the driver id while it is -1. */
  function Attach(s: LoopState, o: Observation, t: seq<Event>): Traced
  {
    var a := ConnectBlock(s, o, t);
    var s2 := a.state.(hasConnected := true);
    Traced(if s2.driverId == -1 then s2.(driverId := o.playerCarIdx) else s2, a.events)
  }

  /** `_sdk.Header?.SessionInfoUpdate ?? lastUpdate`. */
  function NewUpdate(lastUpdate: int, o: Observation): int
  {
    if o.header.Some? then o.header.value.sessionInfoUpdate else lastUpdate
  }

  /** ProcessConnectedState, extending the trace t. */
  function ConnectedStep(s: LoopState, lastUpdate: int, o: Observation, t: seq<Event>): Outcome
  {
    var b := Attach(s, o, t);
    var t3 := b.events + [OnTelemetryUpdated];
    var newUpdate := NewUpdate(lastUpdate, o);
    if newUpdate != lastUpdate || b.state.retrySessionInfoRetrieval then
      var r := SessionInfoUpdate(b.state.(retrySessionInfoRetrieval := false), o.playerCarIdx, o.sessionInfo, t3);
      Outcome(r.state, newUpdate, r.events)
    else Outcome(b.state, lastUpdate, t3)
  }

  /** Whether ProcessConnectedState throws: the Connected handler only
      when the connect block raises it, the telemetry reads whenever. */
  predicate ConnectedThrows(s: LoopState, o: Observation)
  {
    match o.fault
    case NoFault => false
    case HandlerFault => !s.isConnected
    case PlayerCarIdxFault => true
    case TelemetryTimeFault => true
  }

  /** Where ProcessConnectedState leaves things when it throws: every
      change made before the throw stays, and `lastUpdate` is not yet
      touched. */
  function ConnectedFault(s: LoopState, lastUpdate: int, o: Observation, t: seq<Event>): Outcome
    requires ConnectedThrows(s, o)
  {
    if o.fault.HandlerFault? then
      var a := ConnectBlock(s, o, t);
      Outcome(a.state, lastUpdate, a.events)
    else if o.fault.PlayerCarIdxFault? then
      var a := ConnectBlock(s, o, t);
      Outcome(a.state.(hasConnected := true), lastUpdate, a.events)
    else
      var b := Attach(s, o, t);
      Outcome(b.state, lastUpdate, b.events)
  }

  /** Whether the connect block re-attaches the sdk. */
  predicate Reattaches(s: LoopState)
  {
    !s.isConnected && (s.hasConnected || s.initialConnectingWithMemoryExisting)
  }

  /** Whether the connected step refreshes the session info. */
  predicate Refreshes(s: LoopState, lastUpdate: int, o: Observation)
  {
    NewUpdate(lastUpdate, o) != lastUpdate || s.retrySessionInfoRetrieval
  }

  /** Whether a disconnected iteration had been connected. */
  predicate Disconnects(s: LoopState)
  {
    s.hasConnected && s.isConnected
  }

  /** Whether a disconnected iteration that does not disconnect raises
      Connecting after its Startup. */
  predicate RaisesConnecting(s: LoopState, o: Observation)
  {
    o.startup && (o.header.None? || o.header.value.varCount == 0) &&
    (!s.loggedFirstConnecting || s.hasConnected)
  }

  /** ProcessDisconnectedState up to its sleep: Disconnected when the
      wrapper had connected and thinks it still is; otherwise a Startup
      attempt, and Connecting when the memory file exists without
      variables, for the first time or after an earlier connection. */
  function DisconnectBlock(s: LoopState, lastUpdate: int, o: Observation, t: seq<Event>): Outcome
  {
    if s.hasConnected && s.isConnected then Outcome(s.(isConnected := false), -1, t + [OnDisconnected])
    else
      var s1 := s.(isConnected := false).(memoryFileExists := o.startup);
      var t1 := t + [StartupAttempted];
      var b := if s1.memoryFileExists && (o.header.None? || o.header.value.varCount == 0) &&
                  (!s1.loggedFirstConnecting || s1.hasConnected) then
                 var s2 := s1.(memoryFileExists := false, loggedFirstConnecting := true);
                 Traced(if !s2.hasConnected then s2.(initialConnectingWithMemoryExisting := true) else s2,
                        t1 + [OnConnecting])
               else Traced(s1, t1);
      Outcome(b.state.(loggedFirst := true), lastUpdate, b.events)
  }

  /** Whether ProcessDisconnectedState throws: only the handler of the
      Disconnected or Connecting event it raises can. */
  predicate DisconnectedThrows(s: LoopState, o: Observation)
  {
    o.fault.HandlerFault? && (Disconnects(s) || RaisesConnecting(s, o))
  }

  /** Where ProcessDisconnectedState leaves things when a handler throws:
      a Disconnected handler leaves `_isConnected` set and `lastUpdate`
      kept; a Connecting handler leaves the memory-file flag as Startup
      returned it and the logged flags unset. */
  function DisconnectedFault(s: LoopState, lastUpdate: int, o: Observation, t: seq<Event>): Outcome
    requires DisconnectedThrows(s, o)
  {
    if Disconnects(s) then Outcome(s, lastUpdate, t + [OnDisconnected])
    else Outcome(s.(isConnected := false, memoryFileExists := o.startup), lastUpdate,
                 t + [StartupAttempted] + [OnConnecting])
  }

  /** ProcessDisconnectedState, extending the trace t. */
  function DisconnectedStep(s: LoopState, lastUpdate: int, o: Observation, connectSleepTime: int, t: seq<Event>): Outcome
  {
    var a := DisconnectBlock(s, lastUpdate, o, t);
    a.(events := a.events + SleepEvents(SleptMs(connectSleepTime, o.cancelled)))
  }

  /** Whether the iteration's work throws. */
  predicate Throws(s: LoopState, o: Observation)
  {
    if o.simConnected then ConnectedThrows(s, o) else DisconnectedThrows(s, o)
  }

  /** Where an iteration that throws leaves things. */
  function FaultPoint(s: LoopState, lastUpdate: int, o: Observation, t: seq<Event>): Outcome
    requires Throws(s, o)
  {
    if o.simConnected then ConnectedFault(s, lastUpdate, o, t) else DisconnectedFault(s, lastUpdate, o, t)
  }

  /** Whether an iteration that does not throw gets past its sleep. */
  predicate SleepEnds(o: Observation, connectSleepTime: int)
  {
    o.simConnected || SleptMs(connectSleepTime, o.cancelled).Some?
  }

  /** The try block of one loop iteration that does not throw: the
      connected or disconnected step, then the tick delay, slept when the
      wrapper is connected after the step or the header's status is 1. */
  function IterationStep(s: LoopState, lastUpdate: int, o: Observation, waitTimeMs: int, connectSleepTime: int,
                         t: seq<Event>): Outcome
  {
    var out := if o.simConnected then ConnectedStep(s, lastUpdate, o, t)
               else DisconnectedStep(s, lastUpdate, o, connectSleepTime, t);
    if SleepEnds(o, connectSleepTime) && (out.state.isConnected || (o.header.Some? && o.header.value.status == 1))
    then out.(events := out.events + [Slept(TickDelay(waitTimeMs, o.elapsedMs))])
    else out
  }

  /** Where one pass of the while body leaves things: the outcome, the
      exception count, and whether the catch broke out of the loop. */
  datatype Pass = Pass(out: Outcome, tries: int, broke: bool)

  /** One pass of the while body: the try block, or, where it throws, the
      catch, which counts the exception, logs it below the limit and
      writes the crash report and breaks at it. */
  function LoopPass(s: LoopState, lastUpdate: int, tries: int, o: Observation, waitTimeMs: int, connectSleepTime: int,
                    t: seq<Event>): Pass
  {
    if !Throws(s, o) then Pass(IterationStep(s, lastUpdate, o, waitTimeMs, connectSleepTime, t), tries, false)
    else
      var f := FaultPoint(s, lastUpdate, o, t);
      if tries + 1 < MaxTries then Pass(f.(events := f.events + [ErrorLogged]), tries + 1, false)
      else Pass(f.(events := f.events + [CrashReport]), tries + 1, true)
  }

  /** Whether a pass stays in its disconnected sleep for good. */
  predicate Stalls(s: LoopState, o: Observation, connectSleepTime: int)
  {
    !Throws(s, o) && !SleepEnds(o, connectSleepTime)
  }

  /** The loop from observation i on, with `lastUpdate`, `tries` and the
      trace as they are. It leaves its `while` at the crash break (which,
      without cancellation, goes on to shut the sdk down) and after an
      iteration during which cancellation was requested. It is followed no
      further into a sleep that never ends, nor past the observations. */
  function RunFrom(s: LoopState, lastUpdate: int, tries: int, obs: seq<Observation>, i: nat,
                   waitTimeMs: int, connectSleepTime: int, t: seq<Event>): RunEnd
    decreases |obs| - i
  {
    if i >= |obs| then RunEnd(s, t, false, false)
    else
      var p := LoopPass(s, lastUpdate, tries, obs[i], waitTimeMs, connectSleepTime, t);
      if p.broke then RunEnd(p.out.state, p.out.events, true, !obs[i].cancelled)
      else if Stalls(s, obs[i], connectSleepTime) then RunEnd(p.out.state, p.out.events, false, false)
      else if obs[i].cancelled then RunEnd(p.out.state, p.out.events, true, false)
      else RunFrom(p.out.state, p.out.lastUpdate, p.tries, obs, i + 1, waitTimeMs, connectSleepTime, p.out.events)
  }

  // ---------------------------------------------------------------------------
  // Properties of one iteration

  lemma CountSnoc(e: Event, t: seq<Event>, x: Event)
    ensures Count(e, t + [x]) == Count(e, t) + (if x == e then 1 else 0)
  {
    CountAppend(e, t, [x]);
  }

  lemma CountSleep(e: Event, ms: Option<int>)
    ensures Count(e, SleepEvents(ms)) == (if e in SleepEvents(ms) then 1 else 0)
  {
    var u := SleepEvents(ms);
    if u != [] {
      assert u[1..] == [];
    }
  }

  /** ProcessSessionInfoUpdate, field by field: the driver id becomes the
      player's car unless it is -1 or already that car; text that is
      neither null nor empty is raised with SessionInfoUpdated, and
      anything else sets the retry flag. Nothing else changes. */
  lemma SessionInfoUpdateEffect(s: LoopState, playerCarIdx: int, info: Option<string>, t: seq<Event>)
    ensures var r := SessionInfoUpdate(s, playerCarIdx, info, t);
            r.state == s.(driverId := if s.driverId != -1 && s.driverId != playerCarIdx then playerCarIdx else s.driverId,
                          retrySessionInfoRetrieval := s.retrySessionInfoRetrieval || !HasText(info)) &&
            r.events == t + (if HasText(info) then [OnSessionInfoUpdated(info.value)] else [])
  {
    if !HasText(info) {
      assert t + [] == t;
    }
  }

  /** The `!_isConnected` block, field by field and in its trace: it
      sets `_isConnected`; a re-attach takes the memory-file flag from
      Startup and clears the first-connection flag; Connected is raised
      after the re-attach. */
  lemma ConnectBlockEffect(s: LoopState, o: Observation, t: seq<Event>)
    ensures var a := ConnectBlock(s, o, t);
            a.state == s.(isConnected := true,
                          memoryFileExists := if Reattaches(s) then o.startup else s.memoryFileExists,
                          initialConnectingWithMemoryExisting := s.initialConnectingWithMemoryExisting && s.isConnected) &&
            a.events == (if s.isConnected then t else if Reattaches(s) then t + [Reattached] + [OnConnected]
                         else t + [OnConnected])
  {
  }

  /** ProcessConnectedState, field by field: both connection flags end up
      set; a re-attach takes the memory-file flag from Startup; the
      first-connection flag survives only an iteration that was already
      connected; the driver id takes PlayerCarIdx while it is -1 and on
      every session-info refresh; the retry flag ends up set iff a refresh
      found no text. A refresh happens iff the header's counter moved or a
      retry was pending, and takes the counter as `lastUpdate`. */
  lemma ConnectedStepEffect(s: LoopState, lastUpdate: int, o: Observation, t: seq<Event>)
    ensures var out := ConnectedStep(s, lastUpdate, o, t);
            out.state == s.(isConnected := true, hasConnected := true,
                            memoryFileExists := if Reattaches(s) then o.startup else s.memoryFileExists,
                            initialConnectingWithMemoryExisting := s.initialConnectingWithMemoryExisting && s.isConnected,
                            driverId := if s.driverId == -1 || Refreshes(s, lastUpdate, o) then o.playerCarIdx else s.driverId,
                            retrySessionInfoRetrieval := Refreshes(s, lastUpdate, o) && !HasText(o.sessionInfo)) &&
            out.lastUpdate == (if Refreshes(s, lastUpdate, o) then NewUpdate(lastUpdate, o) else lastUpdate)
  {
    ConnectBlockEffect(s, o, t);
    var b := Attach(s, o, t);
    SessionInfoUpdateEffect(b.state.(retrySessionInfoRetrieval := false), o.playerCarIdx, o.sessionInfo, b.events + [OnTelemetryUpdated]);
  }

  /** The trace of ProcessConnectedState: the `!_isConnected` block's,
      then TelemetryUpdated, then SessionInfoUpdated on a refresh that
      finds text. */
  lemma ConnectedStepTrace(s: LoopState, lastUpdate: int, o: Observation, t: seq<Event>)
    ensures var t3 := ConnectBlock(s, o, t).events + [OnTelemetryUpdated];
            ConnectedStep(s, lastUpdate, o, t).events ==
              (if Refreshes(s, lastUpdate, o) && HasText(o.sessionInfo) then t3 + [OnSessionInfoUpdated(o.sessionInfo.value)]
               else t3)
  {
    ConnectBlockEffect(s, o, t);
    var b := Attach(s, o, t);
    SessionInfoUpdateEffect(b.state.(retrySessionInfoRetrieval := false), o.playerCarIdx, o.sessionInfo, b.events + [OnTelemetryUpdated]);
  }

  /** ProcessDisconnectedState up to its sleep, field by field and in its
      trace. */
  lemma DisconnectBlockEffect(s: LoopState, lastUpdate: int, o: Observation, t: seq<Event>)
    ensures var out := DisconnectBlock(s, lastUpdate, o, t);
            var c := RaisesConnecting(s, o);
            out.state == (if Disconnects(s) then s.(isConnected := false)
                          else s.(isConnected := false, memoryFileExists := o.startup && !c,
                                  loggedFirstConnecting := s.loggedFirstConnecting || c,
                                  initialConnectingWithMemoryExisting :=
                                    s.initialConnectingWithMemoryExisting || (c && !s.hasConnected),
                                  loggedFirst := true)) &&
            out.lastUpdate == (if Disconnects(s) then -1 else lastUpdate) &&
            out.events == (if Disconnects(s) then t + [OnDisconnected]
                           else if c then t + [StartupAttempted] + [OnConnecting] else t + [StartupAttempted])
  {
  }

  /** ProcessDisconnectedState, field by field: `_isConnected` is cleared;
      a disconnection forgets `lastUpdate` and changes nothing else;
      otherwise the memory-file flag takes what Startup returned unless
      Connecting is raised, which clears it and sets the logged flag (and,
      before any connection, the first-connection flag), and the first
      iteration is logged. */
  lemma DisconnectedStepEffect(s: LoopState, lastUpdate: int, o: Observation, connectSleepTime: int, t: seq<Event>)
    ensures var out := DisconnectedStep(s, lastUpdate, o, connectSleepTime, t);
            var c := RaisesConnecting(s, o);
            out.state == (if Disconnects(s) then s.(isConnected := false)
                          else s.(isConnected := false, memoryFileExists := o.startup && !c,
                                  loggedFirstConnecting := s.loggedFirstConnecting || c,
                                  initialConnectingWithMemoryExisting :=
                                    s.initialConnectingWithMemoryExisting || (c && !s.hasConnected),
                                  loggedFirst := true)) &&
            out.lastUpdate == (if Disconnects(s) then -1 else lastUpdate)
  {
    DisconnectBlockEffect(s, lastUpdate, o, t);
  }

  /** What a connected step adds to the trace, counted per event: a
      re-attach, Connected on connecting, TelemetryUpdated always, and
      SessionInfoUpdated with the text on a refresh that finds some. */
  lemma CountConnectedStep(e: Event, s: LoopState, lastUpdate: int, o: Observation, t: seq<Event>)
    ensures Count(e, ConnectedStep(s, lastUpdate, o, t).events) == Count(e, t) +
              (if e == Reattached && Reattaches(s) then 1 else 0) +
              (if e == OnConnected && !s.isConnected then 1 else 0) +
              (if e == OnTelemetryUpdated then 1 else 0) +
              (if Refreshes(s, lastUpdate, o) && HasText(o.sessionInfo) && e == OnSessionInfoUpdated(o.sessionInfo.value)
               then 1 else 0)
  {
    ConnectBlockEffect(s, o, t);
    ConnectedStepTrace(s, lastUpdate, o, t);
    CountSnoc(e, t, Reattached);
    CountSnoc(e, t + [Reattached], OnConnected);
    CountSnoc(e, t, OnConnected);
    var t3 := ConnectBlock(s, o, t).events;
    CountSnoc(e, t3, OnTelemetryUpdated);
    if HasText(o.sessionInfo) {
      CountSnoc(e, t3 + [OnTelemetryUpdated], OnSessionInfoUpdated(o.sessionInfo.value));
    }
  }

  /** What a disconnected step adds to the trace, counted per event:
      Disconnected when it disconnects, otherwise the Startup call and
      perhaps Connecting; then the sleep. */
  lemma CountDisconnectedStep(e: Event, s: LoopState, lastUpdate: int, o: Observation, connectSleepTime: int, t: seq<Event>)
    ensures Count(e, DisconnectedStep(s, lastUpdate, o, connectSleepTime, t).events) == Count(e, t) +
              (if e == OnDisconnected && Disconnects(s) then 1 else 0) +
              (if e == StartupAttempted && !Disconnects(s) then 1 else 0) +
              (if e == OnConnecting && !Disconnects(s) && RaisesConnecting(s, o) then 1 else 0) +
              (if e in SleepEvents(SleptMs(connectSleepTime, o.cancelled)) then 1 else 0)
  {
    CountSleep(e, SleptMs(connectSleepTime, o.cancelled));
    DisconnectBlockEffect(s, lastUpdate, o, t);
    CountSnoc(e, t, OnDisconnected);
    CountSnoc(e, t, StartupAttempted);
    CountSnoc(e, t + [StartupAttempted], OnConnecting);
    CountAppend(e, DisconnectBlock(s, lastUpdate, o, t).events, SleepEvents(SleptMs(connectSleepTime, o.cancelled)));
  }

  /** Connected is raised exactly when `_isConnected` goes from false to
      true, once; the connected path raises no Disconnected, and the
      wrapper reports itself connected iff the driver id is known. */
  lemma ConnectedOnTransition(s: LoopState, lastUpdate: int, o: Observation, t: seq<Event>)
    ensures var out := ConnectedStep(s, lastUpdate, o, t);
            Count(OnConnected, out.events) == Count(OnConnected, t) + (if s.isConnected then 0 else 1) &&
            Count(OnDisconnected, out.events) == Count(OnDisconnected, t) &&
            (Reported(out.state) <==> out.state.driverId > -1)
  {
    CountConnectedStep(OnConnected, s, lastUpdate, o, t);
    CountConnectedStep(OnDisconnected, s, lastUpdate, o, t);
    ConnectedStepEffect(s, lastUpdate, o, t);
  }

  /** Re-attaching the sdk (Shutdown then Startup) happens exactly on
      connecting after an earlier connection or after seeing the memory
      file while connecting for the first time. */
  lemma ReattachOnConnect(s: LoopState, lastUpdate: int, o: Observation, t: seq<Event>)
    ensures Count(Reattached, ConnectedStep(s, lastUpdate, o, t).events) ==
              Count(Reattached, t) + (if !s.isConnected && (s.hasConnected || s.initialConnectingWithMemoryExisting) then 1 else 0)
  {
    CountConnectedStep(Reattached, s, lastUpdate, o, t);
  }

  /** Disconnected is raised exactly when the wrapper had connected and
      thinks it still is; the disconnected path never raises Connected and
      leaves the wrapper reporting itself disconnected. */
  lemma DisconnectedOnTransition(s: LoopState, lastUpdate: int, o: Observation, connectSleepTime: int, t: seq<Event>)
    ensures var out := DisconnectedStep(s, lastUpdate, o, connectSleepTime, t);
            Count(OnDisconnected, out.events) == Count(OnDisconnected, t) + (if s.hasConnected && s.isConnected then 1 else 0) &&
            Count(OnConnected, out.events) == Count(OnConnected, t) &&
            !Reported(out.state)
  {
    CountDisconnectedStep(OnDisconnected, s, lastUpdate, o, connectSleepTime, t);
    CountDisconnectedStep(OnConnected, s, lastUpdate, o, connectSleepTime, t);
    DisconnectedStepEffect(s, lastUpdate, o, connectSleepTime, t);
  }

  /** SessionInfoUpdated is raised, with the text, exactly on a refresh
      that reads non-empty text. */
  lemma SessionInfoRefreshRule(s: LoopState, lastUpdate: int, o: Observation, t: seq<Event>, info: string)
    ensures Count(OnSessionInfoUpdated(info), ConnectedStep(s, lastUpdate, o, t).events) ==
              Count(OnSessionInfoUpdated(info), t) +
              (if (NewUpdate(lastUpdate, o) != lastUpdate || s.retrySessionInfoRetrieval) &&
                  o.sessionInfo == Some(info) && |info| > 0 then 1 else 0)
  {
    CountConnectedStep(OnSessionInfoUpdated(info), s, lastUpdate, o, t);
  }

  /** Connecting is raised by a disconnected iteration that does not
      disconnect iff the memory file exists, the header is missing or has
      no variables, and this is the first time or the wrapper had
      connected before. */
  lemma ConnectingRule(s: LoopState, lastUpdate: int, o: Observation, connectSleepTime: int, t: seq<Event>)
    ensures Count(OnConnecting, DisconnectedStep(s, lastUpdate, o, connectSleepTime, t).events) ==
              Count(OnConnecting, t) +
              (if !(s.hasConnected && s.isConnected) && o.startup && (o.header.None? || o.header.value.varCount == 0) &&
                  (!s.loggedFirstConnecting || s.hasConnected) then 1 else 0)
  {
    CountDisconnectedStep(OnConnecting, s, lastUpdate, o, connectSleepTime, t);
  }

  predicate IsTransition(e: Event) { e.OnConnected? || e.OnDisconnected? }

  /** The Connected and Disconnected events of a trace, in order. */
  function Transitions(es: seq<Event>): seq<Event>
  {
    if es == [] then [] else (if IsTransition(es[0]) then [es[0]] else []) + Transitions(es[1..])
  }

  lemma {:induction false} TransitionsAppend(a: seq<Event>, b: seq<Event>)
    ensures Transitions(a + b) == Transitions(a) + Transitions(b)
  {
    if a == [] {
      assert a + b == b;
    } else {
      assert (a + b)[0] == a[0];
      assert (a + b)[1..] == a[1..] + b;
      TransitionsAppend(a[1..], b);
      var x := if IsTransition(a[0]) then [a[0]] else [];
      assert Transitions(a + b) == x + Transitions(a[1..] + b);
      EventsAssociate(x, Transitions(a[1..]), Transitions(b));
    }
  }

  lemma EventsAssociate(a: seq<Event>, b: seq<Event>, c: seq<Event>)
    ensures (a + b) + c == a + (b + c)
  {
  }

  lemma TransitionsSnoc(t: seq<Event>, x: Event)
    ensures Transitions(t + [x]) == Transitions(t) + (if IsTransition(x) then [x] else [])
  {
    TransitionsAppend(t, [x]);
  }

  /** The connect block adds a Connected transition exactly when it connects. */
  lemma TransitionsOfConnect(t: seq<Event>, ev: seq<Event>, connected: bool, reattach: bool)
    requires ev == (if connected then t else if reattach then t + [Reattached] + [OnConnected] else t + [OnConnected])
    ensures Transitions(ev) == Transitions(t) + (if connected then [] else [OnConnected])
  {
    if !connected {
      if reattach {
        TransitionsSnoc(t, Reattached);
        TransitionsSnoc(t + [Reattached], OnConnected);
      } else {
        TransitionsSnoc(t, OnConnected);
      }
    }
  }

  /** The telemetry and session-info events are no transitions. */
  lemma TransitionsOfUpdates(t3: seq<Event>, ev: seq<Event>, refresh: bool, info: string)
    requires ev == (if refresh then t3 + [OnTelemetryUpdated] + [OnSessionInfoUpdated(info)] else t3 + [OnTelemetryUpdated])
    ensures Transitions(ev) == Transitions(t3)
  {
    TransitionsSnoc(t3, OnTelemetryUpdated);
    if refresh {
      TransitionsSnoc(t3 + [OnTelemetryUpdated], OnSessionInfoUpdated(info));
    }
  }

  /** The only transition a connected step adds is Connected, on connecting. */
  lemma TransitionsConnectedStep(s: LoopState, lastUpdate: int, o: Observation, t: seq<Event>)
    ensures Transitions(ConnectedStep(s, lastUpdate, o, t).events) ==
              Transitions(t) + (if s.isConnected then [] else [OnConnected])
  {
    ConnectBlockEffect(s, o, t);
    ConnectedStepTrace(s, lastUpdate, o, t);
    var t3 := ConnectBlock(s, o, t).events;
    TransitionsOfConnect(t, t3, s.isConnected, Reattaches(s));
    var refresh := Refreshes(s, lastUpdate, o) && HasText(o.sessionInfo);
    TransitionsOfUpdates(t3, ConnectedStep(s, lastUpdate, o, t).events, refresh,
                         if refresh then o.sessionInfo.value else "");
  }

  /** The only transition a disconnected step adds is Disconnected, when it
      disconnects. */
  lemma TransitionsDisconnectedStep(s: LoopState, lastUpdate: int, o: Observation, connectSleepTime: int, t: seq<Event>)
    ensures Transitions(DisconnectedStep(s, lastUpdate, o, connectSleepTime, t).events) ==
              Transitions(t) + (if Disconnects(s) then [OnDisconnected] else [])
  {
    DisconnectBlockEffect(s, lastUpdate, o, t);
    TransitionsSnoc(t, OnDisconnected);
    TransitionsSnoc(t, StartupAttempted);
    TransitionsSnoc(t + [StartupAttempted], OnConnecting);
    var sleep := SleepEvents(SleptMs(connectSleepTime, o.cancelled));
    TransitionsAppend(DisconnectBlock(s, lastUpdate, o, t).events, sleep);
    assert Transitions(sleep) == [] by {
      if sleep != [] {
        assert sleep[1..] == [];
      }
    }
  }

  /** The Connected and Disconnected events of an iteration are exactly the
      changes of `_isConnected`, which afterwards follows the sim. */
  lemma IterationTracksConnection(s: LoopState, lastUpdate: int, o: Observation, waitTimeMs: int, connectSleepTime: int,
                                  t: seq<Event>)
    requires s.isConnected ==> s.hasConnected
    ensures var out := IterationStep(s, lastUpdate, o, waitTimeMs, connectSleepTime, t);
            (out.state.isConnected ==> out.state.hasConnected) &&
            out.state.isConnected == o.simConnected &&
            Transitions(out.events) == Transitions(t) +
              (if s.isConnected == o.simConnected then []
               else if o.simConnected then [OnConnected] else [OnDisconnected])
  {
    var step := if o.simConnected then ConnectedStep(s, lastUpdate, o, t)
                else DisconnectedStep(s, lastUpdate, o, connectSleepTime, t);
    TransitionsSnoc(step.events, Slept(TickDelay(waitTimeMs, o.elapsedMs)));
    if o.simConnected {
      ConnectedStepEffect(s, lastUpdate, o, t);
      TransitionsConnectedStep(s, lastUpdate, o, t);
    } else {
      DisconnectedStepEffect(s, lastUpdate, o, connectSleepTime, t);
      TransitionsDisconnectedStep(s, lastUpdate, o, connectSleepTime, t);
    }
  }

  /** Connected and Disconnected alternate, the first one leaving the state
      `connected`. */
  predicate Alternates(ts: seq<Event>, connected: bool)
  {
    forall k :: 0 <= k < |ts| ==> ts[k] == (if (k % 2 == 0) == connected then OnDisconnected else OnConnected)
  }

  /** Extending alternating transitions by the change of the connection
      state keeps them alternating and in step with that state. */
  lemma AlternatesStep(ts: seq<Event>, start: bool, was: bool, now: bool)
    requires Alternates(ts, start) && was == ((|ts| % 2 == 0) == start)
    ensures var next := ts + (if was == now then [] else if now then [OnConnected] else [OnDisconnected]);
            Alternates(next, start) && now == ((|next| % 2 == 0) == start)
  {
    if was == now {
      assert ts + [] == ts;
    } else {
      var next := ts + (if now then [OnConnected] else [OnDisconnected]);
      forall k | 0 <= k < |next|
        ensures next[k] == (if (k % 2 == 0) == start then OnDisconnected else OnConnected)
      {
        if k < |ts| {
          assert next[k] == ts[k];
        }
      }
    }
  }

  // ---------------------------------------------------------------------------
  // Properties of a run

  /** The number of exceptions the loop sees from observation i on: those
      up to and including the first iteration during which cancellation is
      requested, or the sleep that never ends. Whether an iteration throws
      depends on the fields the earlier ones left. */
  function FaultsUntilStop(s: LoopState, lastUpdate: int, obs: seq<Observation>, i: nat, waitTimeMs: int,
                           connectSleepTime: int): nat
    decreases |obs| - i
  {
    if i >= |obs| then 0
    else
      var o := obs[i];
      var p := LoopPass(s, lastUpdate, 0, o, waitTimeMs, connectSleepTime, []);
      (if Throws(s, o) then 1 else 0) +
      (if o.cancelled || Stalls(s, o, connectSleepTime) then 0
       else FaultsUntilStop(p.out.state, p.out.lastUpdate, obs, i + 1, waitTimeMs, connectSleepTime))
  }

  /** Appending events other than e leaves its count alone. */
  lemma CountOthers(e: Event, t: seq<Event>, u: seq<Event>)
    requires e !in u
    ensures Count(e, t + u) == Count(e, t)
  {
    CountAppend(e, t, u);
    CountAbsent(e, u);
  }

  /** An iteration that throws raises Connected exactly on connecting and
      Disconnected exactly on disconnecting, as one that does not throw,
      and logs nothing itself. But a throwing Connected handler leaves
      `_isConnected` set without `_hasConnected`, and a throwing
      Disconnected handler leaves `_isConnected` set. */
  lemma FaultTracksConnection(s: LoopState, lastUpdate: int, o: Observation, t: seq<Event>)
    requires Throws(s, o)
    ensures var f := FaultPoint(s, lastUpdate, o, t);
            f.lastUpdate == lastUpdate &&
            f.state.isConnected == (o.simConnected || Disconnects(s)) &&
            f.state.hasConnected == (s.hasConnected || (o.simConnected && !o.fault.HandlerFault?)) &&
            Transitions(f.events) == Transitions(t) +
              (if o.simConnected then (if s.isConnected then [] else [OnConnected])
               else if Disconnects(s) then [OnDisconnected] else []) &&
            Count(ErrorLogged, f.events) == Count(ErrorLogged, t) &&
            Count(CrashReport, f.events) == Count(CrashReport, t)
  {
    var f := FaultPoint(s, lastUpdate, o, t);
    var u: seq<Event>;
    if o.simConnected {
      ConnectBlockEffect(s, o, t);
      TransitionsOfConnect(t, f.events, s.isConnected, Reattaches(s));
      u := if s.isConnected then [] else if Reattaches(s) then [Reattached, OnConnected] else [OnConnected];
    } else if Disconnects(s) {
      TransitionsSnoc(t, OnDisconnected);
      u := [OnDisconnected];
    } else {
      TransitionsSnoc(t, StartupAttempted);
      TransitionsSnoc(t + [StartupAttempted], OnConnecting);
      u := [StartupAttempted, OnConnecting];
    }
    assert f.events == t + u;
    CountOthers(ErrorLogged, t, u);
    CountOthers(CrashReport, t, u);
  }

  /** A pass logs an error iff it throws below the limit, and writes the
      crash report, breaking, iff it throws at the limit; only an exception
      counts. */
  lemma PassLogs(s: LoopState, lastUpdate: int, tries: int, o: Observation, waitTimeMs: int, connectSleepTime: int,
                 t: seq<Event>)
    ensures var p := LoopPass(s, lastUpdate, tries, o, waitTimeMs, connectSleepTime, t);
            var thrown := Throws(s, o);
            Count(ErrorLogged, p.out.events) == Count(ErrorLogged, t) + (if thrown && tries + 1 < MaxTries then 1 else 0) &&
            Count(CrashReport, p.out.events) == Count(CrashReport, t) + (if p.broke then 1 else 0) &&
            (p.broke <==> thrown && tries + 1 >= MaxTries) &&
            p.tries == (if thrown then tries + 1 else tries)
  {
    if Throws(s, o) {
      var f := FaultPoint(s, lastUpdate, o, t);
      FaultTracksConnection(s, lastUpdate, o, t);
      CountSnoc(ErrorLogged, f.events, ErrorLogged);
      CountSnoc(CrashReport, f.events, ErrorLogged);
      CountSnoc(ErrorLogged, f.events, CrashReport);
      CountSnoc(CrashReport, f.events, CrashReport);
    } else {
      var step := if o.simConnected then ConnectedStep(s, lastUpdate, o, t)
                  else DisconnectedStep(s, lastUpdate, o, connectSleepTime, t);
      if o.simConnected {
        CountConnectedStep(ErrorLogged, s, lastUpdate, o, t);
        CountConnectedStep(CrashReport, s, lastUpdate, o, t);
      } else {
        CountDisconnectedStep(ErrorLogged, s, lastUpdate, o, connectSleepTime, t);
        CountDisconnectedStep(CrashReport, s, lastUpdate, o, connectSleepTime, t);
      }
      CountSnoc(ErrorLogged, step.events, Slept(TickDelay(waitTimeMs, o.elapsedMs)));
      CountSnoc(CrashReport, step.events, Slept(TickDelay(waitTimeMs, o.elapsedMs)));
    }
  }

  /** Where a pass leaves the fields and `lastUpdate` depends on neither
      the exception count nor the trace before it. */
  lemma PassStateIgnoresTrace(s: LoopState, lastUpdate: int, tries: int, o: Observation, waitTimeMs: int,
                              connectSleepTime: int, t: seq<Event>)
    ensures var p := LoopPass(s, lastUpdate, tries, o, waitTimeMs, connectSleepTime, t);
            var q := LoopPass(s, lastUpdate, 0, o, waitTimeMs, connectSleepTime, []);
            p.out.state == q.out.state && p.out.lastUpdate == q.out.lastUpdate
  {
    if Throws(s, o) {
      ConnectBlockEffect(s, o, t);
      ConnectBlockEffect(s, o, []);
    } else if o.simConnected {
      ConnectedStepEffect(s, lastUpdate, o, t);
      ConnectedStepEffect(s, lastUpdate, o, []);
    } else {
      DisconnectedStepEffect(s, lastUpdate, o, connectSleepTime, t);
      DisconnectedStepEffect(s, lastUpdate, o, connectSleepTime, []);
    }
  }

  /** `tries` is never reset: the loop writes its crash report iff it sees
      five exceptions before it stops, and then only one; until then it
      logs every exception; only the crash break shuts the sdk down. */
  lemma {:induction false} CrashOnFifthFault(s: LoopState, lastUpdate: int, tries: int, obs: seq<Observation>, i: nat,
                                             waitTimeMs: int, connectSleepTime: int, t: seq<Event>)
    requires 0 <= tries < MaxTries
    ensures var end := RunFrom(s, lastUpdate, tries, obs, i, waitTimeMs, connectSleepTime, t);
            var faults := FaultsUntilStop(s, lastUpdate, obs, i, waitTimeMs, connectSleepTime);
            var crashed := faults >= MaxTries - tries;
            Count(CrashReport, end.events) == Count(CrashReport, t) + (if crashed then 1 else 0) &&
            (end.shutDown ==> crashed) &&
            (!crashed ==> Count(ErrorLogged, end.events) == Count(ErrorLogged, t) + faults)
    decreases |obs| - i
  {
    if i < |obs| {
      var p := LoopPass(s, lastUpdate, tries, obs[i], waitTimeMs, connectSleepTime, t);
      PassLogs(s, lastUpdate, tries, obs[i], waitTimeMs, connectSleepTime, t);
      PassStateIgnoresTrace(s, lastUpdate, tries, obs[i], waitTimeMs, connectSleepTime, t);
      if !p.broke && !Stalls(s, obs[i], connectSleepTime) && !obs[i].cancelled {
        CrashOnFifthFault(p.out.state, p.out.lastUpdate, p.tries, obs, i + 1, waitTimeMs, connectSleepTime, p.out.events);
      }
    }
  }

  /** One pass of the loop whose handlers do not throw keeps the
      transitions alternating and in step with the connection state. */
  lemma PassAlternates(s: LoopState, lastUpdate: int, tries: int, o: Observation, waitTimeMs: int,
                       connectSleepTime: int, t: seq<Event>, start: bool)
    requires !o.fault.HandlerFault?
    requires s.isConnected ==> s.hasConnected
    requires Alternates(Transitions(t), start)
    requires s.isConnected == ((|Transitions(t)| % 2 == 0) == start)
    ensures var p := LoopPass(s, lastUpdate, tries, o, waitTimeMs, connectSleepTime, t);
            (p.out.state.isConnected ==> p.out.state.hasConnected) &&
            Alternates(Transitions(p.out.events), start) &&
            p.out.state.isConnected == ((|Transitions(p.out.events)| % 2 == 0) == start)
  {
    if Throws(s, o) {
      var f := FaultPoint(s, lastUpdate, o, t);
      FaultTracksConnection(s, lastUpdate, o, t);
      TransitionsSnoc(f.events, ErrorLogged);
      TransitionsSnoc(f.events, CrashReport);
      AlternatesStep(Transitions(t), start, s.isConnected, true);
    } else {
      IterationTracksConnection(s, lastUpdate, o, waitTimeMs, connectSleepTime, t);
      AlternatesStep(Transitions(t), start, s.isConnected, o.simConnected);
    }
  }

  /** While no handler throws, Connected and Disconnected alternate over a
      run: each is raised once per change of the sim's connection state.
      The trace so far ends in the state `s` says. */
  lemma {:induction false} TransitionsAlternate(s: LoopState, lastUpdate: int, tries: int, obs: seq<Observation>, i: nat,
                                                waitTimeMs: int, connectSleepTime: int, t: seq<Event>, start: bool)
    requires forall k :: i <= k < |obs| ==> !obs[k].fault.HandlerFault?
    requires s.isConnected ==> s.hasConnected
    requires Alternates(Transitions(t), start)
    requires s.isConnected == ((|Transitions(t)| % 2 == 0) == start)
    ensures Alternates(Transitions(RunFrom(s, lastUpdate, tries, obs, i, waitTimeMs, connectSleepTime, t).events), start)
    decreases |obs| - i
  {
    if i < |obs| {
      var o := obs[i];
      var p := LoopPass(s, lastUpdate, tries, o, waitTimeMs, connectSleepTime, t);
      PassAlternates(s, lastUpdate, tries, o, waitTimeMs, connectSleepTime, t, start);
      if !p.broke && !Stalls(s, o, connectSleepTime) && !o.cancelled {
        TransitionsAlternate(p.out.state, p.out.lastUpdate, p.tries, obs, i + 1, waitTimeMs, connectSleepTime,
                             p.out.events, start);
      }
    }
  }

  /** A Disconnected handler that throws leaves `_isConnected` set, so the
      next disconnected iteration raises Disconnected again and the
      transitions stop alternating. */
  lemma DisconnectedTwice()
    ensures var s := LoopState(true, true, 0, false, true, true, false, false);
            var o := Observation(false, false, None, 0, None, 0, NoFault, false);
            var end := RunFrom(s, 5, 0, [o.(fault := HandlerFault), o.(cancelled := true)], 0, 6, 0, [OnConnected]);
            Transitions(end.events) == [OnConnected, OnDisconnected, OnDisconnected] &&
            !Alternates(Transitions(end.events), false) && !Alternates(Transitions(end.events), true)
  {
    var s := LoopState(true, true, 0, false, true, true, false, false);
    var o := Observation(false, false, None, 0, None, 0, NoFault, false);
    var obs := [o.(fault := HandlerFault), o.(cancelled := true)];
    var p := LoopPass(s, 5, 0, obs[0], 6, 0, [OnConnected]);
    assert p.out == Outcome(s, 5, [OnConnected, OnDisconnected, ErrorLogged]) && p.tries == 1;
    var q := LoopPass(s, 5, 1, obs[1], 6, 0, p.out.events);
    assert q.out.events == [OnConnected, OnDisconnected, ErrorLogged, OnDisconnected];
    assert RunFrom(s, 5, 1, obs, 1, 6, 0, p.out.events) == RunEnd(q.out.state, q.out.events, true, false);
    var end := RunFrom(s, 5, 0, obs, 0, 6, 0, [OnConnected]);
    assert end.events == q.out.events;
    var e0: seq<Event> := [];
    var e1 := e0 + [OnConnected];
    var e2 := e1 + [OnDisconnected];
    var e3 := e2 + [ErrorLogged];
    var e4 := e3 + [OnDisconnected];
    assert end.events == e4;
    TransitionsSnoc(e0, OnConnected);
    TransitionsSnoc(e1, OnDisconnected);
    TransitionsSnoc(e2, ErrorLogged);
    TransitionsSnoc(e3, OnDisconnected);
    var ts := Transitions(end.events);
    assert ts == [OnConnected, OnDisconnected, OnDisconnected];
    assert ts[0] == OnConnected && ts[2] == OnDisconnected;
  }

  /** A disconnected pass before the first connection whose handler does
      not throw raises Connecting at most once, only if it was never
      raised, and records that it was. */
  lemma ConnectingStepBeforeConnection(s: LoopState, lastUpdate: int, tries: int, o: Observation, waitTimeMs: int,
                                       connectSleepTime: int, t: seq<Event>)
    requires !s.hasConnected && !o.simConnected && !o.fault.HandlerFault?
    ensures var p := LoopPass(s, lastUpdate, tries, o, waitTimeMs, connectSleepTime, t);
            var added := Count(OnConnecting, p.out.events) - Count(OnConnecting, t);
            0 <= added <= (if s.loggedFirstConnecting then 0 else 1) &&
            (added == 1 ==> p.out.state.loggedFirstConnecting) &&
            (s.loggedFirstConnecting ==> p.out.state.loggedFirstConnecting) &&
            !p.out.state.hasConnected
  {
    var step := DisconnectedStep(s, lastUpdate, o, connectSleepTime, t);
    ConnectingRule(s, lastUpdate, o, connectSleepTime, t);
    DisconnectedStepEffect(s, lastUpdate, o, connectSleepTime, t);
    CountSnoc(OnConnecting, step.events, Slept(TickDelay(waitTimeMs, o.elapsedMs)));
  }

  /** Before the wrapper first connects, and while no handler throws,
      Connecting is raised at most once. */
  lemma {:induction false} ConnectingOnceBeforeConnection(s: LoopState, lastUpdate: int, tries: int, obs: seq<Observation>, i: nat,
                                                          waitTimeMs: int, connectSleepTime: int, t: seq<Event>)
    requires !s.hasConnected
    requires forall k :: i <= k < |obs| ==> !obs[k].simConnected && !obs[k].fault.HandlerFault?
    ensures Count(OnConnecting, RunFrom(s, lastUpdate, tries, obs, i, waitTimeMs, connectSleepTime, t).events)
              <= Count(OnConnecting, t) + (if s.loggedFirstConnecting then 0 else 1)
    decreases |obs| - i
  {
    if i < |obs| {
      var p := LoopPass(s, lastUpdate, tries, obs[i], waitTimeMs, connectSleepTime, t);
      ConnectingStepBeforeConnection(s, lastUpdate, tries, obs[i], waitTimeMs, connectSleepTime, t);
      if !p.broke && !Stalls(s, obs[i], connectSleepTime) && !obs[i].cancelled {
        ConnectingOnceBeforeConnection(p.out.state, p.out.lastUpdate, p.tries, obs, i + 1, waitTimeMs, connectSleepTime,
                                       p.out.events);
      }
    }
  }

  /** A Connecting handler that throws leaves `_loggedFirstConnecting`
      unset, so before any connection Connecting is raised again. */
  lemma ConnectingTwice()
    ensures var s := LoopState(false, false, -1, false, false, false, false, false);
            var o := Observation(false, true, None, 0, None, 0, NoFault, false);
            var end := RunFrom(s, -1, 0, [o.(fault := HandlerFault), o.(cancelled := true)], 0, 6, 0, []);
            Count(OnConnecting, end.events) == 2
  {
    var s := LoopState(false, false, -1, false, false, false, false, false);
    var o := Observation(false, true, None, 0, None, 0, NoFault, false);
    var obs := [o.(fault := HandlerFault), o.(cancelled := true)];
    var p := LoopPass(s, -1, 0, obs[0], 6, 0, []);
    assert p.out.events == [StartupAttempted, OnConnecting, ErrorLogged] && !p.out.state.loggedFirstConnecting;
    var q := LoopPass(p.out.state, -1, 1, obs[1], 6, 0, p.out.events);
    assert q.out.events == [StartupAttempted, OnConnecting, ErrorLogged, StartupAttempted, OnConnecting];
    assert RunFrom(p.out.state, -1, 1, obs, 1, 6, 0, p.out.events) == RunEnd(q.out.state, q.out.events, true, false);
    var end := RunFrom(s, -1, 0, obs, 0, 6, 0, []);
    assert end.events == q.out.events;
    var e0: seq<Event> := [];
    var e1 := e0 + [StartupAttempted];
    var e2 := e1 + [OnConnecting];
    var e3 := e2 + [ErrorLogged];
    var e4 := e3 + [StartupAttempted];
    var e5 := e4 + [OnConnecting];
    assert end.events == e5;
    CountSnoc(OnConnecting, e0, StartupAttempted);
    CountSnoc(OnConnecting, e1, OnConnecting);
    CountSnoc(OnConnecting, e2, ErrorLogged);
    CountSnoc(OnConnecting, e3, StartupAttempted);
    CountSnoc(OnConnecting, e4, OnConnecting);
  }

  /** A telemetry read that throws after the connect block keeps what the
      block did: five such iterations raise Connected once, log four
      errors, write the crash report and go on to shut the sdk down, with
      the wrapper connected until then. */
  lemma FaultsAfterConnect()
    ensures var s := LoopState(false, false, -1, false, false, false, false, false);
            var o := Observation(true, true, None, 3, None, 0, PlayerCarIdxFault, false);
            var end := RunFrom(s, -1, 0, [o, o, o, o, o], 0, 6, 0, []);
            end.events == [OnConnected, ErrorLogged, ErrorLogged, ErrorLogged, ErrorLogged, CrashReport] &&
            end.left && end.shutDown && end.state.isConnected && end.state.hasConnected
  {
    var s := LoopState(false, false, -1, false, false, false, false, false);
    var o := Observation(true, true, None, 3, None, 0, PlayerCarIdxFault, false);
    var obs := [o, o, o, o, o];
    var c := s.(isConnected := true, hasConnected := true);
    var p0 := LoopPass(s, -1, 0, o, 6, 0, []);
    assert p0 == Pass(Outcome(c, -1, [OnConnected, ErrorLogged]), 1, false);
    var p1 := LoopPass(c, -1, 1, o, 6, 0, p0.out.events);
    assert p1 == Pass(Outcome(c, -1, [OnConnected, ErrorLogged, ErrorLogged]), 2, false);
    var p2 := LoopPass(c, -1, 2, o, 6, 0, p1.out.events);
    assert p2 == Pass(Outcome(c, -1, [OnConnected, ErrorLogged, ErrorLogged, ErrorLogged]), 3, false);
    var p3 := LoopPass(c, -1, 3, o, 6, 0, p2.out.events);
    assert p3 == Pass(Outcome(c, -1, [OnConnected, ErrorLogged, ErrorLogged, ErrorLogged, ErrorLogged]), 4, false);
    var p4 := LoopPass(c, -1, 4, o, 6, 0, p3.out.events);
    assert p4 == Pass(Outcome(c, -1, [OnConnected, ErrorLogged, ErrorLogged, ErrorLogged, ErrorLogged, CrashReport]), 5, true);
    assert RunFrom(c, -1, 4, obs, 4, 6, 0, p3.out.events) == RunEnd(c, p4.out.events, true, true);
    assert RunFrom(c, -1, 3, obs, 3, 6, 0, p2.out.events) == RunEnd(c, p4.out.events, true, true);
    assert RunFrom(c, -1, 2, obs, 2, 6, 0, p1.out.events) == RunEnd(c, p4.out.events, true, true);
    assert RunFrom(c, -1, 1, obs, 1, 6, 0, p0.out.events) == RunEnd(c, p4.out.events, true, true);
  }

  // ---------------------------------------------------------------------------
  // The static TelemetryUpdateFrequency

  /** `_telemetryUpdateFrequency`, shared by every wrapper. */
  class FrequencySetting {
    var hz: int

    ghost predicate Valid()
      reads this
    {
      0 < hz <= MaxFrequency
    }

    constructor ()
      ensures hz == 60 && Valid()
    {
      hz := 60;
    }
  }

  // ---------------------------------------------------------------------------
  // SdkWrapper

  class SdkWrapper {
    const sdk: IRacingSdk
    const frequency: FrequencySetting
    /** `_isConnected`, `_hasConnected`, `_driverId`, `_memoryFileExists`,
        `_loggedFirst`, `_loggedFirstConnecting`,
        `_initialConnectingWithMemoryExisting` and
        `_retrySessionInfoRetrieval`, kept together as one record. */
    var state: LoopState
    /** `_runCTS != null`. */
    var running: bool
    /** `_runCTSCount`. */
    var runCount: int
    var waitTimeMs: int
    var connectSleepTime: int
    /** What the loop has done so far, oldest first. */
    var events: seq<Event>

    /** IsConnected. */
    predicate IsConnected()
      reads this
    {
      Reported(state)
    }

    /** IsRunning. */
    predicate IsRunning()
      reads this
    {
      running
    }

    /** `new SdkWrapper()`: WaitTimeMs is initialised from the shared
        frequency, the frequency is then set to 60, ConnectSleepTime to
        1000 and the driver id to -1. */
    constructor (sdk: IRacingSdk, frequency: FrequencySetting)
      requires frequency.Valid()
      modifies frequency
      ensures this.sdk == sdk && this.frequency == frequency && frequency.Valid()
      ensures frequency.hz == 60 && waitTimeMs == UpdateWaitTime(60)
      ensures connectSleepTime == DefaultConnectSleepTime
      ensures state == LoopState(false, false, -1, false, false, false, false, false)
      ensures !running && runCount == 0 && events == []
    {
      this.sdk := sdk;
      this.frequency := frequency;
      waitTimeMs := UpdateWaitTime(frequency.hz);
      state := LoopState(false, false, -1, false, false, false, false, false);
      running := false;
      runCount := 0;
      events := [];
      connectSleepTime := DefaultConnectSleepTime;
      new;
      var _ := SetTelemetryUpdateFrequency(60);
    }

    /** The TelemetryUpdateFrequency setter: a value outside 1..60 throws
        ArgumentOutOfRangeException; the current value changes nothing;
        any other value is stored and WaitTimeMs recomputed from it. */
    method SetTelemetryUpdateFrequency(value: int) returns (r: Result<()>)
      requires frequency.Valid()
      modifies frequency, this`waitTimeMs
      ensures frequency.Valid()
      ensures (value <= 0 || value > MaxFrequency) ==>
                r == Err(ArgumentOutOfRange) && frequency.hz == old(frequency.hz) && waitTimeMs == old(waitTimeMs)
      ensures 0 < value <= MaxFrequency ==>
                r == Ok(()) && frequency.hz == value &&
                waitTimeMs == (if old(frequency.hz) == value then old(waitTimeMs) else UpdateWaitTime(value))
    {
      if value <= 0 || value > MaxFrequency {
        return Err(ArgumentOutOfRange);
      }
      r := Ok(());
      if frequency.hz == value {
        return;
      }
      frequency.hz := value;
      waitTimeMs := UpdateWaitTime(value);
    }

    /** Start: a running loop is left alone; otherwise a new run begins and
        is counted. The loop thread itself is Loop below. */
    method Start()
      modifies this`running, this`runCount
      ensures running
      ensures runCount == (if old(running) then old(runCount) else old(runCount) + 1)
    {
      if running {
        return;
      }
      running := true;
      runCount := runCount + 1;
    }

    /** Stop: a stopped wrapper is left alone; otherwise the run is
        cancelled and the sdk shut down. */
    method Stop()
      requires sdk.Valid()
      modifies this`running, sdk`isInitialized, sdk`fileMapView, sdk`header
      ensures !running && sdk.Valid()
      ensures !old(running) ==>
                sdk.isInitialized == old(sdk.isInitialized) && sdk.fileMapView == old(sdk.fileMapView) &&
                sdk.header == old(sdk.header)
      ensures old(running) ==> !sdk.isInitialized && sdk.fileMapView == null && sdk.header == null
    {
      if !running {
        return;
      }
      running := false;
      sdk.Shutdown();
    }

    /** ProcessSessionInfoUpdate, run to completion inside the tick. */
    method ProcessSessionInfoUpdate(playerCarIdx: int, info: Option<string>)
      modifies this`state, this`events
      ensures state == SessionInfoUpdate(old(state), playerCarIdx, info, old(events)).state
      ensures events == SessionInfoUpdate(old(state), playerCarIdx, info, old(events)).events
    {
      if state.driverId != -1 && state.driverId != playerCarIdx {
        state := state.(driverId := playerCarIdx);
      }
      if HasText(info) {
        events := events + [OnSessionInfoUpdated(info.value)];
      } else {
        state := state.(retrySessionInfoRetrieval := true);
      }
    }

    /** The `!_isConnected` block of ProcessConnectedState, as far as the
        Connected handler, which is what can throw here. */
    method Connect(o: Observation) returns (thrown: bool)
      modifies this`state, this`events
      ensures thrown == (o.fault.HandlerFault? && !old(state).isConnected)
      ensures state == ConnectBlock(old(state), o, old(events)).state
      ensures events == ConnectBlock(old(state), o, old(events)).events
    {
      thrown := false;
      if !state.isConnected {
        state := state.(isConnected := true);
        if state.hasConnected || state.initialConnectingWithMemoryExisting {
          events := events + [Reattached];
          state := state.(memoryFileExists := o.startup, initialConnectingWithMemoryExisting := false);
        }
        events := events + [OnConnected];
        thrown := o.fault.HandlerFault?;
      }
    }

    /** ProcessConnectedState(ref lastUpdate), ending early at the call
        that throws. */
    method ProcessConnectedState(lastUpdate: int, o: Observation) returns (newLastUpdate: int, thrown: bool)
      modifies this`state, this`events
      ensures thrown == ConnectedThrows(old(state), o)
      ensures var out := if thrown then ConnectedFault(old(state), lastUpdate, o, old(events))
                         else ConnectedStep(old(state), lastUpdate, o, old(events));
              state == out.state && newLastUpdate == out.lastUpdate && events == out.events
    {
      newLastUpdate := lastUpdate;
      thrown := Connect(o);
      if thrown {
        return;
      }
      state := state.(hasConnected := true);
      if o.fault.PlayerCarIdxFault? {
        return lastUpdate, true;
      }
      if state.driverId == -1 {
        state := state.(driverId := o.playerCarIdx);
      }
      if o.fault.TelemetryTimeFault? {
        return lastUpdate, true;
      }
      events := events + [OnTelemetryUpdated];
      var newUpdate := if o.header.Some? then o.header.value.sessionInfoUpdate else lastUpdate;
      if newUpdate != lastUpdate || state.retrySessionInfoRetrieval {
        newLastUpdate := newUpdate;
        state := state.(retrySessionInfoRetrieval := false);
        ProcessSessionInfoUpdate(o.playerCarIdx, o.sessionInfo);
      }
    }

    /** The disconnected sleep: steps of 100 ms while the int32 counter
        `waited`, which wraps around, is below ConnectSleepTime, stopping
        after the first step when cancelled. Above LapTop(MaxLap) the
        counter never gets there (SleepNeverEnds), and the answer is None
        instead of a loop without end. */
    static method DisconnectedSleep(connectSleepTime: int, cancelled: bool) returns (slept: Option<int>)
      ensures slept == SleptMs(connectSleepTime, cancelled)
    {
      if !cancelled && connectSleepTime > LapTop(MaxLap) {
        return None;
      }
      var waited := 0;
      var total := 0;
      ghost var lap := 0;
      while waited < connectSleepTime
        invariant IsInt32(waited) && 0 <= lap <= MaxLap
        invariant total == waited + lap * TwoTo32
        invariant waited % SleepStep == 4 * lap % SleepStep
        invariant waited <= LapTop(lap)
        invariant lap > 0 ==> LapTop(lap - 1) < connectSleepTime
        invariant total > 0 ==> !cancelled && waited < connectSleepTime + SleepStep
        decreases MaxLap - lap, connectSleepTime - waited
      {
        total := total + SleepStep;
        if cancelled {
          break;
        }
        if waited + SleepStep >= TwoTo31 {
          Wrap32Down(waited + SleepStep);
          lap := lap + 1;
        } else {
          assert (LapTop(lap) - waited) % SleepStep == 0;
        }
        waited := Wrap32(waited + SleepStep);
      }
      if !cancelled && connectSleepTime > 0 {
        SleepLoopEnd(connectSleepTime, waited, lap);
      }
      return Some(total);
    }

    /** ProcessDisconnectedState up to its sleep, ending early at a
        handler that throws. */
    method Disconnect(lastUpdate: int, o: Observation) returns (newLastUpdate: int, thrown: bool)
      modifies this`state, this`events
      ensures thrown == DisconnectedThrows(old(state), o)
      ensures var out := if thrown then DisconnectedFault(old(state), lastUpdate, o, old(events))
                         else DisconnectBlock(old(state), lastUpdate, o, old(events));
              state == out.state && newLastUpdate == out.lastUpdate && events == out.events
    {
      newLastUpdate := lastUpdate;
      thrown := false;
      if state.hasConnected && state.isConnected {
        events := events + [OnDisconnected];
        if o.fault.HandlerFault? {
          return lastUpdate, true;
        }
        newLastUpdate := -1;
        state := state.(isConnected := false);
        return;
      }
      state := state.(isConnected := false);
      events := events + [StartupAttempted];
      state := state.(memoryFileExists := o.startup);
      if state.memoryFileExists && (o.header.None? || o.header.value.varCount == 0) &&
         (!state.loggedFirstConnecting || state.hasConnected) {
        events := events + [OnConnecting];
        if o.fault.HandlerFault? {
          return lastUpdate, true;
        }
        state := state.(memoryFileExists := false, loggedFirstConnecting := true);
        if !state.hasConnected {
          state := state.(initialConnectingWithMemoryExisting := true);
        }
      }
      state := state.(loggedFirst := true);
    }

    /** ProcessDisconnectedState(ref lastUpdate): it throws, sleeps
        without end, or returns. */
    method ProcessDisconnectedState(lastUpdate: int, o: Observation) returns (newLastUpdate: int, thrown: bool, stalled: bool)
      modifies this`state, this`events
      ensures thrown == DisconnectedThrows(old(state), o)
      ensures stalled == (!thrown && SleptMs(connectSleepTime, o.cancelled).None?)
      ensures var out := if thrown then DisconnectedFault(old(state), lastUpdate, o, old(events))
                         else DisconnectedStep(old(state), lastUpdate, o, connectSleepTime, old(events));
              state == out.state && newLastUpdate == out.lastUpdate && events == out.events
    {
      stalled := false;
      newLastUpdate, thrown := Disconnect(lastUpdate, o);
      if thrown {
        return;
      }
      var slept := DisconnectedSleep(connectSleepTime, o.cancelled);
      events := events + SleepEvents(slept);
      stalled := slept.None?;
    }

    /** The try block of one loop iteration: it throws, stays in a sleep
        without end, or finishes with the tick delay. */
    method Iterate(lastUpdate: int, o: Observation) returns (newLastUpdate: int, thrown: bool, stalled: bool)
      modifies this`state, this`events
      ensures thrown == Throws(old(state), o)
      ensures stalled == Stalls(old(state), o, connectSleepTime)
      ensures var out := if thrown then FaultPoint(old(state), lastUpdate, o, old(events))
                         else IterationStep(old(state), lastUpdate, o, waitTimeMs, connectSleepTime, old(events));
              state == out.state && newLastUpdate == out.lastUpdate && events == out.events
    {
      stalled := false;
      if o.simConnected {
        newLastUpdate, thrown := ProcessConnectedState(lastUpdate, o);
      } else {
        newLastUpdate, thrown, stalled := ProcessDisconnectedState(lastUpdate, o);
      }
      if thrown || stalled {
        return;
      }
      if state.isConnected || (o.header.Some? && o.header.value.status == 1) {
        events := events + [Slept(TickDelay(waitTimeMs, o.elapsedMs))];
      }
    }

    /** Loop: iterations until cancellation or the fifth exception, with
        `lastUpdate` starting at -1 and `tries` at 0. When the loop leaves
        its `while`, `_isConnected` is cleared, and after the crash break
        (without cancellation) the sdk is shut down. A loop that has not
        left it when the observations run out, or that sleeps without end,
        is returned from as it stands. */
    method Loop(obs: seq<Observation>) returns (shutDown: bool)
      modifies this`state, this`events
      ensures var end := RunFrom(old(state), -1, 0, obs, 0, waitTimeMs, connectSleepTime, old(events));
              state == (if end.left then end.state.(isConnected := false) else end.state) &&
              events == end.events + (if end.shutDown then [SdkShutdown] else []) &&
              shutDown == end.shutDown
    {
      ghost var end := RunFrom(state, -1, 0, obs, 0, waitTimeMs, connectSleepTime, events);
      var lastUpdate := -1;
      var tries := 0;
      var i := 0;
      var left := false;
      shutDown := false;
      while i < |obs|
        invariant 0 <= i <= |obs|
        invariant RunFrom(state, lastUpdate, tries, obs, i, waitTimeMs, connectSleepTime, events) == end
      {
        var o := obs[i];
        ghost var p := LoopPass(state, lastUpdate, tries, o, waitTimeMs, connectSleepTime, events);
        ghost var stalls := Stalls(state, o, connectSleepTime);
        var thrown, stalled;
        lastUpdate, thrown, stalled := Iterate(lastUpdate, o);
        assert stalled == stalls;
        assert thrown ==> p.out.state == state && p.out.lastUpdate == lastUpdate &&
                          p.out.events == events + [if p.broke then CrashReport else ErrorLogged] &&
                          p.tries == tries + 1 && (p.broke <==> tries + 1 >= MaxTries);
        assert !thrown ==> p == Pass(Outcome(state, lastUpdate, events), tries, false);
        if thrown {
          tries := tries + 1;
          if tries < MaxTries {
            events := events + [ErrorLogged];
          } else {
            events := events + [CrashReport];
            left := true;
            shutDown := !o.cancelled;
            break;
          }
        }
        if stalled {
          break;
        }
        if o.cancelled {
          left := true;
          break;
        }
        i := i + 1;
      }
      assert RunEnd(state, events, left, shutDown) == end;
      if left {
        state := state.(isConnected := false);
      }
      if shutDown {
        events := events + [SdkShutdown];
      }
    }
  }
}
