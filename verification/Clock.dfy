/** The clock that tells the conveyor how long each tick lasts, in real time or on request of an administrator. */
module Clocks {
  const MAX_TICK: nat := 10000

  datatype Mode = RealTime | Debug | Terminated

  /** A `reading` is taken from the machine's clock in microseconds; `deviation` is real minus in-game time. */
  datatype State = State(
    mode: Mode, startedAt: int, inGame: nat, deviation: int, debugTick: nat, debugTicks: nat, ticks: nat)

  datatype Event =
    | Start(debug: bool, reading: int)
    | Tick(reading: int)
    | SwitchToRealTime
    | SwitchToDebug
    | Terminate
    | Proceed(count: nat)
    | SetDebugTick(duration: nat)

  /** The real time that is already accounted for; a tick asserts that it is not in the future. */
  function Expected(c: State): int { c.startedAt + c.inGame + c.deviation }

  function GetNextInterval(c: State, reading: int): (State, nat)
    requires reading >= Expected(c)
  {
    var dt := reading - Expected(c);
    match c.mode
    case RealTime =>
      var interval := if dt > MAX_TICK then MAX_TICK else dt;
      (c.(deviation := c.deviation + dt - interval, inGame := c.inGame + interval, ticks := c.ticks + 1), interval)
    case Debug =>
      if c.debugTicks > 0
      then (c.(deviation := c.deviation + dt - c.debugTick, inGame := c.inGame + c.debugTick,
               debugTicks := c.debugTicks - 1, ticks := c.ticks + 1), c.debugTick)
      else (c.(deviation := c.deviation + dt), 0)
    case Terminated => (c, 0)
  }

  /** Whether the clock grants a request; it ignores those that it does not grant. */
  predicate Grants(c: State, e: Event) {
    match e
    case SwitchToRealTime => c.mode.RealTime? || (c.mode.Debug? && c.debugTicks == 0)
    case SwitchToDebug => !c.mode.Terminated?
    case Proceed(_) => c.mode.Debug? && c.debugTicks == 0
    case _ => true
  }

  /** A tick can happen when the machine's clock has not gone back behind the accounted time. */
  predicate Sound(c: State, e: Event) { e.Tick? ==> e.reading >= Expected(c) }

  function Step(c: State, e: Event): State
    requires Sound(c, e)
  {
    if !Grants(c, e) then c
    else
      match e
      case Start(debug, reading) =>
        c.(mode := if debug then Debug else RealTime, startedAt := reading, inGame := 0, deviation := 0)
      case Tick(reading) => GetNextInterval(c, reading).0
      case SwitchToRealTime => c.(mode := RealTime)
      case SwitchToDebug => c.(mode := Debug)
      case Terminate => c.(mode := Terminated)
      case Proceed(count) => c.(debugTicks := count)
      case SetDebugTick(duration) => c.(debugTick := duration)
  }

  function Interval(c: State, e: Event): nat
    requires Sound(c, e)
  {
    if e.Tick? then GetNextInterval(c, e.reading).1 else 0
  }

  /**
   * After a tick that is not terminated, in-game time plus deviation is the real time just sampled; in real-time
   * mode the tick lasts as long as the time that passed, up to the maximum, and the rest becomes deviation.
   */
  lemma TickAccounts(c: State, reading: int)
    requires reading >= Expected(c) && !c.mode.Terminated?
    ensures var (d, interval) := GetNextInterval(c, reading);
      && Expected(d) == reading && d.inGame == c.inGame + interval && d.mode == c.mode
      && (c.mode.RealTime? ==>
        interval <= MAX_TICK && d.deviation >= c.deviation && (d.deviation > c.deviation ==> interval == MAX_TICK))
      && (c.mode.Debug? ==> interval == if c.debugTicks > 0 then c.debugTick else 0)
  {}

  /* Runs from a start, with readings of a machine clock that never goes back. */

  /** Readings do not go back behind `last`, and the clock is started only once, before the run. */
  predicate Monotone(events: seq<Event>, last: int)
    decreases |events|
  {
    events != [] ==>
      && !events[0].Start?
      && (events[0].Tick? ==> last <= events[0].reading)
      && Monotone(events[1..], if events[0].Tick? then events[0].reading else last)
  }

  /** The clock after a run, if the assertion on the expected time holds at each tick, and the intervals returned. */
  datatype Result = Failed | Ran(clock: State, intervals: seq<nat>)

  function Run(c: State, events: seq<Event>): Result
    decreases |events|
  {
    if events == [] then Ran(c, [])
    else if !Sound(c, events[0]) then Failed
    else
      var rest := Run(Step(c, events[0]), events[1..]);
      if rest.Failed? then Failed
      else Ran(rest.clock, (if events[0].Tick? then [Interval(c, events[0])] else []) + rest.intervals)
  }

  function Sum(intervals: seq<nat>): nat { if intervals == [] then 0 else intervals[0] + Sum(intervals[1..]) }

  lemma {:induction false} RunAccounts(c: State, events: seq<Event>, last: int)
    requires Monotone(events, last) && Expected(c) <= last
    ensures var r := Run(c, events); r.Ran? && r.clock.inGame == c.inGame + Sum(r.intervals)
    decreases |events|
  {
    if events != [] {
      var d := Step(c, events[0]);
      var next := if events[0].Tick? then events[0].reading else last;
      if events[0].Tick? && !c.mode.Terminated? { TickAccounts(c, events[0].reading); }
      assert Expected(d) <= next && d.inGame == c.inGame + Interval(c, events[0]);
      RunAccounts(d, events[1..], next);
      var rest := Run(d, events[1..]).intervals;
      assert ([Interval(c, events[0])] + rest)[1..] == rest && [] + rest == rest;
    }
  }

  /**
   * From a start on, whatever is asked of the clock, the assertion on the expected time never fails as long as the
   * machine clock does not go back, and in-game time is the sum of the intervals returned since the start.
   */
  lemma InGameIsSumOfIntervals(c: State, debug: bool, reading: int, events: seq<Event>)
    requires Monotone(events, reading)
    ensures var r := Run(Step(c, Start(debug, reading)), events); r.Ran? && r.clock.inGame == Sum(r.intervals)
  {
    RunAccounts(Step(c, Start(debug, reading)), events, reading);
  }

  /* The assertions that an interval fits 32 bits. */

  const WIDTH: nat := 0xFFFF_FFFF

  /** A real-time tick asserts it of the time that passed, a debug tick of the interval that it returns. */
  predicate Narrow(c: State, e: Event) {
    e.Tick? ==>
      match c.mode
      case RealTime => e.reading - Expected(c) < WIDTH
      case Debug => c.debugTicks > 0 ==> c.debugTick < WIDTH
      case Terminated => true
  }

  predicate AllNarrow(c: State, events: seq<Event>)
    decreases |events|
  {
    events != [] ==> Sound(c, events[0]) && Narrow(c, events[0]) && AllNarrow(Step(c, events[0]), events[1..])
  }

  /** Successive readings, beginning with `last`, and the durations of debug ticks are below the limit. */
  predicate Close(events: seq<Event>, last: int)
    decreases |events|
  {
    events != [] ==>
      && (events[0].Tick? ==> events[0].reading - last < WIDTH)
      && (events[0].SetDebugTick? ==> events[0].duration < WIDTH)
      && Close(events[1..], if events[0].Tick? then events[0].reading else last)
  }

  /** Such a run never fails those assertions, whatever else is asked of the clock. */
  lemma {:induction false} CloseReadingsFit(c: State, events: seq<Event>, last: int)
    requires Monotone(events, last) && Close(events, last) && c.debugTick < WIDTH
    requires Expected(c) <= last && (!c.mode.Terminated? ==> Expected(c) == last)
    ensures AllNarrow(c, events)
    decreases |events|
  {
    if events != [] {
      if events[0].Tick? && !c.mode.Terminated? { TickAccounts(c, events[0].reading); }
      CloseReadingsFit(Step(c, events[0]), events[1..], if events[0].Tick? then events[0].reading else last);
    }
  }

  /** A clock that only ticks in real time fails them if and only if two successive readings are that far apart. */
  lemma {:induction false} RealTimeFitsIff(c: State, events: seq<Event>)
    requires c.mode.RealTime? && Monotone(events, Expected(c))
    requires forall i :: 0 <= i < |events| ==> events[i].Tick?
    ensures AllNarrow(c, events) <==> Close(events, Expected(c))
    decreases |events|
  {
    if events != [] {
      TickAccounts(c, events[0].reading);
      RealTimeFitsIff(Step(c, events[0]), events[1..]);
    }
  }

  function Ticks(events: seq<Event>): nat {
    if events == [] then 0 else (if events[0].Tick? then 1 else 0) + Ticks(events[1..])
  }

  predicate Quiet(events: seq<Event>) {
    forall i :: 0 <= i < |events| ==> !events[i].Start? && !events[i].Terminate?
  }

  lemma {:induction false} LastOfRest(events: seq<Event>)
    requires events != []
    ensures |events| > 1 ==> events[1..][|events| - 2] == events[|events| - 1]
    ensures |events| > 1 && events[|events| - 1].Tick? ==> Ticks(events[1..]) > 0
    decreases |events|
  {
    if |events| > 1 { LastOfRest(events[1..]); }
  }

  /** While requested ticks are left, only ticks change the mode, the counters and the intervals. */
  lemma {:induction false} PendingTicks(c: State, events: seq<Event>)
    requires c.mode.Debug? && Quiet(events) && Run(c, events).Ran? && Ticks(events) <= c.debugTicks
    requires Ticks(events) == c.debugTicks ==> events == [] || events[|events| - 1].Tick?
    ensures var d := Run(c, events).clock;
      && d.mode.Debug? && d.debugTicks == c.debugTicks - Ticks(events) && d.ticks == c.ticks + Ticks(events)
    ensures (forall i :: 0 <= i < |events| ==> !events[i].SetDebugTick?) ==>
      forall x :: x in Run(c, events).intervals ==> x == c.debugTick
    decreases |events|
  {
    if events != [] {
      LastOfRest(events);
      PendingTicks(Step(c, events[0]), events[1..]);
    }
  }

  /**
   * An accepted request for `count` ticks: unless the clock is terminated or started anew, it stays in debug mode and
   * refuses to leave it, and every other request, until that many ticks were taken; then it can go back to real time.
   */
  lemma AcceptedRequest(c: State, count: nat, events: seq<Event>)
    requires Grants(c, Proceed(count)) && Quiet(events) && Run(Step(c, Proceed(count)), events).Ran?
    ensures var d := Run(Step(c, Proceed(count)), events).clock;
      && (Ticks(events) < count ==>
        && d.mode.Debug? && d.debugTicks == count - Ticks(events) && d.ticks == c.ticks + Ticks(events)
        && !Grants(d, SwitchToRealTime) && forall n :: !Grants(d, Proceed(n)))
      && (d.mode.RealTime? ==> Ticks(events) >= count)
      && (Ticks(events) == count > 0 && events[|events| - 1].Tick? ==>
        d.mode.Debug? && d.ticks == c.ticks + count && Grants(d, SwitchToRealTime))
  {
    var c1 := Step(c, Proceed(count));
    if Ticks(events) < count || (Ticks(events) == count > 0 && events[|events| - 1].Tick?) {
      PendingTicks(c1, events);
    }
  }

  /** Without a further request, a debug-mode clock counts exactly the requested ticks, however often it is asked. */
  lemma {:induction false} NoMoreThanRequested(c: State, events: seq<Event>)
    requires c.mode.Debug? && Quiet(events) && Run(c, events).Ran?
    requires forall i :: 0 <= i < |events| ==> !events[i].Proceed? && !events[i].SwitchToRealTime?
    ensures var d := Run(c, events).clock; var taken := if Ticks(events) < c.debugTicks then Ticks(events) else c.debugTicks;
      d.mode.Debug? && d.ticks == c.ticks + taken && d.debugTicks == c.debugTicks - taken
    decreases |events|
  {
    if events != [] { NoMoreThanRequested(Step(c, events[0]), events[1..]); }
  }

  /* What a mode means for the ticks that follow. */

  /** The real time that passed, up to the maximum of one tick. */
  function Passed(from: int, to: int): nat
    requires from <= to
  {
    if to - from > MAX_TICK then MAX_TICK else to - from
  }

  /** A clock that is started in real time counts the time from then on; one that is started in debug mode waits for
      requested ticks, of which some may be left. */
  lemma FirstTick(c: State, debug: bool, begun: int, reading: int)
    requires begun <= reading
    ensures var d := Step(c, Start(debug, begun));
      && Sound(d, Tick(reading))
      && Interval(d, Tick(reading)) ==
         (if !debug then Passed(begun, reading) else if c.debugTicks > 0 then c.debugTick else 0)
      && Step(d, Tick(reading)).inGame == Interval(d, Tick(reading))
  {}

  /** Leaving debug mode, the clock goes on in real time; entering it, it stands until ticks are requested. Time that
      passed before counts in neither case a second time. */
  lemma FirstTickAfterSwitch(c: State, reading: int)
    requires !c.mode.Terminated? && c.debugTicks == 0 && reading >= Expected(c)
    ensures var r, d := Step(c, SwitchToRealTime), Step(c, SwitchToDebug);
      && Sound(r, Tick(reading)) && Interval(r, Tick(reading)) == Passed(Expected(c), reading)
      && Sound(d, Tick(reading)) && Interval(d, Tick(reading)) == 0
      && Expected(Step(r, Tick(reading))) == Expected(Step(d, Tick(reading))) == reading
  {}

  /** Each of the requested ticks lasts as long as it was asked to; after them the clock stands. */
  lemma {:induction false} RequestedTicksLast(c: State, events: seq<Event>, i: nat)
    requires c.mode.Debug? && Run(c, events).Ran? && i < |events|
    requires forall k :: 0 <= k < |events| ==> events[k].Tick?
    ensures |Run(c, events).intervals| == |events|
    ensures Run(c, events).intervals[i] == if i < c.debugTicks then c.debugTick else 0
    decreases |events|
  {
    var d := Step(c, events[0]);
    var rest := Run(d, events[1..]).intervals;
    assert Run(c, events).intervals == [Interval(c, events[0])] + rest;
    if |events| > 1 {
      RequestedTicksLast(d, events[1..], if i > 0 then i - 1 else 0);
    } else {
      assert events[1..] == [] && rest == [];
    }
  }

  /** So a request for `count` ticks of a given duration is answered by just that. */
  lemma RequestIsAnswered(c: State, duration: nat, count: nat, events: seq<Event>, i: nat)
    requires c.mode.Debug? && c.debugTicks == 0 && i < |events|
    requires forall k :: 0 <= k < |events| ==> events[k].Tick?
    requires Run(Step(Step(c, SetDebugTick(duration)), Proceed(count)), events).Ran?
    ensures var r := Run(Step(Step(c, SetDebugTick(duration)), Proceed(count)), events);
      |r.intervals| == |events| && r.intervals[i] == if i < count then duration else 0
  {
    RequestedTicksLast(Step(Step(c, SetDebugTick(duration)), Proceed(count)), events, i);
  }

  /** A terminated clock stands, whatever is asked of it, until it is started again. */
  lemma TerminatedStands(c: State, events: seq<Event>)
    requires Run(Step(c, Terminate), events).Ran? && forall i :: 0 <= i < |events| ==> !events[i].Start?
    ensures var r := Run(Step(c, Terminate), events);
      r.clock.mode.Terminated? && r.clock.inGame == c.inGame && forall x :: x in r.intervals ==> x == 0
  {
    StandsWhileTerminated(Step(c, Terminate), events);
  }

  lemma {:induction false} StandsWhileTerminated(c: State, events: seq<Event>)
    requires c.mode.Terminated? && Run(c, events).Ran? && forall i :: 0 <= i < |events| ==> !events[i].Start?
    ensures var r := Run(c, events);
      r.clock.mode.Terminated? && r.clock.inGame == c.inGame && forall x :: x in r.intervals ==> x == 0
    decreases |events|
  {
    if events != [] { StandsWhileTerminated(Step(c, events[0]), events[1..]); }
  }

  class Clock {
    var mode: Mode
    var startedAt: int
    var inGame: nat
    var deviation: int
    var debugTick: nat
    var debugTicks: nat
    var ticks: nat

    function Current(): State
      reads this
    {
      State(mode, startedAt, inGame, deviation, debugTick, debugTicks, ticks)
    }

    constructor ()
      ensures mode == RealTime && debugTicks == 0 && ticks == 0 && inGame == 0 && deviation == 0 && debugTick == 0
    {
      mode, startedAt, inGame, deviation, debugTick, debugTicks, ticks := RealTime, 0, 0, 0, 0, 0, 0;
    }

    method Begin(debug: bool, reading: int)
      modifies this
      ensures Current() == Step(old(Current()), Start(debug, reading))
    {
      mode := if debug then Debug else RealTime;
      startedAt := reading;
      inGame := 0;
      deviation := 0;
    }

    method NextInterval(reading: int) returns (dt: nat)
      requires reading >= Expected(Current())
      modifies this
      ensures (Current(), dt) == GetNextInterval(old(Current()), reading)
    {
      var elapsed := reading - startedAt;
      dt := elapsed - (inGame + deviation);
      match mode
      case RealTime =>
        if dt > MAX_TICK {
          deviation := deviation + dt - MAX_TICK;
          dt := MAX_TICK;
        }
        ticks := ticks + 1;
        inGame := inGame + dt;
      case Debug =>
        deviation := deviation + dt;
        if debugTicks > 0 {
          dt := debugTick;
          debugTicks := debugTicks - 1;
          ticks := ticks + 1;
        } else {
          dt := 0;
        }
        deviation := deviation - dt;
        inGame := inGame + dt;
      case Terminated =>
        dt := 0;
    }

    method LeaveDebugMode() returns (granted: bool)
      modifies this
      ensures granted <==> Grants(old(Current()), SwitchToRealTime)
      ensures Current() == Step(old(Current()), SwitchToRealTime)
    {
      match mode
      case Debug =>
        if debugTicks > 0 {
          return false;
        }
        mode := RealTime;
        return true;
      case RealTime =>
        return true;
      case Terminated =>
        return false;
    }

    method EnterDebugMode() returns (granted: bool)
      modifies this
      ensures granted <==> Grants(old(Current()), SwitchToDebug)
      ensures Current() == Step(old(Current()), SwitchToDebug)
    {
      match mode
      case RealTime =>
        mode := Debug;
        return true;
      case Debug =>
        return true;
      case Terminated =>
        return false;
    }

    method Stop()
      modifies this
      ensures Current() == Step(old(Current()), Terminate)
    {
      mode := Terminated;
    }

    method ProceedRequest(count: nat) returns (granted: bool)
      modifies this
      ensures granted <==> Grants(old(Current()), Proceed(count))
      ensures Current() == Step(old(Current()), Proceed(count))
    {
      if mode != Debug || debugTicks > 0 {
        return false;
      }
      debugTicks := count;
      return true;
    }
  }
}
