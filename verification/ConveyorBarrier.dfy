/** The conveyor's barrier protocol: one master (thread 0), any number of slaves, one reusable barrier
    and one record that they share. Every interleaving of the threads' steps is a run. */
module ConveyorBarrier {
  datatype Selected = Nothing | Logic(id: nat) | Terminator

  /** The record that the master writes and every thread reads: the selected logic, its stage, and two times. */
  datatype Shared = Shared(selected: Selected, stage: nat, interval: nat, now: nat)

  /** Where a thread is. `AtFirst` and `AtSecond` wait at the barrier, remembering the cycle they arrived in. */
  datatype Place = NotJoined | Outside | AtFirst(at: nat) | Entered | Executed | AtSecond(at: nat) | Gone

  datatype Thread = Thread(place: Place, goOn: bool, log: seq<Shared>)

  datatype Mode = Running | Stopping | Stopped

  /** `published` is history: the shared record as it was each time the master came to the first wait. */
  datatype State = State(
    threads: seq<Thread>, arrived: nat, cycle: nat, mode: Mode, shared: Shared, published: seq<Shared>)

  datatype Action =
    | Join(t: nat)
    | Leave(t: nat)
    | Arrive(t: nat)
    | Pass(t: nat)
    | Proceed(t: nat)
    | Write(shared: Shared)
    | Prepare
    | BeginStop

  function Move(s: State, t: nat, p: Place): State
    requires t < |s.threads|
  {
    s.(threads := s.threads[t := s.threads[t].(place := p)])
  }

  predicate CanArrive(s: State, t: nat)
    requires t < |s.threads|
  {
    match s.threads[t].place
    case Outside => if t == 0 then s.mode != Stopped && s.shared.selected != Nothing else s.threads[t].goOn
    case Executed => true
    case Entered => t == 0 && s.mode == Stopping
    case _ => false
  }

  predicate Enabled(s: State, a: Action) {
    match a
    case Join(t) => 0 < t < |s.threads| && s.threads[t].place == NotJoined
    case Leave(t) => 0 < t < |s.threads| && s.threads[t].place == Outside && !s.threads[t].goOn
    case Arrive(t) => t < |s.threads| && CanArrive(s, t)
    case Pass(t) =>
      && t < |s.threads|
      && (s.threads[t].place.AtFirst? || s.threads[t].place.AtSecond?)
      && s.threads[t].place.at != s.cycle
    case Proceed(t) => t < |s.threads| && s.threads[t].place == Entered && (t == 0 ==> s.mode == Running)
    case Write(w) => |s.threads| > 0 && s.threads[0].place == Outside && s.mode == Running && w.selected != Terminator
    case Prepare => |s.threads| > 0 && s.threads[0].place == Outside && s.mode == Running
    case BeginStop => |s.threads| > 0 && s.threads[0].place == Outside && s.mode == Running
  }

  /** The step a thread takes when the barrier lets it go. Passing the second wait ends the master's `stop`. */
  function Released(s: State, t: nat): State
    requires t < |s.threads|
  {
    match s.threads[t].place
    case Outside => Move(s, t, Entered)
    case AtFirst(_) => Move(s, t, Entered)
    case _ => if t == 0 && s.mode == Stopping then Move(s, t, Gone).(mode := Stopped) else Move(s, t, Outside)
  }

  function Do(s: State, a: Action): State
    requires Enabled(s, a)
  {
    match a
    case Join(t) => s.(threads := s.threads[t := s.threads[t].(place := Outside, goOn := true)])
    case Leave(t) => Move(s, t, Gone)
    case Arrive(t) =>
      var w := if t == 0 && s.threads[t].place == Outside then s.(published := s.published + [s.shared]) else s;
      if s.arrived + 1 == |s.threads| then Released(w, t).(arrived := 0, cycle := s.cycle + 1)
      else
        Move(w, t, if s.threads[t].place == Outside then AtFirst(s.cycle) else AtSecond(s.cycle))
          .(arrived := s.arrived + 1)
    case Pass(t) => Released(s, t)
    case Proceed(t) =>
      s.(threads := s.threads[t := Thread(Executed, s.threads[t].goOn && s.shared.selected != Terminator,
                                          s.threads[t].log + [s.shared])])
    case Write(w) => s.(shared := w)
    case Prepare => s
    case BeginStop => s.(shared := s.shared.(selected := Terminator), mode := Stopping)
  }

  function Start(n: nat): State
    requires n > 0
  {
    State(seq(n, i => Thread(if i == 0 then Outside else NotJoined, true, [])), 0, 0, Running, Shared(Nothing, 0, 0, 0), [])
  }

  ghost predicate Reaches(s: State, actions: seq<Action>, u: State)
    decreases |actions|
  {
    if actions == [] then s == u
    else Enabled(s, actions[0]) && Reaches(Do(s, actions[0]), actions[1..], u)
  }

  // ------------------------------------------------------------------ the invariant

  predicate WaitsAt(p: Place, cycle: nat) { (p.AtFirst? || p.AtSecond?) && p.at == cycle }

  function Waiting(s: State): set<nat> {
    set t: nat | t < |s.threads| && WaitsAt(s.threads[t].place, s.cycle)
  }

  /** An even cycle is the time between rounds, an odd cycle is the time inside one. A thread that waits for the
      previous cycle has been let go but has not run yet. */
  predicate PlaceFits(p: Place, cycle: nat) {
    if cycle % 2 == 0 then
      p == Outside || p == Gone || (p == NotJoined && cycle == 0) || p == AtFirst(cycle)
      || (cycle > 0 && p == AtSecond(cycle - 1))
    else
      p == Entered || p == Executed || p == AtSecond(cycle) || p == AtFirst(cycle - 1)
  }

  /** How many rounds a thread at place `p` has executed. */
  function RoundsDone(p: Place, cycle: nat): nat {
    cycle / 2 + if cycle % 2 == 1 && (p == Executed || p == AtSecond(cycle)) then 1 else 0
  }

  /** How many rounds the master has announced. */
  function RoundsPublished(s: State): nat
    requires |s.threads| > 0
  {
    s.cycle / 2 + if s.cycle % 2 == 1 || s.threads[0].place == AtFirst(s.cycle) then 1 else 0
  }

  predicate SlaveFits(s: State, t: nat)
    requires t < |s.threads|
  {
    var th := s.threads[t];
    && RoundsDone(th.place, s.cycle) <= |s.published|
    && th.log == s.published[..RoundsDone(th.place, s.cycle)]
    && (th.goOn <==> th.log == [] || th.log[|th.log| - 1].selected != Terminator)
    && (th.place == Gone ==> !th.goOn)
    && (th.place.AtFirst? || th.place.Entered? ==> th.goOn)
  }

  predicate MasterFits(s: State)
    requires |s.threads| > 0
  {
    var p := s.threads[0].place;
    && |s.published| == RoundsPublished(s)
    && p != NotJoined
    && (p != Outside && p != Gone && !(s.cycle > 0 && s.cycle % 2 == 0 && p == AtSecond(s.cycle - 1)) ==>
          |s.published| > 0 && s.shared == s.published[|s.published| - 1])
    && (forall k :: 0 <= k < |s.published| - 1 ==> s.published[k].selected != Terminator)
    && (match s.mode
        case Running => p != Gone && s.shared.selected != Terminator
                        && forall k :: 0 <= k < |s.published| ==> s.published[k].selected != Terminator
        case Stopping => p != Gone && p != Executed && s.shared.selected == Terminator
                         && (p == Outside ==> forall k :: 0 <= k < |s.published| ==> s.published[k].selected != Terminator)
                         && (s.cycle > 0 && s.cycle % 2 == 0 && p == AtSecond(s.cycle - 1) ==>
                               |s.published| > 0 && s.published[|s.published| - 1].selected == Terminator)
        case Stopped => p == Gone && |s.published| > 0 && s.published[|s.published| - 1].selected == Terminator)
  }

  ghost predicate Inv(s: State) {
    && |s.threads| > 0
    && s.arrived == |Waiting(s)| < |s.threads|
    && (forall t :: 0 <= t < |s.threads| ==> PlaceFits(s.threads[t].place, s.cycle))
    && MasterFits(s)
    && (forall t :: 0 < t < |s.threads| ==> SlaveFits(s, t))
  }

  lemma FullSet(a: set<nat>, n: nat)
    requires forall t :: t in a ==> t < n
    ensures |a| <= n
    ensures |a| == n ==> forall t: nat :: t < n ==> t in a
    decreases n
  {
    if n > 0 {
      FullSet(a - {n - 1}, n - 1);
      if n - 1 in a { assert a == (a - {n - 1}) + {n - 1}; } else { assert a == a - {n - 1}; }
    }
  }

  lemma StartInv(n: nat)
    requires n > 0
    ensures Inv(Start(n))
  {
    assert Waiting(Start(n)) == {};
  }

  /** The thread that completes a cycle finds every other thread waiting in it. */
  lemma LastArrival(s: State, t: nat)
    requires Inv(s) && t < |s.threads| && CanArrive(s, t) && s.arrived + 1 == |s.threads|
    ensures forall u :: 0 <= u < |s.threads| && u != t ==>
      s.threads[u].place == if s.cycle % 2 == 0 then AtFirst(s.cycle) else AtSecond(s.cycle)
  {
    assert t !in Waiting(s);
    FullSet(Waiting(s) + {t}, |s.threads|);
    forall u | 0 <= u < |s.threads| && u != t
      ensures s.threads[u].place == if s.cycle % 2 == 0 then AtFirst(s.cycle) else AtSecond(s.cycle)
    {
      assert u in Waiting(s) + {t};
    }
  }

  lemma SlaveOnTrip(s: State, a: nat, t: nat)
    requires Inv(s) && a < |s.threads| && CanArrive(s, a) && s.arrived + 1 == |s.threads| && 0 < t < |s.threads|
    ensures SlaveFits(Do(s, Arrive(a)), t)
  {
    LastArrival(s, a);
    assert SlaveFits(s, t) && PlaceFits(s.threads[t].place, s.cycle) && PlaceFits(s.threads[a].place, s.cycle);
    hide Inv, MasterFits;
    var k := RoundsDone(s.threads[t].place, s.cycle);
    assert Do(s, Arrive(a)).published[..k] == s.published[..k];
  }

  lemma SlaveOnArrive(s: State, a: nat, t: nat)
    requires Inv(s) && a < |s.threads| && CanArrive(s, a) && s.arrived + 1 != |s.threads| && 0 < t < |s.threads|
    ensures SlaveFits(Do(s, Arrive(a)), t)
  {
    assert SlaveFits(s, t) && PlaceFits(s.threads[t].place, s.cycle);
    hide Inv, MasterFits;
    var k := RoundsDone(s.threads[t].place, s.cycle);
    assert Do(s, Arrive(a)).published[..k] == s.published[..k];
  }

  lemma SlaveOnProceed(s: State, t: nat)
    requires Inv(s) && Enabled(s, Proceed(t)) && 0 < t < |s.threads|
    ensures SlaveFits(Do(s, Proceed(t)), t)
  {
    assert SlaveFits(s, t) && PlaceFits(s.threads[t].place, s.cycle) && PlaceFits(s.threads[0].place, s.cycle);
    hide Inv;
    var k := RoundsDone(s.threads[t].place, s.cycle);
    assert s.published[..k + 1] == s.published[..k] + [s.published[k]];
  }

  lemma SlaveUntouched(s: State, u: State, t: nat)
    requires t < |s.threads| == |u.threads| && u.threads[t] == s.threads[t]
    requires u.published == s.published && u.cycle == s.cycle && SlaveFits(s, t)
    ensures SlaveFits(u, t)
  {}

  /** What a step that is no arrival and no execution by `t` leaves of thread `t`. */
  lemma OtherSteps(s: State, a: Action, t: nat)
    requires Enabled(s, a) && 0 < t < |s.threads| && !a.Arrive? && a != Proceed(t)
    ensures var u := Do(s, a);
      && |u.threads| == |s.threads| && u.published == s.published && u.cycle == s.cycle
      && (a != Join(t) && a != Leave(t) && a != Pass(t) ==> u.threads[t] == s.threads[t])
  {}

  lemma SlaveOnOther(s: State, a: Action, t: nat)
    requires Inv(s) && Enabled(s, a) && 0 < t < |s.threads| && !a.Arrive? && a != Proceed(t)
    ensures SlaveFits(Do(s, a), t)
  {
    assert SlaveFits(s, t) && PlaceFits(s.threads[t].place, s.cycle);
    OtherSteps(s, a, t);
    hide Inv, MasterFits;
    if a == Join(t) || a == Leave(t) || a == Pass(t) {
      OwnStep(s, a, t);
    } else {
      hide *;
      SlaveUntouched(s, Do(s, a), t);
    }
  }

  lemma OwnStep(s: State, a: Action, t: nat)
    requires SlaveFitsAt(s, t) && Enabled(s, a) && 0 < t && (a == Join(t) || a == Leave(t) || a == Pass(t))
    ensures SlaveFits(Do(s, a), t)
  {}

  predicate SlaveFitsAt(s: State, t: nat) {
    t < |s.threads| && SlaveFits(s, t) && PlaceFits(s.threads[t].place, s.cycle)
  }

  /** One step of any thread keeps slave `t`'s log a prefix of the published rounds. */
  lemma SlaveStep(s: State, a: Action, t: nat)
    requires Inv(s) && Enabled(s, a) && 0 < t < |s.threads|
    ensures SlaveFits(Do(s, a), t)
  {
    hide *;
    if a.Arrive? {
      EnabledArrival(s, a.t);
      if s.arrived + 1 == |s.threads| { SlaveOnTrip(s, a.t, t); } else { SlaveOnArrive(s, a.t, t); }
    } else if a == Proceed(t) {
      SlaveOnProceed(s, t);
    } else {
      SlaveOnOther(s, a, t);
    }
  }

  lemma EnabledArrival(s: State, t: nat)
    requires Enabled(s, Arrive(t))
    ensures t < |s.threads| && CanArrive(s, t)
  {}

  lemma TripKeepsInv(s: State, t: nat)
    requires Inv(s) && Enabled(s, Arrive(t)) && s.arrived + 1 == |s.threads|
    ensures Inv(Do(s, Arrive(t)))
  {
    var u := Do(s, Arrive(t));
    assert PlaceFits(s.threads[t].place, s.cycle) && PlaceFits(s.threads[0].place, s.cycle);
    LastArrival(s, t);
    assert Waiting(u) == {};
    forall v | 0 < v < |s.threads| ensures SlaveFits(u, v) { SlaveStep(s, Arrive(t), v); }
    hide SlaveFits;
    assert MasterFits(u);
  }

  lemma WaitKeepsMaster(s: State, t: nat)
    requires Inv(s) && Enabled(s, Arrive(t)) && s.arrived + 1 != |s.threads|
    ensures MasterFits(Do(s, Arrive(t)))
  {
    assert PlaceFits(s.threads[0].place, s.cycle);
    hide SlaveFits;
  }

  lemma ArriveKeepsInv(s: State, t: nat)
    requires Inv(s) && Enabled(s, Arrive(t))
    ensures Inv(Do(s, Arrive(t)))
  {
    if s.arrived + 1 == |s.threads| {
      TripKeepsInv(s, t);
    } else {
      var u := Do(s, Arrive(t));
      forall v | 0 < v < |s.threads| ensures SlaveFits(u, v) { SlaveStep(s, Arrive(t), v); }
      hide SlaveFits;
      assert t !in Waiting(s);
      assert Waiting(u) == Waiting(s) + {t};
      WaitKeepsMaster(s, t);
      assert PlaceFits(s.threads[t].place, s.cycle);
      hide MasterFits;
    }
  }

  lemma DoKeepsInv(s: State, a: Action)
    requires Inv(s) && Enabled(s, a)
    ensures Inv(Do(s, a)) && |Do(s, a).threads| == |s.threads|
  {
    if a.Arrive? {
      ArriveKeepsInv(s, a.t);
    } else {
      assert Waiting(Do(s, a)) == Waiting(s);
      forall v | 0 < v < |s.threads| ensures SlaveFits(Do(s, a), v) { SlaveStep(s, a, v); }
    }
  }

  lemma {:induction false} RunKeepsInv(s: State, actions: seq<Action>, u: State)
    requires Inv(s) && Reaches(s, actions, u)
    ensures Inv(u) && |u.threads| == |s.threads|
    decreases |actions|
  {
    if actions != [] {
      DoKeepsInv(s, actions[0]);
      RunKeepsInv(Do(s, actions[0]), actions[1..], u);
    }
  }

  /** While the conveyor is not being stopped, the master has executed its own rounds too, as far as it has come. */
  predicate MasterRan(s: State)
    requires |s.threads| > 0
  {
    var done := RoundsDone(s.threads[0].place, s.cycle);
    s.mode == Running ==> done <= |s.published| && s.threads[0].log == s.published[..done]
  }

  lemma MasterOnTrip(s: State, a: nat)
    requires Inv(s) && a < |s.threads| && CanArrive(s, a) && s.arrived + 1 == |s.threads| && MasterRan(s)
    ensures |Do(s, Arrive(a)).threads| > 0 && MasterRan(Do(s, Arrive(a)))
  {
    LastArrival(s, a);
    assert PlaceFits(s.threads[0].place, s.cycle) && PlaceFits(s.threads[a].place, s.cycle);
    hide Inv, SlaveFits;
    if s.mode == Running {
      var k := RoundsDone(s.threads[0].place, s.cycle);
      assert Do(s, Arrive(a)).published[..k] == s.published[..k];
    }
  }

  lemma MasterOnWait(s: State, a: nat)
    requires Inv(s) && a < |s.threads| && CanArrive(s, a) && s.arrived + 1 != |s.threads| && MasterRan(s)
    ensures |Do(s, Arrive(a)).threads| > 0 && MasterRan(Do(s, Arrive(a)))
  {
    assert PlaceFits(s.threads[0].place, s.cycle);
    hide Inv, SlaveFits;
    if s.mode == Running {
      var k := RoundsDone(s.threads[0].place, s.cycle);
      assert Do(s, Arrive(a)).published[..k] == s.published[..k];
    }
  }

  lemma MasterOnProceed(s: State)
    requires Inv(s) && Enabled(s, Proceed(0)) && MasterRan(s)
    ensures |Do(s, Proceed(0)).threads| > 0 && MasterRan(Do(s, Proceed(0)))
  {
    assert PlaceFits(s.threads[0].place, s.cycle);
    hide Inv, SlaveFits;
    var k := RoundsDone(s.threads[0].place, s.cycle);
    assert s.published[..k + 1] == s.published[..k] + [s.published[k]];
  }

  lemma MasterOnOther(s: State, a: Action)
    requires Inv(s) && Enabled(s, a) && MasterRan(s) && !a.Arrive? && a != Proceed(0)
    ensures |Do(s, a).threads| > 0 && MasterRan(Do(s, a))
  {
    assert PlaceFits(s.threads[0].place, s.cycle);
    hide Inv, SlaveFits, MasterFits;
  }

  lemma MasterStep(s: State, a: Action)
    requires Inv(s) && Enabled(s, a) && MasterRan(s)
    ensures |Do(s, a).threads| > 0 && MasterRan(Do(s, a))
  {
    hide *;
    if a.Arrive? {
      EnabledArrival(s, a.t);
      if s.arrived + 1 == |s.threads| { MasterOnTrip(s, a.t); } else { MasterOnWait(s, a.t); }
    } else if a == Proceed(0) {
      MasterOnProceed(s);
    } else {
      MasterOnOther(s, a);
    }
  }

  lemma {:induction false} RunKeepsMaster(s: State, actions: seq<Action>, u: State)
    requires Inv(s) && Reaches(s, actions, u) && MasterRan(s)
    ensures |u.threads| > 0 && MasterRan(u)
    decreases |actions|
  {
    if actions != [] {
      MasterStep(s, actions[0]);
      DoKeepsInv(s, actions[0]);
      hide Inv, MasterRan, Do, Enabled;
      RunKeepsMaster(Do(s, actions[0]), actions[1..], u);
    }
  }

  lemma SlaveBehind(s: State, t: nat)
    requires Inv(s) && 0 < t < |s.threads|
    ensures s.threads[t].log <= s.published && |s.published| <= |s.threads[t].log| + 1
    ensures s.threads[t].place == Entered ==> s.published == s.threads[t].log + [s.shared]
    ensures s.mode == Stopped ==> s.threads[t].log == s.published && !s.threads[t].goOn
  {
    assert SlaveFits(s, t) && PlaceFits(s.threads[t].place, s.cycle) && PlaceFits(s.threads[0].place, s.cycle);
    assert s.published[..|s.published|] == s.published;
    if s.threads[t].place == Entered {
      assert s.published == s.published[..|s.published| - 1] + [s.published[|s.published| - 1]];
    }
  }

  // ------------------------------------------------------------------ what the protocol guarantees

  /** However the threads interleave, whenever the master may write the shared record or prepare a stage, no thread is
      about to execute or executing one. */
  lemma NoWriteDuringProceed(n: nat, actions: seq<Action>, u: State, a: Action)
    requires n > 0 && Reaches(Start(n), actions, u)
    requires Enabled(u, a) && (a.Write? || a.Prepare? || a.BeginStop? || Do(u, a).shared != u.shared)
    ensures forall t :: 0 <= t < |u.threads| ==> u.threads[t].place != Entered && u.threads[t].place != Executed
    ensures forall t :: 0 <= t < |u.threads| ==> !Enabled(u, Proceed(t))
  {
    StartInv(n);
    RunKeepsInv(Start(n), actions, u);
  }

  /** Each slave executes exactly the master's rounds, in order, with the record the master published: what it has
      executed is a prefix of what was published, behind by at most the round in progress. */
  lemma SlavesFollowMaster(n: nat, actions: seq<Action>, u: State, t: nat)
    requires n > 0 && Reaches(Start(n), actions, u) && 0 < t < n
    ensures |u.threads| == n
    ensures u.threads[t].log <= u.published && |u.published| <= |u.threads[t].log| + 1
    ensures Enabled(u, Proceed(t)) ==> u.published == u.threads[t].log + [u.shared]
    ensures u.mode == Stopped ==> u.threads[t].log == u.published
  {
    StartInv(n);
    RunKeepsInv(Start(n), actions, u);
    SlaveBehind(u, t);
  }

  /** The master executes its rounds like the slaves, and all that it has announced when it is outside of the barrier. */
  lemma MasterFollowsItself(n: nat, actions: seq<Action>, u: State)
    requires n > 0 && Reaches(Start(n), actions, u) && u.mode == Running
    ensures |u.threads| == n
    ensures u.threads[0].log <= u.published && |u.published| <= |u.threads[0].log| + 1
    ensures Enabled(u, Proceed(0)) ==> u.published == u.threads[0].log + [u.shared]
    ensures u.threads[0].place == Outside ==> u.threads[0].log == u.published
  {
    StartInv(n);
    RunKeepsInv(Start(n), actions, u);
    RunKeepsMaster(Start(n), actions, u);
    assert PlaceFits(u.threads[0].place, u.cycle) && MasterFits(u);
    hide SlaveFits, Reaches;
    assert u.published[..|u.published|] == u.published;
    if u.threads[0].place == Entered {
      assert u.published == u.published[..|u.published| - 1] + [u.published[|u.published| - 1]];
    }
  }

  /** When `stop` has returned, every slave has been told to stop: it can neither execute nor arrive again, and
      letting it run only takes it out of its loop. */
  lemma StopIsFinal(n: nat, actions: seq<Action>, u: State, t: nat)
    requires n > 0 && Reaches(Start(n), actions, u) && 0 < t < n && u.mode == Stopped
    ensures |u.threads| == n
    ensures !u.threads[t].goOn && u.threads[t].log != [] && u.threads[t].log[|u.threads[t].log| - 1].selected == Terminator
    ensures !Enabled(u, Proceed(t)) && !Enabled(u, Arrive(t))
    ensures u.threads[t].place == Gone
            || (u.threads[t].place == Outside && Enabled(u, Leave(t)))
            || (Enabled(u, Pass(t)) && Do(u, Pass(t)).threads[t].place == Outside && Do(u, Pass(t)).mode == Stopped)
  {
    StartInv(n);
    RunKeepsInv(Start(n), actions, u);
    assert SlaveFits(u, t) && PlaceFits(u.threads[t].place, u.cycle) && PlaceFits(u.threads[0].place, u.cycle);
    SlaveBehind(u, t);
  }

  /** As long as the master is held at the barrier, some thread can take a step. */
  lemma NoDeadlock(n: nat, actions: seq<Action>, u: State) returns (a: Action)
    requires n > 0 && Reaches(Start(n), actions, u)
    requires |u.threads| > 0 ==> u.threads[0].place.AtFirst? || u.threads[0].place.AtSecond?
    ensures Enabled(u, a)
  {
    StartInv(n);
    RunKeepsInv(Start(n), actions, u);
    var t := SomeoneMoves(u);
    if 0 !in Waiting(u) {
      a := Pass(0);
    } else {
      assert PlaceFits(u.threads[0].place, u.cycle) && PlaceFits(u.threads[t].place, u.cycle);
      SlaveGoesOn(u, t);
      match u.threads[t].place
      case NotJoined => a := Join(t);
      case Outside => a := Arrive(t);
      case AtFirst(_) => a := Pass(t);
      case AtSecond(_) => a := Pass(t);
      case Entered => a := Proceed(t);
      case _ => a := Arrive(t);
    }
  }

  /** While the master waits for a round to begin, no slave between rounds has been told to stop. */
  lemma SlaveGoesOn(s: State, t: nat)
    requires Inv(s) && 0 < t < |s.threads| && 0 in Waiting(s)
    ensures s.cycle % 2 == 0 ==> s.threads[t].goOn && s.threads[t].place != Gone
  {
    assert SlaveFits(s, t) && PlaceFits(s.threads[0].place, s.cycle) && PlaceFits(s.threads[t].place, s.cycle);
  }

  lemma SomeoneMoves(s: State) returns (t: nat)
    requires Inv(s)
    ensures t < |s.threads| && t !in Waiting(s)
  {
    if forall t: nat :: t < |s.threads| ==> t in Waiting(s) {
      SetOfAll(Waiting(s), |s.threads|);
      assert false;
    }
    t :| t < |s.threads| && t !in Waiting(s);
  }

  lemma SetOfAll(a: set<nat>, n: nat)
    requires forall t: nat :: t < n ==> t in a
    ensures |a| >= n
  {
    if n > 0 {
      SetOfAll(a - {n - 1}, n - 1);
    }
  }

  // ------------------------------------------------------------------ rounds come to their end

  /** The thread that takes a step. What the master does between two rounds is not counted. */
  predicate By(a: Action, t: nat) {
    match a
    case Write(_) => false
    case Prepare => false
    case BeginStop => false
    case _ => a.t == t
  }

  function StepsBy(actions: seq<Action>, t: nat): nat
    decreases |actions|
  {
    if actions == [] then 0 else (if By(actions[0], t) then 1 else 0) + StepsBy(actions[1..], t)
  }

  /** How many steps a thread can have taken that is at place `p`: five for each round, and what brought it here. */
  function StepsTo(p: Place, cycle: nat): nat {
    match p
    case NotJoined => 0
    case Outside => 5 * (cycle / 2) + 1
    case AtFirst(_) => 5 * (cycle / 2) + 2
    case Entered => 5 * (cycle / 2) + 3
    case Executed => 5 * (cycle / 2) + 4
    case AtSecond(_) => if cycle % 2 == 0 then 5 * (cycle / 2) else 5 * (cycle / 2) + 5
    case Gone => 5 * (cycle / 2) + 2
  }

  lemma StepCounts(s: State, a: Action, t: nat)
    requires Inv(s) && Enabled(s, a) && t < |s.threads|
    ensures |Do(s, a).threads| == |s.threads|
    ensures StepsTo(s.threads[t].place, s.cycle) + (if By(a, t) then 1 else 0)
            <= StepsTo(Do(s, a).threads[t].place, Do(s, a).cycle)
  {
    assert PlaceFits(s.threads[t].place, s.cycle);
    if a.Arrive? && s.arrived + 1 == |s.threads| {
      assert PlaceFits(s.threads[a.t].place, s.cycle);
      LastArrival(s, a.t);
    }
    hide Inv;
  }

  lemma {:induction false} RunCounts(s: State, actions: seq<Action>, u: State, t: nat)
    requires Inv(s) && Reaches(s, actions, u) && t < |s.threads|
    ensures |u.threads| == |s.threads|
    ensures StepsTo(s.threads[t].place, s.cycle) + StepsBy(actions, t) <= StepsTo(u.threads[t].place, u.cycle)
    decreases |actions|
  {
    if actions != [] {
      StepCounts(s, actions[0], t);
      DoKeepsInv(s, actions[0]);
      hide Inv, Do, Enabled, StepsTo, By;
      RunCounts(Do(s, actions[0]), actions[1..], u, t);
    }
  }

  /**
   * A thread takes at most five steps for each completed round, and a few more. So the threads cannot go on for ever
   * without completing rounds: a round that some thread can always carry on with comes to its end.
   */
  lemma RoundsEnd(n: nat, actions: seq<Action>, u: State, t: nat)
    requires n > 0 && Reaches(Start(n), actions, u) && t < n
    ensures StepsBy(actions, t) <= 5 * (u.cycle / 2) + 5
  {
    StartInv(n);
    RunCounts(Start(n), actions, u, t);
  }
}
