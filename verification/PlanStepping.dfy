/** Following a flight plan: applying it as a whole, applying part of it, and stepping along it. */
module PlanStepping {
  import opened Options
  import opened FlightPlans

  const SECOND := 1000000.0

  datatype Position = Position(x: real, y: real, velocity: Vector, timestamp: Option<int>)

  function Seconds(usec: int): real { usec as real / SECOND }

  /** The motion under a constant acceleration for `usec` microseconds. */
  function Accelerate(p: Position, acc: Vector, usec: int): Position {
    var t := Seconds(usec);
    var dv := acc.Times(t);
    var ds := p.velocity.Plus(dv.Times(0.5)).Times(t);
    Position(p.x + ds.x, p.y + ds.y, p.velocity.Plus(dv),
             Some(usec + if p.timestamp.Some? then p.timestamp.value else 0))
  }

  /** Free flight until `at`. */
  function Predict(p: Position, at: int): Position
    requires p.timestamp.Some?
  {
    var t := Seconds(at - p.timestamp.value);
    Position(p.x + p.velocity.x * t, p.y + p.velocity.y * t, p.velocity, Some(at))
  }

  /** The way along one axis at the mean of the speeds at its two ends. */
  function MeanWay(v: real, w: real, t: real): real { (v + w) / 2.0 * t }

  /** Where a constant acceleration leads: the speed changes by acceleration times time, and the way is made at the mean of
      the speeds before and after. */
  lemma AccelerateIsMotion(p: Position, acc: Vector, usec: int)
    ensures var q, t := Accelerate(p, acc, usec), usec as real / SECOND;
      && q.velocity.x == p.velocity.x + acc.x * t && q.velocity.y == p.velocity.y + acc.y * t
      && q.x - p.x == MeanWay(p.velocity.x, q.velocity.x, t) && q.y - p.y == MeanWay(p.velocity.y, q.velocity.y, t)
      && q.timestamp == Some(usec + if p.timestamp.Some? then p.timestamp.value else 0)
  {
    AccelerateIs(p, acc, usec);
    var t := Seconds(usec);
    hide Accelerate;
    MeanOfSpeeds(p.velocity.x, acc.x * t, t);
    MeanOfSpeeds(p.velocity.y, acc.y * t, t);
  }

  lemma MeanOfSpeeds(v: real, dv: real, t: real)
    ensures (v + dv * 0.5) * t == MeanWay(v, v + dv, t)
  {}

  /** Free flight keeps the speed and makes speed times time, until the time asked for. */
  lemma PredictIsFreeFlight(p: Position, at: int)
    requires p.timestamp.Some?
    ensures var q, t := Predict(p, at), (at - p.timestamp.value) as real / SECOND;
      && q.velocity == p.velocity && q.timestamp == Some(at)
      && q.x - p.x == MeanWay(p.velocity.x, q.velocity.x, t) && q.y - p.y == MeanWay(p.velocity.y, q.velocity.y, t)
  {
    MeanOfSpeeds(p.velocity.x, 0.0, Seconds(at - p.timestamp.value));
    MeanOfSpeeds(p.velocity.y, 0.0, Seconds(at - p.timestamp.value));
  }

  predicate NotLate(p: Position, m: Maneuver) { p.timestamp.Some? ==> p.timestamp.value <= m.at }

  function ApplyManeuver(m: Maneuver, p: Position): Position
    requires NotLate(p, m)
  {
    Accelerate(if p.timestamp.Some? then Predict(p, m.at) else p, m.acc, m.duration)
  }

  predicate CanApply(plan: FlightPlan, p: Position) {
    plan == [] || (NotLate(p, plan[0]) && CanApply(plan[1..], ApplyManeuver(plan[0], p)))
  }

  function ApplyPlan(plan: FlightPlan, p: Position): Position
    requires CanApply(plan, p)
  {
    if plan == [] then p else ApplyPlan(plan[1..], ApplyManeuver(plan[0], p))
  }

  method ApplyTo(plan: FlightPlan, position: Position) returns (p: Position)
    requires CanApply(plan, position)
    ensures p == ApplyPlan(plan, position)
  {
    p := position;
    var i := 0;
    while i < |plan|
      invariant 0 <= i <= |plan| && CanApply(plan[i..], p)
      invariant ApplyPlan(plan[i..], p) == ApplyPlan(plan, position)
    {
      assert plan[i..][1..] == plan[i + 1..];
      p := ApplyManeuver(plan[i], p);
      i := i + 1;
    }
  }

  lemma {:induction false} WellFormedCanApply(plan: FlightPlan, p: Position)
    requires WellFormed(plan) && p.timestamp.Some? && (plan != [] ==> p.timestamp.value <= plan[0].at)
    ensures CanApply(plan, p)
    ensures var q := ApplyPlan(plan, p);
      q.timestamp == if plan == [] then p.timestamp else Some(plan[|plan| - 1].EndsAt())
    decreases |plan|
  {
    if plan != [] {
      if |plan| > 1 { assert plan[0].EndsAt() <= plan[1].at; }
      WellFormedCanApply(plan[1..], ApplyManeuver(plan[0], p));
    }
  }

  // ------------------------------------------------------------------ part of a plan

  function Min(a: int, b: int): int { if b < a then b else a }

  predicate OnPlan(plan: FlightPlan, p: Position) {
    p.timestamp.Some? && (plan != [] ==> plan[0].at <= p.timestamp.value)
  }

  /** The state after `d` more microseconds, or at the end of the plan if that comes first. */
  function Partially(plan: FlightPlan, p: Position, d: int): Position
    requires Contiguous(plan) && OnPlan(plan, p)
    decreases |plan|
  {
    if plan == [] then p
    else
      var m := plan[0];
      if p.timestamp.value < m.EndsAt() then
        var dt := Min(m.EndsAt() - p.timestamp.value, d);
        var q := Accelerate(p, m.acc, dt);
        if d - dt <= 0 then q else Partially(plan[1..], q, d - dt)
      else Partially(plan[1..], p, d)
  }

  /** The end of a plan, which is 0 for an empty one. */
  function EndOf(plan: FlightPlan): int { if plan == [] then 0 else plan[|plan| - 1].EndsAt() }

  method PartiallyApplyTo(plan: FlightPlan, position: Position, duration: int) returns (p: Position)
    requires Contiguous(plan) && plan != [] && OnPlan(plan, position) && duration >= 0
    requires position.timestamp.value <= EndOf(plan)
    ensures p == Partially(plan, position, duration)
  {
    p := position;
    var left := duration;
    var i := 0;
    while i < |plan|
      invariant 0 <= i <= |plan| && Contiguous(plan[i..]) && OnPlan(plan[i..], p) && left >= 0
      invariant Partially(plan[i..], p, left) == Partially(plan, position, duration)
    {
      assert plan[i..][1..] == plan[i + 1..] && plan[i..][0] == plan[i];
      if i + 1 < |plan| { assert plan[i..][1] == plan[i + 1]; }
      if p.timestamp.value < plan[i].EndsAt() {
        var dt := Min(plan[i].EndsAt() - p.timestamp.value, left);
        p := Accelerate(p, plan[i].acc, dt);
        left := left - dt;
        if left <= 0 {
          return;
        }
      }
      i := i + 1;
    }
  }

  /** Accelerating for a time and then for another is accelerating for both. */
  lemma AccelerateSplits(p: Position, acc: Vector, a: int, b: int)
    ensures Accelerate(Accelerate(p, acc, a), acc, b) == Accelerate(p, acc, a + b)
  {
    var s, t := Seconds(a), Seconds(b);
    assert Seconds(a + b) == s + t;
    hide Seconds;
    AccelerateIs(p, acc, a);
    AccelerateIs(Accelerate(p, acc, a), acc, b);
    AccelerateIs(p, acc, a + b);
    Kinematics(p.velocity.x, acc.x, s, t);
    Kinematics(p.velocity.y, acc.y, s, t);
    hide Accelerate, NewSpeed, NewWay;
  }

  function NewSpeed(v: real, a: real, t: real): real { v + a * t }

  function NewWay(v: real, a: real, t: real): real { (v + a * t * 0.5) * t }

  lemma AccelerateIs(p: Position, acc: Vector, usec: int)
    ensures var t := Seconds(usec);
      Accelerate(p, acc, usec) == Position(
        p.x + NewWay(p.velocity.x, acc.x, t), p.y + NewWay(p.velocity.y, acc.y, t),
        Vector(NewSpeed(p.velocity.x, acc.x, t), NewSpeed(p.velocity.y, acc.y, t)),
        Some(usec + if p.timestamp.Some? then p.timestamp.value else 0))
  {
    hide Seconds;
    var t := Seconds(usec);
    var dv := acc.Times(t);
    assert dv == Vector(acc.x * t, acc.y * t);
    assert dv.Times(0.5) == Vector(acc.x * t * 0.5, acc.y * t * 0.5);
    var mean := p.velocity.Plus(dv.Times(0.5));
    assert mean == Vector(p.velocity.x + acc.x * t * 0.5, p.velocity.y + acc.y * t * 0.5);
    assert mean.Times(t) == Vector(mean.x * t, mean.y * t);
  }

  lemma Kinematics(v: real, a: real, s: real, t: real)
    ensures NewSpeed(NewSpeed(v, a, s), a, t) == NewSpeed(v, a, s + t)
    ensures NewWay(v, a, s) + NewWay(NewSpeed(v, a, s), a, t) == NewWay(v, a, s + t)
  {
    var as', at := a * s, a * t;
    assert a * (s + t) == as' + at;
    assert (v + as' * 0.5) * s == v * s + as' * s * 0.5;
    assert (v + as' + at * 0.5) * t == v * t + as' * t + at * t * 0.5;
    assert (v + (as' + at) * 0.5) * (s + t) == v * s + v * t + (as' + at) * 0.5 * s + (as' + at) * 0.5 * t;
    assert at * s == as' * t;
  }

  lemma AccelerateNothing(p: Position, acc: Vector)
    requires p.timestamp.Some?
    ensures Accelerate(p, acc, 0) == p
  {
    assert Seconds(0) == 0.0;
    assert acc.Times(0.0) == ZERO;
    assert p.velocity.Plus(ZERO) == p.velocity && ZERO.Times(0.5) == ZERO;
    assert p.velocity.Times(0.0) == ZERO;
  }

  /** Where a partial application leaves the clock. */
  lemma {:induction false} PartialTime(plan: FlightPlan, p: Position, d: int)
    requires Contiguous(plan) && plan != [] && OnPlan(plan, p) && p.timestamp.value <= EndOf(plan) && d >= 0
    ensures Partially(plan, p, d).timestamp == Some(Min(p.timestamp.value + d, EndOf(plan)))
    decreases |plan|
  {
    if |plan| > 1 { ContiguousEnds(plan); }
    var m := plan[0];
    if p.timestamp.value < m.EndsAt() {
      var dt := Min(m.EndsAt() - p.timestamp.value, d);
      if d - dt > 0 && |plan| > 1 { PartialTime(plan[1..], Accelerate(p, m.acc, dt), d - dt); }
    } else if |plan| > 1 {
      PartialTime(plan[1..], p, d);
    }
  }

  lemma ContiguousEnds(plan: FlightPlan)
    requires Contiguous(plan) && |plan| > 1
    ensures Contiguous(plan[1..]) && EndOf(plan[1..]) == EndOf(plan)
    ensures plan[0].EndsAt() == plan[1].at && plan[0].EndsAt() < EndOf(plan)
  {
    ContiguousIsWellFormed(plan[1..]);
  }

  /** Taking a time in two parts leads to the same state as taking it whole. */
  lemma {:induction false} PartiallySplits(plan: FlightPlan, p: Position, a: int, b: int)
    requires Contiguous(plan) && plan != [] && OnPlan(plan, p) && p.timestamp.value <= EndOf(plan) && a >= 0 && b >= 0
    ensures OnPlan(plan, Partially(plan, p, a))
    ensures Partially(plan, Partially(plan, p, a), b) == Partially(plan, p, a + b)
    decreases |plan|
  {
    PartialTime(plan, p, a);
    if |plan| > 1 { ContiguousEnds(plan); }
    var m := plan[0];
    if p.timestamp.value < m.EndsAt() {
      var rest := m.EndsAt() - p.timestamp.value;
      if a < rest {
        AccelerateSplits(p, m.acc, a, Min(rest - a, b));
      } else if |plan| > 1 {
        var q := Accelerate(p, m.acc, rest);
        AtEnd(plan, q, b);
        FromEnd(plan, p, a);
        FromEnd(plan, p, a + b);
        PartiallySplits(plan[1..], q, a - rest, b);
        PartialTime(plan[1..], q, a - rest);
        AtEnd(plan, Partially(plan[1..], q, a - rest), b);
      }
    } else if |plan| > 1 {
      PartialTime(plan[1..], p, a);
      PartiallySplits(plan[1..], p, a, b);
      AtEnd(plan, Partially(plan[1..], p, a), b);
    }
  }

  /** A state past the first maneuver is on the rest of the plan. */
  lemma AtEnd(plan: FlightPlan, q: Position, d: int)
    requires Contiguous(plan) && |plan| > 1 && q.timestamp.Some? && plan[0].EndsAt() <= q.timestamp.value && d >= 0
    ensures OnPlan(plan, q) && OnPlan(plan[1..], q)
    ensures Partially(plan, q, d) == Partially(plan[1..], q, d)
  {}

  lemma FromEnd(plan: FlightPlan, p: Position, d: int)
    requires Contiguous(plan) && |plan| > 1 && OnPlan(plan, p) && p.timestamp.value < plan[0].EndsAt()
    requires d >= plan[0].EndsAt() - p.timestamp.value
    ensures var rest := plan[0].EndsAt() - p.timestamp.value; var q := Accelerate(p, plan[0].acc, rest);
      OnPlan(plan[1..], q) && Partially(plan, p, d) == Partially(plan[1..], q, d - rest)
  {
    var rest := plan[0].EndsAt() - p.timestamp.value;
    var q := Accelerate(p, plan[0].acc, rest);
    if d == rest {
      assert q.timestamp.value < plan[1].EndsAt();
      AccelerateNothing(q, plan[1].acc);
    }
  }

  /** From its start, a plan taken for long enough is the plan applied as a whole. */
  lemma {:induction false} WholePlan(plan: FlightPlan, p: Position, d: int)
    requires Contiguous(plan) && plan != [] && p.timestamp == Some(plan[0].at) && d >= EndOf(plan) - plan[0].at
    ensures CanApply(plan, p) && Partially(plan, p, d) == ApplyPlan(plan, p)
    decreases |plan|
  {
    ContiguousIsWellFormed(plan);
    WellFormedCanApply(plan, p);
    var m := plan[0];
    assert Predict(p, m.at) == p by { assert Seconds(0) == 0.0; }
    if |plan| > 1 {
      ContiguousEnds(plan);
      FromEnd(plan, p, d);
      WholePlan(plan[1..], Accelerate(p, m.acc, m.duration), d - m.duration);
    } else {
      assert plan[1..] == [];
    }
  }

  /** From the plan's start, whatever number of steps ends at the plan's end leads where the whole plan leads. */
  lemma PathEndsAtTarget(plan: FlightPlan, p: Position, step: int, n: nat)
    requires Contiguous(plan) && plan != [] && p.timestamp == Some(plan[0].at) && step > 0 && n > 0
    requires Partially(plan, p, n * step).timestamp == Some(EndOf(plan))
    ensures CanApply(plan, p) && Partially(plan, p, n * step) == ApplyPlan(plan, p)
  {
    ContiguousIsWellFormed(plan);
    assert n * step > 0;
    PartialTime(plan, p, n * step);
    WholePlan(plan, p, n * step);
  }

  // ------------------------------------------------------------------ a path along the plan

  /** Steps of `step` microseconds until the end of the plan is reached: the path ends, its points are the states after
      one step, two steps and so on, and only the last of them is at the end. */
  method BuildPath(plan: FlightPlan, position: Position, step: int) returns (path: seq<Position>)
    requires Contiguous(plan) && OnPlan(plan, position) && step > 0
    requires plan == [] ==> position.timestamp.value >= 0
    ensures plan == [] ==> path == []
    ensures forall k :: 0 <= k < |path| ==> path[k] == Partially(plan, position, (k + 1) * step)
    ensures position.timestamp.value < EndOf(plan) ==> path != []
    ensures forall k :: 0 <= k < |path| ==>
      path[k].timestamp.Some? && (path[k].timestamp.value == EndOf(plan) <==> k == |path| - 1)
    ensures plan != [] && position.timestamp == Some(plan[0].at) ==>
      path != [] && CanApply(plan, position) && path[|path| - 1] == ApplyPlan(plan, position)
  {
    hide Partially, CanApply, ApplyPlan;
    path := [];
    var p := position;
    ghost var n := 0;
    if plan != [] && p.timestamp.value <= EndOf(plan) { PartialTime(plan, p, 0); StandStill(plan, p); }
    while p.timestamp.value < EndOf(plan)
      invariant n == |path| && OnPlan(plan, p)
      invariant plan == [] ==> p == position && path == []
      invariant plan != [] && position.timestamp.value <= EndOf(plan) ==>
        p == Partially(plan, position, n * step) && p.timestamp.value <= EndOf(plan)
      invariant position.timestamp.value > EndOf(plan) ==> p == position && path == []
      invariant forall k :: 0 <= k < |path| ==> path[k] == Partially(plan, position, (k + 1) * step)
      invariant forall k :: 0 <= k < |path| - 1 ==>
        path[k].timestamp.Some? && path[k].timestamp.value < EndOf(plan)
      invariant path != [] ==> p == path[|path| - 1]
      invariant path == [] ==> p == position
      decreases EndOf(plan) - p.timestamp.value
    {
      assert (n + 1) * step == n * step + step && n * step >= 0;
      PartiallySplits(plan, position, n * step, step);
      PartialTime(plan, p, step);
      p := PartiallyApplyTo(plan, p, step);
      path := path + [p];
      n := n + 1;
    }
    if plan != [] && position.timestamp == Some(plan[0].at) {
      ContiguousIsWellFormed(plan);
      PathEndsAtTarget(plan, position, step, n);
    }
  }

  lemma {:induction false} StandStill(plan: FlightPlan, p: Position)
    requires Contiguous(plan) && plan != [] && OnPlan(plan, p) && p.timestamp.value <= EndOf(plan)
    ensures Partially(plan, p, 0) == p
    decreases |plan|
  {
    if p.timestamp.value < plan[0].EndsAt() {
      AccelerateNothing(p, plan[0].acc);
    } else if |plan| > 1 {
      ContiguousEnds(plan);
      StandStill(plan[1..], p);
    }
  }

  // ------------------------------------------------------------------ what a plan does to the velocity

  /** Acceleration times time, in microseconds. */
  function Gained(acc: Vector, usec: int): Vector { acc.Times(usec as real) }

  /** The same over the whole plan. */
  function Impulse(plan: FlightPlan): Vector {
    if plan == [] then ZERO
    else Impulse(plan[..|plan| - 1]).Plus(Gained(plan[|plan| - 1].acc, plan[|plan| - 1].duration))
  }

  /** The plan's accelerations added up microsecond by microsecond. */
  function SumOver(plan: FlightPlan, a: int, b: int): Vector
    decreases b - a
  {
    if b <= a then ZERO else SumOver(plan, a, b - 1).Plus(AccelerationAt(plan, b - 1))
  }

  lemma GainedOneMore(v: Vector, k: int)
    ensures Gained(v, k + 1) == Gained(v, k).Plus(v)
    ensures Gained(v, 0) == ZERO
  {}

  lemma SumOneMore(plan: FlightPlan, a: int, b: int)
    requires a < b
    ensures SumOver(plan, a, b) == SumOver(plan, a, b - 1).Plus(AccelerationAt(plan, b - 1))
  {}

  /** How much of a maneuver lies before `b`. */
  function Covered(m: Maneuver, b: int): int { if b <= m.at then 0 else Min(b, m.EndsAt()) - m.at }

  lemma CoveredOneMore(m: Maneuver, b: int)
    requires m.duration >= 0
    ensures Covered(m, b) == Covered(m, b - 1) + if m.Covers(b - 1) then 1 else 0
  {}

  lemma PlusSwaps(u: Vector, v: Vector, w: Vector)
    ensures u.Plus(v).Plus(w) == u.Plus(w).Plus(v) && u.Plus(v.Plus(w)) == u.Plus(v).Plus(w) && u.Plus(ZERO) == u
  {}

  lemma NotCoveredBefore(plan: FlightPlan, m: Maneuver, t: int)
    requires WellFormed(plan + [m]) && m.Covers(t)
    ensures AccelerationAt(plan, t) == ZERO
  {
    forall i | 0 <= i < |plan| ensures plan[i].EndsAt() <= t {
      assert (plan + [m])[i] == plan[i] && (plan + [m])[|plan|] == m;
    }
    NothingOutside(plan, t);
  }

  lemma {:induction false} SumOfLonger(plan: FlightPlan, m: Maneuver, a: int, b: int)
    requires WellFormed(plan + [m]) && a <= b && a <= m.at
    ensures SumOver(plan + [m], a, b) == SumOver(plan, a, b).Plus(Gained(m.acc, Covered(m, b)))
    decreases b - a
  {
    assert (plan + [m])[|plan|] == m;
    assert m.duration >= 0;
    GainedOneMore(m.acc, Covered(m, b - 1));
    hide Gained;
    PlusSwaps(SumOver(plan, a, a), ZERO, ZERO);
    if a < b {
      SumOfLonger(plan, m, a, b - 1);
      CoveredOneMore(m, b);
      AccelerationOfLonger(plan, m, b - 1);
      SumOneMore(plan, a, b);
      SumOneMore(plan + [m], a, b);
      var pushed := Gained(m.acc, Covered(m, b - 1));
      PlusSwaps(SumOver(plan, a, b - 1), pushed, AccelerationAt(plan + [m], b - 1));
      PlusSwaps(SumOver(plan, a, b - 1), ZERO, pushed);
      if m.Covers(b - 1) { NotCoveredBefore(plan, m, b - 1); }
      hide WellFormed, AccelerationAt, SumOver, Covered;
    }
  }

  lemma {:induction false} ImpulseIsSum(plan: FlightPlan, a: int, b: int)
    requires WellFormed(plan) && a <= b
    requires forall i :: 0 <= i < |plan| ==> a <= plan[i].at && plan[i].EndsAt() <= b
    ensures Impulse(plan) == SumOver(plan, a, b)
    decreases |plan|
  {
    hide SumOver, Gained, AccelerationAt;
    if plan == [] {
      NoSum(a, b);
    } else {
      var prior, m := plan[..|plan| - 1], plan[|plan| - 1];
      assert plan == prior + [m];
      assert Covered(m, b) == m.duration;
      ImpulseIsSum(prior, a, b);
      SumOfLonger(prior, m, a, b);
      hide WellFormed, Covered;
    }
  }

  lemma {:induction false} NoSum(a: int, b: int)
    ensures SumOver([], a, b) == ZERO
    decreases b - a
  {
    if a < b { NoSum(a, b - 1); }
  }

  function TotalImpulse(plans: seq<FlightPlan>): Vector {
    if plans == [] then ZERO else TotalImpulse(plans[..|plans| - 1]).Plus(Impulse(plans[|plans| - 1]))
  }

  function TotalSum(plans: seq<FlightPlan>, a: int, b: int): Vector {
    if plans == [] then ZERO else TotalSum(plans[..|plans| - 1], a, b).Plus(SumOver(plans[|plans| - 1], a, b))
  }

  lemma {:induction false} TotalSumStep(plans: seq<FlightPlan>, a: int, b: int)
    requires a < b
    ensures TotalSum(plans, a, b) == TotalSum(plans, a, b - 1).Plus(TotalAcceleration(plans, b - 1))
    decreases |plans|
  {
    if plans != [] { TotalSumStep(plans[..|plans| - 1], a, b); }
  }

  lemma {:induction false} MergedSum(plans: seq<FlightPlan>, a: int, b: int)
    requires a <= b && forall k :: 0 <= k < |plans| ==> WellFormed(plans[k])
    ensures SumOver(Merge(plans), a, b) == TotalSum(plans, a, b)
    decreases b - a
  {
    if a < b {
      MergedSum(plans, a, b - 1);
      MergeAddsUp(plans, b - 1);
      TotalSumStep(plans, a, b);
    } else {
      NoTotal(plans, a, b);
    }
  }

  lemma {:induction false} NoTotal(plans: seq<FlightPlan>, a: int, b: int)
    requires b <= a
    ensures TotalSum(plans, a, b) == ZERO
    decreases |plans|
  {
    if plans != [] { NoTotal(plans[..|plans| - 1], a, b); }
  }

  lemma {:induction false} TotalImpulseIsSum(plans: seq<FlightPlan>, a: int, b: int)
    requires a <= b && forall k :: 0 <= k < |plans| ==> WellFormed(plans[k])
    requires forall k, i :: 0 <= k < |plans| && 0 <= i < |plans[k]| ==> a <= plans[k][i].at && plans[k][i].EndsAt() <= b
    ensures TotalImpulse(plans) == TotalSum(plans, a, b)
    decreases |plans|
  {
    if plans != [] {
      TotalImpulseIsSum(plans[..|plans| - 1], a, b);
      ImpulseIsSum(plans[|plans| - 1], a, b);
    }
  }

  /** Merging conserves impulse: the merged plan changes the velocity by the sum of what the plans would. */
  lemma MergeConservesImpulse(plans: seq<FlightPlan>)
    requires forall k :: 0 <= k < |plans| ==> WellFormed(plans[k])
    ensures Impulse(Merge(plans)) == TotalImpulse(plans)
  {
    var points := Sorted(AllPoints(plans));
    var a := if |points| == 0 then 0 else points[0];
    var b := if |points| == 0 then 0 else points[|points| - 1];
    forall k, i | 0 <= k < |plans| && 0 <= i < |plans[k]| ensures a <= plans[k][i].at && plans[k][i].EndsAt() <= b {
      PointsCoverPlan(plans[k]);
      assert plans[k][i].at in points && plans[k][i].EndsAt() in points;
    }
    MergeIsContiguous(plans);
    ContiguousIsWellFormed(Merge(plans));
    MergedBorders(plans, a, b);
    hide WellFormed, Contiguous, Sorted, AllPoints, Merge, SumOver, TotalSum, Impulse, TotalImpulse;
    ImpulseIsSum(Merge(plans), a, b);
    MergedSum(plans, a, b);
    TotalImpulseIsSum(plans, a, b);
  }

  lemma MergedBorders(plans: seq<FlightPlan>, a: int, b: int)
    requires var points := Sorted(AllPoints(plans)); |points| > 0 ==> a == points[0] && b == points[|points| - 1]
    ensures forall i :: 0 <= i < |Merge(plans)| ==> a <= Merge(plans)[i].at && Merge(plans)[i].EndsAt() <= b
  {
    var points, merged := Sorted(AllPoints(plans)), Merge(plans);
    hide AllPoints, TotalAcceleration;
    forall i | 0 <= i < |merged| ensures a <= merged[i].at && merged[i].EndsAt() <= b {
      assert merged[i].at == points[i] && merged[i].EndsAt() == points[i + 1];
      assert points[0] <= points[i] && points[i + 1] <= points[|points| - 1];
    }
  }

  /** Applying a plan changes the velocity by its impulse. */
  lemma {:induction false} ApplyAddsImpulse(plan: FlightPlan, p: Position)
    requires CanApply(plan, p)
    ensures ApplyPlan(plan, p).velocity == p.velocity.Plus(Impulse(plan).Times(1.0 / SECOND))
    decreases |plan|
  {
    if plan == [] {
    } else {
      var m := plan[0];
      ApplyAddsImpulse(plan[1..], ApplyManeuver(m, p));
      ImpulseFront(plan);
      ManeuverAddsImpulse(m, p);
      Spread(Gained(m.acc, m.duration), Impulse(plan[1..]), 1.0 / SECOND);
      hide ApplyManeuver, Impulse, Accelerate, Gained;
    }
  }

  lemma ManeuverAddsImpulse(m: Maneuver, p: Position)
    requires NotLate(p, m)
    ensures ApplyManeuver(m, p).velocity == p.velocity.Plus(Gained(m.acc, m.duration).Times(1.0 / SECOND))
  {}

  lemma Spread(u: Vector, v: Vector, k: real)
    ensures u.Plus(v).Times(k) == u.Times(k).Plus(v.Times(k))
  {}

  lemma {:induction false} ImpulseFront(plan: FlightPlan)
    requires plan != []
    ensures Impulse(plan) == Gained(plan[0].acc, plan[0].duration).Plus(Impulse(plan[1..]))
    decreases |plan|
  {
    if |plan| > 1 {
      ImpulseFront(plan[..|plan| - 1]);
      assert plan[..|plan| - 1][1..] == plan[1..][..|plan[1..]| - 1];
    }
  }

  // ------------------------------------------------------------------ where a plan leads

  /** What one maneuver adds to the place at time `end`: its acceleration times its duration, which is the speed gained,
      times the time from its middle on. Times are in microseconds. */
  function Push(m: Maneuver, end: int): Vector {
    Gained(m.acc, m.duration).Times(end as real - m.at as real - m.duration as real / 2.0)
  }

  function Pushes(plan: FlightPlan, end: int): Vector {
    if plan == [] then ZERO else Pushes(plan[..|plan| - 1], end).Plus(Push(plan[|plan| - 1], end))
  }

  lemma {:induction false} PushesFront(plan: FlightPlan, end: int)
    requires plan != []
    ensures Pushes(plan, end) == Push(plan[0], end).Plus(Pushes(plan[1..], end))
    decreases |plan|
  {
    hide Push;
    if |plan| > 1 {
      PushesFront(plan[..|plan| - 1], end);
      assert plan[..|plan| - 1][1..] == plan[1..][..|plan[1..]| - 1];
    } else {
      assert plan[..0] == [] && plan[1..] == [];
    }
  }

  /** The place at `end` if nothing but the speed of now were to carry the ship there. */
  function Drift(p: Position, end: int): Vector
    requires p.timestamp.Some?
  {
    Vector(p.x, p.y).Plus(p.velocity.Times(Seconds(end - p.timestamp.value)))
  }

  function ToSquareSeconds(v: Vector): Vector { v.Times(1.0 / SECOND / SECOND) }

  lemma DriftIs(p: Position, end: int)
    requires p.timestamp.Some?
    ensures var t := Seconds(end - p.timestamp.value);
      Drift(p, end) == Vector(p.x + p.velocity.x * t, p.y + p.velocity.y * t)
  {
    hide Seconds;
    var t := Seconds(end - p.timestamp.value);
    assert p.velocity.Times(t) == Vector(p.velocity.x * t, p.velocity.y * t);
  }

  lemma ManeuverIs(m: Maneuver, p: Position)
    requires p.timestamp.Some? && NotLate(p, m)
    ensures var q, s, d := ApplyManeuver(m, p), Seconds(m.at - p.timestamp.value), Seconds(m.duration);
      && q.timestamp == Some(m.EndsAt())
      && q.velocity == Vector(NewSpeed(p.velocity.x, m.acc.x, d), NewSpeed(p.velocity.y, m.acc.y, d))
      && q.x == p.x + p.velocity.x * s + NewWay(p.velocity.x, m.acc.x, d)
      && q.y == p.y + p.velocity.y * s + NewWay(p.velocity.y, m.acc.y, d)
  {
    hide Seconds;
    AccelerateIs(Predict(p, m.at), m.acc, m.duration);
    hide Accelerate, NewSpeed, NewWay;
  }

  lemma PushIs(m: Maneuver, end: int)
    ensures var d, r := Seconds(m.duration), Seconds(end - m.EndsAt());
      ToSquareSeconds(Push(m, end)) == Vector(m.acc.x * d * (d / 2.0 + r), m.acc.y * d * (d / 2.0 + r))
  {
    var d, r := Seconds(m.duration), Seconds(end - m.EndsAt());
    FromMiddle(m.at, m.duration, end);
    assert d == m.duration as real / SECOND;
    hide Seconds;
    Scaled(m.acc.x, m.duration as real, d / 2.0 + r);
    Scaled(m.acc.y, m.duration as real, d / 2.0 + r);
  }

  lemma FromMiddle(at: int, duration: int, end: int)
    ensures end as real - at as real - duration as real / 2.0 ==
      (Seconds(duration) / 2.0 + Seconds(end - (at + duration))) * SECOND
  {}

  lemma Scaled(a: real, usec: real, t: real)
    ensures a * usec * (t * SECOND) * (1.0 / SECOND / SECOND) == a * (usec / SECOND) * t
  {
    var n, k := a * usec, 1.0 / SECOND;
    assert n * (t * SECOND) == n * t * SECOND;
    assert n * t * SECOND * (1.0 / SECOND / SECOND) == n * t * k;
    assert a * (usec / SECOND) == n * k;
  }

  /** `s` seconds of free flight, `d` of acceleration, and `r` of free flight again. */
  lemma PushAxis(x: real, v: real, a: real, s: real, d: real, r: real)
    ensures x + v * s + (v + a * d * 0.5) * d + (v + a * d) * r == x + v * (s + d + r) + a * d * (d / 2.0 + r)
  {
    var g := a * d;
    assert (v + g * 0.5) * d == v * d + g * (d / 2.0);
    assert (v + g) * r == v * r + g * r;
    assert v * (s + d + r) == v * s + v * d + v * r;
    assert g * (d / 2.0 + r) == g * (d / 2.0) + g * r;
  }

  lemma SecondsAddUp(a: int, b: int, c: int, d: int)
    ensures Seconds(d - a) == Seconds(b - a) + Seconds(c - b) + Seconds(d - c)
  {}

  /** A maneuver moves the place at every later time by what it pushes. */
  lemma ManeuverPushes(m: Maneuver, p: Position, end: int)
    requires p.timestamp.Some? && NotLate(p, m)
    ensures ApplyManeuver(m, p).timestamp == Some(m.EndsAt())
    ensures Drift(ApplyManeuver(m, p), end) == Drift(p, end).Plus(ToSquareSeconds(Push(m, end)))
  {
    var s, d, r := Seconds(m.at - p.timestamp.value), Seconds(m.duration), Seconds(end - m.EndsAt());
    ManeuverIs(m, p);
    DriftIs(p, end);
    DriftIs(ApplyManeuver(m, p), end);
    PushIs(m, end);
    SecondsAddUp(p.timestamp.value, m.at, m.EndsAt(), end);
    hide ApplyManeuver, Drift, ToSquareSeconds, Push, Seconds;
    assert Seconds(end - p.timestamp.value) == s + d + r;
    PushAxis(p.x, p.velocity.x, m.acc.x, s, d, r);
    PushAxis(p.y, p.velocity.y, m.acc.y, s, d, r);
  }

  /** Where a plan leads: seen at any time from the end of the plan on, the ship is where its first speed alone would have
      carried it, moved by what each maneuver pushes. */
  lemma {:induction false} ApplyMovesByPushes(plan: FlightPlan, p: Position, end: int)
    requires CanApply(plan, p) && p.timestamp.Some?
    ensures var q := ApplyPlan(plan, p);
      && q.timestamp == Some(if plan == [] then p.timestamp.value else plan[|plan| - 1].EndsAt())
      && Drift(q, end) == Drift(p, end).Plus(ToSquareSeconds(Pushes(plan, end)))
    decreases |plan|
  {
    hide Drift, Push, ApplyManeuver, ToSquareSeconds;
    if plan == [] {
      NoPush(p, end);
    } else {
      ManeuverPushes(plan[0], p, end);
      ApplyMovesByPushes(plan[1..], ApplyManeuver(plan[0], p), end);
      PushesFront(plan, end);
      SpreadPushes(Push(plan[0], end), Pushes(plan[1..], end));
      hide Pushes;
      PlusAssociates(Drift(p, end), ToSquareSeconds(Push(plan[0], end)), ToSquareSeconds(Pushes(plan[1..], end)));
    }
  }

  lemma NoPush(p: Position, end: int)
    requires p.timestamp.Some?
    ensures Drift(p, end) == Drift(p, end).Plus(ToSquareSeconds(Pushes([], end)))
  {}

  lemma SpreadPushes(u: Vector, v: Vector)
    ensures ToSquareSeconds(u.Plus(v)) == ToSquareSeconds(u).Plus(ToSquareSeconds(v))
  {
    Spread(u, v, 1.0 / SECOND / SECOND);
  }

  lemma PlusAssociates(u: Vector, v: Vector, w: Vector)
    ensures u.Plus(v).Plus(w) == u.Plus(v.Plus(w))
  {}

  /** So this is the place at the end of the plan itself. */
  lemma PlanEndsAt(plan: FlightPlan, p: Position)
    requires CanApply(plan, p) && p.timestamp.Some? && plan != []
    ensures var q, end := ApplyPlan(plan, p), plan[|plan| - 1].EndsAt();
      Vector(q.x, q.y) == Drift(p, end).Plus(ToSquareSeconds(Pushes(plan, end)))
  {
    var end := plan[|plan| - 1].EndsAt();
    ApplyMovesByPushes(plan, p, end);
    DriftNow(ApplyPlan(plan, p));
    hide Pushes, ApplyPlan, CanApply, Drift, ToSquareSeconds;
  }

  lemma DriftNow(q: Position)
    requires q.timestamp.Some?
    ensures Drift(q, q.timestamp.value) == Vector(q.x, q.y)
  {
    assert Seconds(0) == 0.0 && q.velocity.Times(0.0) == ZERO;
  }

  // ------------------------------------------------------------------ every moment of a plan

  /** One microsecond along the plan is flown with the plan's acceleration at that time. */
  lemma {:induction false} OneMicrosecond(plan: FlightPlan, p: Position)
    requires Contiguous(plan) && plan != [] && OnPlan(plan, p) && p.timestamp.value < EndOf(plan)
    ensures Partially(plan, p, 1) == Accelerate(p, AccelerationAt(plan, p.timestamp.value), 1)
    decreases |plan|
  {
    if p.timestamp.value >= plan[0].EndsAt() {
      ContiguousEnds(plan);
      OneMicrosecond(plan[1..], p);
    }
  }

  /** So the whole course is known: the state after one more microsecond follows from the plan's acceleration. */
  lemma NextMicrosecond(plan: FlightPlan, p: Position, d: int)
    requires Contiguous(plan) && plan != [] && OnPlan(plan, p) && d >= 0 && p.timestamp.value + d < EndOf(plan)
    ensures Partially(plan, p, 0) == p
    ensures Partially(plan, p, d + 1) ==
      Accelerate(Partially(plan, p, d), AccelerationAt(plan, p.timestamp.value + d), 1)
  {
    StandStill(plan, p);
    PartialTime(plan, p, d);
    PartiallySplits(plan, p, d, 1);
    OneMicrosecond(plan, Partially(plan, p, d));
  }
}
