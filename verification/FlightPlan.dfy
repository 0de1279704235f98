/** Flight plans: lists of constant-acceleration maneuvers, their merging and their squashing. */
module FlightPlans {
  datatype Vector = Vector(x: real, y: real) {
    function Plus(v: Vector): Vector { Vector(x + v.x, y + v.y) }

    function Minus(v: Vector): Vector { Vector(x - v.x, y - v.y) }

    function Times(k: real): Vector { Vector(x * k, y * k) }

    function AbsSqr(): real { x * x + y * y }
  }

  const ZERO := Vector(0.0, 0.0)

  /** Times and durations are in microseconds. */
  datatype Maneuver = Maneuver(at: int, duration: int, acc: Vector) {
    function EndsAt(): int { at + duration }

    predicate Covers(t: int) { at <= t < EndsAt() }
  }

  type FlightPlan = seq<Maneuver>

  function AccelerationAt(plan: FlightPlan, t: int): Vector {
    if plan == [] || t < plan[0].at then ZERO
    else if t < plan[0].EndsAt() then plan[0].acc
    else AccelerationAt(plan[1..], t)
  }

  /** Maneuvers in order of time, none beginning before the last one has ended. */
  ghost predicate WellFormed(plan: FlightPlan) {
    && (forall i :: 0 <= i < |plan| ==> plan[i].duration >= 0)
    && (forall i, j :: 0 <= i < j < |plan| ==> plan[i].EndsAt() <= plan[j].at)
  }

  ghost predicate Contiguous(plan: FlightPlan) {
    && (forall i :: 0 <= i < |plan| ==> plan[i].duration > 0)
    && (forall i :: 0 < i < |plan| ==> plan[i - 1].EndsAt() == plan[i].at)
  }

  lemma {:induction false} ContiguousIsWellFormed(plan: FlightPlan)
    requires Contiguous(plan)
    ensures WellFormed(plan)
    ensures forall i :: 0 <= i < |plan| ==> plan[0].at <= plan[i].at
    decreases |plan|
  {
    if plan != [] {
      ContiguousIsWellFormed(plan[..|plan| - 1]);
      forall i, j | 0 <= i < j < |plan| ensures plan[i].EndsAt() <= plan[j].at {
        if j == |plan| - 1 && i < j - 1 { assert plan[i].EndsAt() <= plan[j - 1].at; }
      }
    }
  }

  // ------------------------------------------------------------------ time points

  function TimePoints(plan: FlightPlan): seq<int> {
    if plan == [] then []
    else
      var points := TimePoints(plan[..|plan| - 1]);
      var m := plan[|plan| - 1];
      if points == [] || points[|points| - 1] < m.at then points + [m.at, m.EndsAt()] else points + [m.EndsAt()]
  }

  method ComputeTimePoints(plan: FlightPlan) returns (points: seq<int>)
    ensures points == TimePoints(plan)
  {
    points := [];
    var i := 0;
    while i < |plan|
      invariant 0 <= i <= |plan| && points == TimePoints(plan[..i])
    {
      assert plan[..i + 1][..i] == plan[..i];
      if points == [] || points[|points| - 1] < plan[i].at {
        points := points + [plan[i].at, plan[i].at + plan[i].duration];
      } else {
        points := points + [plan[i].at + plan[i].duration];
      }
      i := i + 1;
    }
    assert plan[..i] == plan;
  }

  /** The beginning and the end of every maneuver is a time point. */
  lemma {:induction false} PointsCoverPlan(plan: FlightPlan)
    requires WellFormed(plan)
    ensures forall i :: 0 <= i < |plan| ==> plan[i].at in TimePoints(plan) && plan[i].EndsAt() in TimePoints(plan)
    ensures plan != [] ==> TimePoints(plan) != [] && TimePoints(plan)[|TimePoints(plan)| - 1] == plan[|plan| - 1].EndsAt()
    decreases |plan|
  {
    if plan != [] {
      var prior, m := plan[..|plan| - 1], plan[|plan| - 1];
      PointsCoverPlan(prior);
      var points, all := TimePoints(prior), TimePoints(plan);
      assert forall p :: p in points ==> p in all;
      if prior != [] && points[|points| - 1] >= m.at { assert points[|points| - 1] == m.at; }
    }
  }

  /** And there is no other time point. */
  lemma {:induction false} PointsAreBorders(plan: FlightPlan, p: int)
    requires p in TimePoints(plan)
    ensures exists i :: 0 <= i < |plan| && (p == plan[i].at || p == plan[i].EndsAt())
    decreases |plan|
  {
    var prior, m := plan[..|plan| - 1], plan[|plan| - 1];
    if p in TimePoints(prior) {
      PointsAreBorders(prior, p);
      var i :| 0 <= i < |prior| && (p == prior[i].at || p == prior[i].EndsAt());
      assert plan[i] == prior[i];
    } else {
      assert p == m.at || p == m.EndsAt();
      assert plan[|plan| - 1] == m;
    }
  }

  // ------------------------------------------------------------------ merging

  /** The members of a set in increasing order. */
  function Sorted(s: set<int>): (r: seq<int>)
    ensures forall i, j :: 0 <= i < j < |r| ==> r[i] < r[j]
    ensures forall v :: v in r <==> v in s
    decreases |s|
  {
    if |s| == 0 then []
    else
      var m := Least(s);
      var rest := Sorted(s - {m});
      assert forall i :: 0 <= i < |rest| ==> rest[i] in s - {m};
      [m] + rest
  }

  function Least(s: set<int>): (m: int)
    requires |s| > 0
    ensures m in s && forall v :: v in s ==> m <= v
  {
    HasLeast(s);
    var m :| m in s && forall v :: v in s ==> m <= v;
    m
  }

  lemma {:induction false} HasLeast(s: set<int>)
    requires |s| > 0
    ensures exists m :: m in s && forall v :: v in s ==> m <= v
    decreases |s|
  {
    if forall v :: v !in s { assert false; }
    var v :| v in s;
    var rest := s - {v};
    if |rest| > 0 {
      HasLeast(rest);
      var m :| m in rest && forall u :: u in rest ==> m <= u;
      var least := if m < v then m else v;
      assert forall u :: u in s ==> u == v || u in rest;
      assert least in s && forall u :: u in s ==> least <= u;
    } else {
      assert forall u :: u in s ==> u == v || u in rest;
    }
  }

  function AllPoints(plans: seq<FlightPlan>): set<int> {
    set i, p | 0 <= i < |plans| && p in TimePoints(plans[i]) :: p
  }

  function TotalAcceleration(plans: seq<FlightPlan>, t: int): Vector {
    if plans == [] then ZERO
    else TotalAcceleration(plans[..|plans| - 1], t).Plus(AccelerationAt(plans[|plans| - 1], t))
  }

  /** The total over two groups of plans is the sum of their totals; over one plan it is that plan's acceleration. */
  lemma {:induction false} TotalsAddUp(first: seq<FlightPlan>, second: seq<FlightPlan>, t: int)
    ensures TotalAcceleration(first + second, t) == TotalAcceleration(first, t).Plus(TotalAcceleration(second, t))
    decreases |second|
  {
    if second == [] {
      assert first + second == first;
    } else {
      assert (first + second)[..|first + second| - 1] == first + second[..|second| - 1];
      TotalsAddUp(first, second[..|second| - 1], t);
    }
  }

  lemma TotalOfOne(plan: FlightPlan, t: int)
    ensures TotalAcceleration([plan], t) == AccelerationAt(plan, t) && TotalAcceleration([], t) == ZERO
  {
    assert [plan][..0] == [];
  }

  /** The maneuvers between successive points, each with the acceleration at its beginning. */
  function Pieces(plans: seq<FlightPlan>, points: seq<int>): (ms: FlightPlan)
    ensures |ms| == if |points| == 0 then 0 else |points| - 1
    ensures forall i :: 0 <= i < |ms| ==>
      ms[i].at == points[i] && ms[i].EndsAt() == points[i + 1] && ms[i].acc == TotalAcceleration(plans, points[i])
    decreases |points|
  {
    if |points| <= 1 then []
    else
      var n := |points| - 1;
      Pieces(plans, points[..n]) +
      [Maneuver(points[n - 1], points[n] - points[n - 1], TotalAcceleration(plans, points[n - 1]))]
  }

  function Merge(plans: seq<FlightPlan>): FlightPlan { Pieces(plans, Sorted(AllPoints(plans))) }

  /** Between two times with no maneuver border in between, a plan's acceleration does not change. */
  lemma {:induction false} ConstantBetweenBorders(plan: FlightPlan, a: int, b: int)
    requires a <= b
    requires forall i :: 0 <= i < |plan| ==> !(a < plan[i].at <= b) && !(a < plan[i].EndsAt() <= b)
    ensures AccelerationAt(plan, a) == AccelerationAt(plan, b)
    decreases |plan|
  {
    if plan != [] { ConstantBetweenBorders(plan[1..], a, b); }
  }

  lemma {:induction false} NothingOutside(plan: FlightPlan, t: int)
    requires (forall i :: 0 <= i < |plan| ==> t < plan[i].at) || (forall i :: 0 <= i < |plan| ==> plan[i].EndsAt() <= t)
    ensures AccelerationAt(plan, t) == ZERO
    decreases |plan|
  {
    if plan != [] && t >= plan[0].at { NothingOutside(plan[1..], t); }
  }

  /** In a well-formed plan a maneuver that covers `t` decides the acceleration at `t`. */
  lemma {:induction false} CoveringManeuver(plan: FlightPlan, i: nat, t: int)
    requires WellFormed(plan) && i < |plan| && plan[i].Covers(t)
    ensures AccelerationAt(plan, t) == plan[i].acc
    decreases |plan|
  {
    if i > 0 {
      assert plan[0].EndsAt() <= plan[i].at;
      CoveringManeuver(plan[1..], i - 1, t);
    }
  }

  lemma {:induction false} TotalConstant(plans: seq<FlightPlan>, a: int, b: int)
    requires a <= b && forall k :: 0 <= k < |plans| ==> WellFormed(plans[k])
    requires forall p :: p in AllPoints(plans) ==> !(a < p <= b)
    ensures TotalAcceleration(plans, a) == TotalAcceleration(plans, b)
    decreases |plans|
  {
    if plans != [] {
      var prior, plan := plans[..|plans| - 1], plans[|plans| - 1];
      PointsCoverPlan(plan);
      forall p | p in TimePoints(plan) ensures p in AllPoints(plans) { assert p in TimePoints(plans[|plans| - 1]); }
      forall p | p in AllPoints(prior) ensures p in AllPoints(plans) {
        var i :| 0 <= i < |prior| && p in TimePoints(prior[i]);
        assert p in TimePoints(plans[i]);
      }
      ConstantBetweenBorders(plan, a, b);
      TotalConstant(prior, a, b);
    }
  }

  lemma {:induction false} TotalOutside(plans: seq<FlightPlan>, t: int)
    requires forall k :: 0 <= k < |plans| ==> WellFormed(plans[k])
    requires (forall p :: p in AllPoints(plans) ==> t < p) || (forall p :: p in AllPoints(plans) ==> p <= t)
    ensures TotalAcceleration(plans, t) == ZERO
    decreases |plans|
  {
    if plans != [] {
      var prior, plan := plans[..|plans| - 1], plans[|plans| - 1];
      PointsCoverPlan(plan);
      forall p | p in TimePoints(plan) ensures p in AllPoints(plans) { assert p in TimePoints(plans[|plans| - 1]); }
      forall p | p in AllPoints(prior) ensures p in AllPoints(plans) {
        var i :| 0 <= i < |prior| && p in TimePoints(prior[i]);
        assert p in TimePoints(plans[i]);
      }
      NothingOutside(plan, t);
      TotalOutside(prior, t);
    }
  }

  /** The last point at or before `t`. */
  lemma LastPointBefore(points: seq<int>, t: int) returns (k: nat)
    requires |points| > 0 && points[0] <= t < points[|points| - 1]
    requires forall i, j :: 0 <= i < j < |points| ==> points[i] < points[j]
    ensures k + 1 < |points| && points[k] <= t < points[k + 1]
  {
    k := 0;
    while points[k + 1] <= t
      invariant k + 1 < |points| && points[k] <= t
      decreases |points| - k
    {
      k := k + 1;
    }
  }

  lemma MergeIsContiguous(plans: seq<FlightPlan>)
    ensures Contiguous(Merge(plans))
  {
    var points, ms := Sorted(AllPoints(plans)), Merge(plans);
    forall i | 0 <= i < |ms| ensures ms[i].duration > 0 {
      assert ms[i].EndsAt() == points[i + 1] && ms[i].at == points[i];
    }
  }

  lemma NoPointBetween(plans: seq<FlightPlan>, k: nat, t: int)
    requires var points := Sorted(AllPoints(plans)); k + 1 < |points| && points[k] <= t < points[k + 1]
    ensures forall p :: p in AllPoints(plans) ==> !(Sorted(AllPoints(plans))[k] < p <= t)
  {
    var points := Sorted(AllPoints(plans));
    hide AllPoints;
    forall p | p in AllPoints(plans) ensures !(points[k] < p <= t) {
      var i :| 0 <= i < |points| && points[i] == p;
      if k < i && k + 1 < i { assert points[k + 1] < points[i]; }
    }
  }

  lemma AllPointsWithin(plans: seq<FlightPlan>, p: int)
    requires p in AllPoints(plans)
    ensures var points := Sorted(AllPoints(plans)); |points| > 0 && points[0] <= p <= points[|points| - 1]
  {
    var points := Sorted(AllPoints(plans));
    hide AllPoints;
    var i :| 0 <= i < |points| && points[i] == p;
  }

  lemma MergedBetween(plans: seq<FlightPlan>, t: int)
    requires var points := Sorted(AllPoints(plans)); |points| == 0 || !(points[0] <= t < points[|points| - 1])
    ensures AccelerationAt(Merge(plans), t) == ZERO
  {
    MergeIsContiguous(plans);
    var points, merged := Sorted(AllPoints(plans)), Merge(plans);
    assert |points| > 0 ==> |merged| == |points| - 1;
    hide AllPoints, TotalAcceleration, AccelerationAt;
    if |points| > 0 {
      forall i | 0 <= i < |merged| ensures points[0] <= merged[i].at && merged[i].EndsAt() <= points[|points| - 1] {
        assert merged[i].at == points[i] && merged[i].EndsAt() == points[i + 1];
      }
    }
    NothingOutside(merged, t);
  }

  /** Merging loses nothing and invents nothing: at every time the merged plan's acceleration is the sum of the plans'. */
  lemma MergeAddsUp(plans: seq<FlightPlan>, t: int)
    requires forall k :: 0 <= k < |plans| ==> WellFormed(plans[k])
    ensures AccelerationAt(Merge(plans), t) == TotalAcceleration(plans, t)
  {
    var points, merged := Sorted(AllPoints(plans)), Merge(plans);
    MergeIsContiguous(plans);
    ContiguousIsWellFormed(merged);
    hide AllPoints, TotalAcceleration, AccelerationAt, WellFormed, Contiguous;
    if |points| > 0 && points[0] <= t < points[|points| - 1] {
      var k := LastPointBefore(points, t);
      assert merged[k].Covers(t) && merged[k].acc == TotalAcceleration(plans, points[k]);
      CoveringManeuver(merged, k, t);
      NoPointBetween(plans, k, t);
      TotalConstant(plans, points[k], t);
    } else {
      MergedBetween(plans, t);
      forall p | p in AllPoints(plans) ensures |points| > 0 && points[0] <= p <= points[|points| - 1] {
        AllPointsWithin(plans, p);
      }
      TotalOutside(plans, t);
    }
  }

  // ------------------------------------------------------------------ squashing

  const COLLINEAR := 0.02
  const CLOSE_SQR := 0.0000000001

  predicate Codirected(a: Vector, b: Vector) {
    && -COLLINEAR < a.x * b.y - a.y * b.x < COLLINEAR
    && a.x * b.x >= 0.0 && a.y * b.y >= 0.0
  }

  /** Closer than 0.00001 to each other, compared by squares. */
  predicate Near(a: Vector, b: Vector) { a.Minus(b).AbsSqr() < CLOSE_SQR }

  predicate Joins(result: FlightPlan, m: Maneuver) {
    && result != []
    && Codirected(result[|result| - 1].acc, m.acc) && Near(result[|result| - 1].acc, m.acc)
  }

  function Lengthen(result: FlightPlan, d: int): FlightPlan
    requires result != []
  {
    var last := result[|result| - 1];
    result[..|result| - 1] + [last.(duration := last.duration + d)]
  }

  function Squash(ms: seq<Maneuver>): FlightPlan {
    if ms == [] then []
    else
      var result := Squash(ms[..|ms| - 1]);
      var m := ms[|ms| - 1];
      if Joins(result, m) then Lengthen(result, m.duration) else result + [m]
  }

  method SquashManeuvers(ms: seq<Maneuver>) returns (result: FlightPlan)
    ensures result == Squash(ms)
  {
    result := [];
    var i := 0;
    while i < |ms|
      invariant 0 <= i <= |ms| && result == Squash(ms[..i])
    {
      assert ms[..i + 1][..i] == ms[..i];
      if Joins(result, ms[i]) {
        var previous := result[|result| - 1];
        result := result[..|result| - 1] + [Maneuver(previous.at, previous.duration + ms[i].duration, previous.acc)];
      } else {
        result := result + [ms[i]];
      }
      i := i + 1;
    }
    assert ms[..i] == ms;
  }

  method CollectPoints(plans: seq<FlightPlan>) returns (points: seq<int>)
    ensures points == Sorted(AllPoints(plans))
  {
    var collected: set<int> := {};
    var k := 0;
    while k < |plans|
      invariant 0 <= k <= |plans| && collected == AllPoints(plans[..k])
    {
      var more := ComputeTimePoints(plans[k]);
      AllPointsOneMore(plans, k);
      collected := collected + set p | p in more;
      k := k + 1;
    }
    assert plans[..k] == plans;
    points := Sorted(collected);
  }

  method AddAccelerations(plans: seq<FlightPlan>, t: int) returns (acceleration: Vector)
    ensures acceleration == TotalAcceleration(plans, t)
  {
    acceleration := ZERO;
    var j := 0;
    while j < |plans|
      invariant 0 <= j <= |plans| && acceleration == TotalAcceleration(plans[..j], t)
    {
      assert plans[..j + 1][..j] == plans[..j];
      acceleration := acceleration.Plus(AccelerationAt(plans[j], t));
      j := j + 1;
    }
    assert plans[..j] == plans;
  }

  lemma NoPieces(plans: seq<FlightPlan>)
    ensures Pieces(plans, []) == [] && Squash([]) == []
  {}

  lemma OnePoint(plans: seq<FlightPlan>, points: seq<int>)
    requires points != []
    ensures Pieces(plans, points[..1]) == []
  {}

  lemma PiecesOneMore(plans: seq<FlightPlan>, points: seq<int>, i: nat)
    requires i + 1 < |points|
    ensures Pieces(plans, points[..i + 2]) == Pieces(plans, points[..i + 1]) +
      [Maneuver(points[i], points[i + 1] - points[i], TotalAcceleration(plans, points[i]))]
  {
    assert points[..i + 2][..i + 1] == points[..i + 1];
  }

  method MergePlans(plans: seq<FlightPlan>, squash: bool) returns (merged: FlightPlan)
    ensures merged == if squash then Squash(Merge(plans)) else Merge(plans)
  {
    var points := CollectPoints(plans);
    hide TotalAcceleration, AllPoints, Squash, Pieces;
    if points == [] {
      NoPieces(plans);
      return [];
    }
    OnePoint(plans, points);
    var maneuvers: FlightPlan := [];
    var i := 0;
    while i + 1 < |points|
      invariant 0 <= i < |points| && maneuvers == Pieces(plans, points[..i + 1])
    {
      var acceleration := AddAccelerations(plans, points[i]);
      PiecesOneMore(plans, points, i);
      maneuvers := maneuvers + [Maneuver(points[i], points[i + 1] - points[i], acceleration)];
      i := i + 1;
    }
    assert points[..i + 1] == points;
    if squash {
      merged := SquashManeuvers(maneuvers);
    } else {
      merged := maneuvers;
    }
  }

  lemma AllPointsOneMore(plans: seq<FlightPlan>, k: nat)
    requires k < |plans|
    ensures AllPoints(plans[..k + 1]) == AllPoints(plans[..k]) + set p | p in TimePoints(plans[k])
  {
    var a, b := plans[..k + 1], plans[..k];
    forall p ensures p in AllPoints(a) <==> p in AllPoints(b) || p in TimePoints(plans[k]) {
      if p in AllPoints(a) {
        var i :| 0 <= i < |a| && p in TimePoints(a[i]);
        if i < k { assert p in TimePoints(b[i]); }
      }
      if p in AllPoints(b) {
        var i :| 0 <= i < |b| && p in TimePoints(b[i]);
        assert p in TimePoints(a[i]);
      }
      if p in TimePoints(plans[k]) { assert p in TimePoints(a[k]); }
    }
  }

  lemma {:induction false} AccelerationOfLonger(plan: FlightPlan, m: Maneuver, t: int)
    requires WellFormed(plan + [m])
    ensures AccelerationAt(plan + [m], t) == if m.Covers(t) then m.acc else AccelerationAt(plan, t)
    decreases |plan|
  {
    var all := plan + [m];
    assert all[|plan|] == m;
    if plan != [] {
      assert all[0] == plan[0] && all[1..] == plan[1..] + [m];
      assert plan[0].EndsAt() <= m.at;
      AccelerationOfLonger(plan[1..], m, t);
    }
  }

  /** Squashing keeps the plan contiguous, its beginning, and its end. */
  lemma {:induction false} SquashIsContiguous(ms: seq<Maneuver>)
    requires Contiguous(ms)
    ensures Contiguous(Squash(ms)) && (Squash(ms) == [] <==> ms == [])
    ensures ms != [] ==>
      Squash(ms)[0].at == ms[0].at && Squash(ms)[|Squash(ms)| - 1].EndsAt() == ms[|ms| - 1].EndsAt()
    decreases |ms|
  {
    hide Joins;
    if ms != [] {
      var prior, m := ms[..|ms| - 1], ms[|ms| - 1];
      SquashIsContiguous(prior);
      SquashStep(ms);
      var result := Squash(prior);
      if result != [] { assert result[|result| - 1].EndsAt() == prior[|prior| - 1].EndsAt() == m.at; }
      hide Squash;
    }
  }

  predicate Joinable(a: Maneuver, b: Maneuver) { Codirected(a.acc, b.acc) && Near(a.acc, b.acc) }

  /** Squashing joins all that it may: no two neighbours of the result are joinable, and every acceleration in it was there
      before. */
  lemma {:induction false} SquashJoinsAll(ms: seq<Maneuver>)
    ensures |Squash(ms)| <= |ms|
    ensures forall i :: 0 < i < |Squash(ms)| ==> !Joinable(Squash(ms)[i - 1], Squash(ms)[i])
    ensures forall i :: 0 <= i < |Squash(ms)| ==> exists j :: 0 <= j < |ms| && ms[j].acc == Squash(ms)[i].acc
    decreases |ms|
  {
    if ms != [] {
      var prior, m := ms[..|ms| - 1], ms[|ms| - 1];
      SquashJoinsAll(prior);
      var result, all := Squash(prior), Squash(ms);
      hide Near, Codirected;
      if Joins(result, m) {
        assert all == Lengthen(result, m.duration);
        forall i | 0 < i < |all| ensures !Joinable(all[i - 1], all[i]) { assert !Joinable(result[i - 1], result[i]); }
      } else {
        assert all == result + [m];
        forall i | 0 < i < |all| ensures !Joinable(all[i - 1], all[i]) {
          if i < |result| { assert !Joinable(result[i - 1], result[i]); }
        }
      }
      hide Squash;
      forall i | 0 <= i < |all| ensures exists j :: 0 <= j < |ms| && ms[j].acc == all[i].acc {
        if i < |result| {
          var j :| 0 <= j < |prior| && prior[j].acc == result[i].acc;
          assert ms[j] == prior[j];
        } else {
          assert ms[|ms| - 1].acc == all[i].acc;
        }
      }
    }
  }

  /** Neighbours with the same acceleration are joinable. */
  lemma SameIsJoinable(a: Maneuver, b: Maneuver)
    requires a.acc == b.acc
    ensures Joinable(a, b)
  {
    NearItself(a.acc);
    hide Near;
    var v := a.acc;
    assert v.x * v.y - v.y * v.x == 0.0 && v.x * v.x >= 0.0 && v.y * v.y >= 0.0;
  }

  /** Near accelerations differ by less than 0.00001 on each axis. */
  lemma NearIsClose(a: Vector, b: Vector)
    requires Near(a, b)
    ensures -0.00001 < a.x - b.x < 0.00001 && -0.00001 < a.y - b.y < 0.00001
  {
    var d := a.Minus(b);
    SquareBound(d.x, d.y);
    SquareBound(d.y, d.x);
  }

  lemma SquareBound(x: real, y: real)
    requires x * x + y * y < CLOSE_SQR
    ensures -0.00001 < x < 0.00001
  {
    SquareNotNegative(y);
    SquareGrows(x);
    SquareGrows(-x);
  }

  lemma SquareNotNegative(y: real)
    ensures y * y >= 0.0
  {}

  lemma SquareGrows(x: real)
    ensures x >= 0.00001 ==> x * x >= CLOSE_SQR
    ensures (-x) * (-x) == x * x
  {
    if x >= 0.00001 {
      assert (x - 0.00001) * (x + 0.00001) >= 0.0;
    }
  }

  lemma SquashStep(ms: seq<Maneuver>)
    requires ms != []
    ensures var result, m := Squash(ms[..|ms| - 1]), ms[|ms| - 1];
      (result != [] && Squash(ms) == Lengthen(result, m.duration)) || Squash(ms) == result + [m]
  {}

  lemma NearItself(a: Vector)
    ensures Near(a, a)
  {}

  /** Because each run keeps its first acceleration as the reference, the acceleration at every time stays within
      0.00001 of what it was before squashing. */
  lemma {:induction false} SquashStaysNear(ms: seq<Maneuver>, t: int)
    requires Contiguous(ms)
    ensures Near(AccelerationAt(Squash(ms), t), AccelerationAt(ms, t))
    decreases |ms|
  {
    hide Near, Codirected, AccelerationAt;
    if ms == [] {
      NearItself(AccelerationAt(ms, t));
    } else {
      var prior, m := ms[..|ms| - 1], ms[|ms| - 1];
      SquashStaysNear(prior, t);
      SquashIsContiguous(prior);
      SquashIsContiguous(ms);
      NearItself(m.acc);
      var result := Squash(prior);
      assert ms == prior + [m];
      ContiguousIsWellFormed(ms);
      ContiguousIsWellFormed(Squash(ms));
      AccelerationOfLonger(prior, m, t);
      if Joins(result, m) {
        ContiguousIsWellFormed(result);
        LengthenedAcceleration(result, m.duration, t);
      } else {
        AccelerationOfLonger(result, m, t);
      }
    }
  }

  lemma LengthenedAcceleration(result: FlightPlan, d: int, t: int)
    requires result != [] && WellFormed(result) && d > 0
    ensures var last := result[|result| - 1];
      AccelerationAt(Lengthen(result, d), t) ==
        if last.EndsAt() <= t < last.EndsAt() + d then last.acc else AccelerationAt(result, t)
  {
    var head, last := result[..|result| - 1], result[|result| - 1];
    assert result == head + [last];
    assert WellFormed(head + [last.(duration := last.duration + d)]);
    AccelerationOfLonger(head, last, t);
    AccelerationOfLonger(head, last.(duration := last.duration + d), t);
    if last.EndsAt() <= t < last.EndsAt() + d { assert last.(duration := last.duration + d).Covers(t); }
  }

  /** So the squashed merge of any well-formed plans is at every time within 0.00001 of their sum. */
  lemma SquashedMergeAddsUp(plans: seq<FlightPlan>, t: int)
    requires forall k :: 0 <= k < |plans| ==> WellFormed(plans[k])
    ensures Contiguous(Squash(Merge(plans)))
    ensures Near(AccelerationAt(Squash(Merge(plans)), t), TotalAcceleration(plans, t))
  {
    MergeIsContiguous(plans);
    SquashIsContiguous(Merge(plans));
    SquashStaysNear(Merge(plans), t);
    MergeAddsUp(plans, t);
  }
}
