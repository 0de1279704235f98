/** The plan of two burns is the fastest one: no sequence of burns within the engine's strength reaches the target sooner. */
module FastestPlans {
  import opened FlightPlans
  import opened FastPlans

  /** A burn along a line. */
  datatype Thrust = Thrust(acc: real, seconds: real)

  datatype Motion = Motion(way: real, speed: real)

  function Thrusted(m: Motion, b: Thrust): Motion {
    Motion(m.way + Way(m.speed, b.acc, b.seconds), NewSpeed(m.speed, b.acc, b.seconds))
  }

  function AfterThrusts(m: Motion, bs: seq<Thrust>): Motion
    decreases |bs|
  {
    if bs == [] then m else AfterThrusts(Thrusted(m, bs[0]), bs[1..])
  }

  function TotalTime(bs: seq<Thrust>): real { if bs == [] then 0.0 else bs[0].seconds + TotalTime(bs[1..]) }

  ghost predicate Bounded(bs: seq<Thrust>, amax: real) {
    forall i :: 0 <= i < |bs| ==> bs[i].seconds >= 0.0 && -amax <= bs[i].acc <= amax
  }

  /** Twice the engine's strength times the longest way from speed `v` to speed `w`, if the strength times the time is `h`. */
  function Farthest(v: real, w: real, h: real): real { (v + w + h) * (v + w + h) / 2.0 - v * v - w * w }

  /** The way, in the units of `Farthest`, that a burn makes which changes the speed by `p`, where `q` is possible. */
  function Gained(v: real, p: real, q: real): real { 2.0 * q * v + q * p }

  /** A burn that changes the speed by `p`, where `q` is possible, gains no more way than it costs time. */
  lemma BurnCosts(v: real, w: real, h: real, p: real, q: real)
    requires -q <= p <= q && w - (v + p) >= -h
    ensures Gained(v, p, q) + Farthest(v + p, w, h) <= Farthest(v, w, h + q)
  {
    var bracket := w - v + h + (q - p) / 2.0;
    assert bracket >= 0.0;
    assert Farthest(v, w, h + q) - Farthest(v + p, w, h) - (2.0 * q * v + q * p) == (q - p) * bracket;
    ProductNonNegative(q - p, bracket);
  }

  /** A way, measured in the units of `Farthest`. */
  function Measure(amax: real, way: real): real { 2.0 * amax * way }

  lemma MeasureAdds(amax: real, x: real, y: real, z: real)
    requires z == x + y
    ensures Measure(amax, z) == Measure(amax, x) + Measure(amax, y)
  {}

  lemma ProductAdds(amax: real, t: real, u: real, v: real)
    requires v == t + u
    ensures Product(amax, v) == Product(amax, t) + Product(amax, u)
  {}

  lemma WayOfThrust(v: real, a: real, t: real, amax: real)
    ensures Measure(amax, Way(v, a, t)) == Gained(v, Product(a, t), Product(amax, t))
    ensures NewSpeed(v, a, t) == v + Product(a, t)
  {
    assert Way(v, a, t) == v * t + a * t * t / 2.0;
    assert amax * (v * t) == (amax * t) * v && amax * (a * t * t) == (amax * t) * (a * t);
  }

  lemma SpeedLimit(a: real, t: real, amax: real)
    requires t >= 0.0 && -amax <= a <= amax
    ensures -Product(amax, t) <= Product(a, t) <= Product(amax, t)
  {
    ProductNonNegative(amax - a, t);
    ProductNonNegative(amax + a, t);
    assert (amax - a) * t == amax * t - a * t && (amax + a) * t == amax * t + a * t;
  }

  /** What holds of the thrusts after the first holds of all of them. */
  lemma FirstThrust(m: Motion, b: Thrust, e: Motion, h: real, amax: real)
    requires b.seconds >= 0.0 && -amax <= b.acc <= amax
    requires var n := Thrusted(m, b);
      -h <= e.speed - n.speed <= h && Measure(amax, e.way - n.way) <= Farthest(n.speed, e.speed, h)
    ensures var total := h + Product(amax, b.seconds);
      -total <= e.speed - m.speed <= total && Measure(amax, e.way - m.way) <= Farthest(m.speed, e.speed, total)
  {
    hide Farthest, Way, NewSpeed, Measure, Product, Gained;
    var n, p, q := Thrusted(m, b), Product(b.acc, b.seconds), Product(amax, b.seconds);
    SpeedLimit(b.acc, b.seconds, amax);
    WayOfThrust(m.speed, b.acc, b.seconds, amax);
    BurnCosts(m.speed, e.speed, h, p, q);
    assert n.speed == m.speed + p;
    var gained := n.way - m.way;
    assert gained == Way(m.speed, b.acc, b.seconds);
    assert Measure(amax, gained) == Gained(m.speed, p, q);
    MeasureAdds(amax, e.way - n.way, gained, e.way - m.way);
  }

  /** The way and the speed that any thrusts can reach in their time. */
  lemma {:induction false} WayIsLimited(m: Motion, bs: seq<Thrust>, amax: real)
    requires Bounded(bs, amax)
    ensures var e := AfterThrusts(m, bs); var h := Product(amax, TotalTime(bs));
      -h <= e.speed - m.speed <= h && Measure(amax, e.way - m.way) <= Farthest(m.speed, e.speed, h)
    decreases |bs|
  {
    if bs == [] {
      assert Farthest(m.speed, m.speed, 0.0) == 0.0;
    } else {
      hide Farthest, Thrusted, Measure, Product;
      WayIsLimited(Thrusted(m, bs[0]), bs[1..], amax);
      ProductAdds(amax, TotalTime(bs[1..]), bs[0].seconds, TotalTime(bs));
      FirstThrust(m, bs[0], AfterThrusts(m, bs), Product(amax, TotalTime(bs[1..])), amax);
    }
  }

  /** Full thrust forwards, then full thrust backwards, makes the longest way. */
  lemma TwoThrustsReachFarthest(m: Motion, amax: real, t: real, u: real)
    ensures var e := AfterThrusts(m, [Thrust(amax, t), Thrust(-amax, u)]);
      Measure(amax, e.way - m.way) == Farthest(m.speed, e.speed, Product(amax, t + u))
  {
    var p, q := Product(amax, t), Product(amax, u);
    var n := Thrusted(m, Thrust(amax, t));
    var e := Thrusted(n, Thrust(-amax, u));
    assert AfterThrusts(m, [Thrust(amax, t), Thrust(-amax, u)]) == AfterThrusts(n, [Thrust(-amax, u)]) == e;
    assert Product(-amax, u) == -q;
    hide Way, Farthest, NewSpeed, Measure, Product, Gained, AfterThrusts;
    WayOfThrust(m.speed, amax, t, amax);
    WayOfThrust(n.speed, -amax, u, amax);
    ProductAdds(amax, t, u, t + u);
    MeasureAdds(amax, e.way - n.way, n.way - m.way, e.way - m.way);
    assert n.way - m.way == Way(m.speed, amax, t) && e.way - n.way == Way(n.speed, -amax, u);
    FarthestOfTwo(m.speed, p, q);
  }

  lemma FarthestOfTwo(v: real, p: real, q: real)
    ensures Gained(v, p, p) + Gained(v + p, -q, q) == Farthest(v, v + p - q, p + q)
  {}

  lemma FarthestGrows(v: real, w: real, h: real, k: real)
    requires v + w >= 0.0 && h >= 0.0 && Farthest(v, w, k) <= Farthest(v, w, h)
    ensures k <= h
  {
    if k > h {
      var x, y := v + w + h, v + w + k;
      assert y * y - x * x == (y - x) * (y + x);
      NonZeroProduct(y - x, y + x);
      ProductNonNegative(y - x, y + x);
    }
  }

  // ------------------------------------------------------------------ burns in the plane, seen along the line

  function Mix(x: real, y: real, u: real, v: real): real { x * u + y * v }

  function Dot(u: Vector, v: Vector): real { Mix(u.x, u.y, v.x, v.y) }

  function Along(e: Vector, b: Body): Motion { Motion(Dot(e, Vector(b.x, b.y)), Dot(e, b.velocity)) }

  function ThrustAlong(e: Vector, b: Burn): Thrust { Thrust(Dot(e, b.acc), b.seconds) }

  function ThrustsAlong(e: Vector, bs: seq<Burn>): (ts: seq<Thrust>)
    ensures |ts| == |bs| && forall i :: 0 <= i < |bs| ==> ts[i] == ThrustAlong(e, bs[i])
    decreases |bs|
  {
    if bs == [] then [] else [ThrustAlong(e, bs[0])] + ThrustsAlong(e, bs[1..])
  }

  function Duration(bs: seq<Burn>): real
    decreases |bs|
  {
    if bs == [] then 0.0 else bs[0].seconds + Duration(bs[1..])
  }

  lemma SpeedIsLinear(x: real, y: real, v: real, w: real, a: real, b: real, t: real)
    ensures Mix(x, y, NewSpeed(v, a, t), NewSpeed(w, b, t)) == NewSpeed(Mix(x, y, v, w), Mix(x, y, a, b), t)
  {
    assert x * (a * t) == x * a * t && y * (b * t) == y * b * t;
  }

  lemma WayIsLinear(x: real, y: real, v: real, w: real, a: real, b: real, t: real)
    ensures Mix(x, y, Way(v, a, t), Way(w, b, t)) == Way(Mix(x, y, v, w), Mix(x, y, a, b), t)
  {
    WayTimes(x, v, a, t);
    WayTimes(y, w, b, t);
    WaysAdd(x * v, x * a, y * w, y * b, t);
  }

  lemma WayTimes(x: real, v: real, a: real, t: real)
    ensures x * Way(v, a, t) == Way(x * v, x * a, t)
  {
    assert x * (a * t / 2.0) == x * a * t / 2.0;
    assert x * ((v + a * t / 2.0) * t) == (x * (v + a * t / 2.0)) * t;
  }

  lemma WaysAdd(v: real, a: real, w: real, b: real, t: real)
    ensures Way(v, a, t) + Way(w, b, t) == Way(v + w, a + b, t)
  {}

  lemma BurnIsThrust(e: Vector, b: Body, burn: Burn)
    ensures Along(e, Accelerated(b, burn)) == Thrusted(Along(e, b), ThrustAlong(e, burn))
  {
    var t := burn.seconds;
    SpeedIsLinear(e.x, e.y, b.velocity.x, b.velocity.y, burn.acc.x, burn.acc.y, t);
    WayIsLinear(e.x, e.y, b.velocity.x, b.velocity.y, burn.acc.x, burn.acc.y, t);
    hide Way, NewSpeed, Mix;
    DotAdds(e.x, e.y, b.x, b.y, Way(b.velocity.x, burn.acc.x, t), Way(b.velocity.y, burn.acc.y, t));
  }

  lemma DotAdds(x: real, y: real, u: real, v: real, m: real, n: real)
    ensures Mix(x, y, u + m, v + n) == Mix(x, y, u, v) + Mix(x, y, m, n)
  {}

  lemma {:induction false} BurnsAreThrusts(e: Vector, b: Body, bs: seq<Burn>)
    ensures Along(e, AfterBurns(b, bs)) == AfterThrusts(Along(e, b), ThrustsAlong(e, bs))
    ensures TotalTime(ThrustsAlong(e, bs)) == Duration(bs)
    decreases |bs|
  {
    if bs != [] {
      hide Accelerated, Along, ThrustAlong, Thrusted;
      BurnIsThrust(e, b, bs[0]);
      BurnsAreThrusts(e, Accelerated(b, bs[0]), bs[1..]);
    }
  }

  /** A burn's share along the line is no stronger than the burn. */
  lemma ShareIsWeaker(e: Vector, a: Vector, amax: real)
    requires e.AbsSqr() == 1.0 && a.AbsSqr() <= amax * amax && amax > 0.0
    ensures -amax <= Dot(e, a) <= amax
  {
    var d, c := Dot(e, a), e.x * a.y - e.y * a.x;
    Lagrange(e.x, e.y, a.x, a.y);
    SquareNonNegative(c);
    assert d * d <= amax * amax;
    if d > amax { SquaresOrder(d, amax); } else if d < -amax { SquaresOrder(-d, amax); }
  }

  lemma Lagrange(x: real, y: real, u: real, v: real)
    requires x * x + y * y == 1.0
    ensures (x * u + y * v) * (x * u + y * v) + (x * v - y * u) * (x * v - y * u) == u * u + v * v
  {
    assert (x * u + y * v) * (x * u + y * v) + (x * v - y * u) * (x * v - y * u) == (x * x + y * y) * (u * u + v * v);
  }

  // ------------------------------------------------------------------ the fastest plan

  /** When the planner returns two burns, they are full thrust towards the target and full thrust back. */
  lemma TwoBurnsForm(root: real -> real, p: Body, target: Body, amax: real)
    requires amax > 0.0 && p.VectorTo(target).AbsSqr() > 0.0 && IsRoot(root)
    ensures var plan := FastPlan(root, p, target, amax); var s := Abs(root, p.VectorTo(target));
      plan.Plan? && |plan.burns| == 2 ==>
        && s > 0.0 && plan.burns[0].acc == p.VectorTo(target).Times(amax / s)
        && plan.burns[1].acc == p.VectorTo(target).Times(amax / s).Times(-1.0)
  {
    LengthPositive(root, p.VectorTo(target));
    OnePlanIsShort(root, p, target);
    hide IsRoot, Abs, OneManeuverPlan, Accelerated, TopSpeed, Codirected, InPlace, AlmostNull, Lopsided;
  }

  lemma OnePlanIsShort(root: real -> real, p: Body, target: Body)
    ensures var plan := OneManeuverPlan(root, p, target); plan.Plan? ==> |plan.burns| == 1
  {
    hide Abs, Codirected, AlmostNull;
  }

  lemma UnitVector(d: Vector, s: real, amax: real) returns (e: Vector)
    requires s > 0.0 && s * s == d.AbsSqr()
    ensures e.AbsSqr() == 1.0 && Dot(e, d) == s
    ensures Dot(e, d.Times(amax / s)) == amax && Dot(e, d.Times(amax / s).Times(-1.0)) == -amax
  {
    var k, a := 1.0 / s, amax / s;
    e := d.Times(k);
    assert k * s == 1.0 && a * s == amax;
    AbsSqrOfMultiple(d, k);
    assert k * k * (s * s) == (k * s) * (k * s);
    assert Dot(e, d) == k * d.AbsSqr() == k * s * s;
    DotTimes(e, d, a);
    DotTimes(e, d.Times(a), -1.0);
    assert s * a == amax;
  }

  lemma DotTimes(e: Vector, d: Vector, k: real)
    ensures Dot(e, d.Times(k)) == Product(Dot(e, d), k)
  {
    assert e.x * (d.x * k) == e.x * d.x * k && e.y * (d.y * k) == e.y * d.y * k;
  }

  lemma TimesOrder(amax: real, t: real, u: real)
    requires amax > 0.0 && Product(amax, t) <= Product(amax, u)
    ensures t <= u
  {
    if t > u { NonZeroProduct(amax, t - u); ProductNonNegative(amax, t - u); }
  }

  lemma {:induction false} DurationNonNegative(bs: seq<Burn>)
    requires forall i :: 0 <= i < |bs| ==> bs[i].seconds >= 0.0
    ensures Duration(bs) >= 0.0
    decreases |bs|
  {
    if bs != [] { DurationNonNegative(bs[1..]); }
  }

  /** Any burns that reach the target, seen along the line: what they reach is within the limits of their time. */
  lemma FlightIsLimited(e: Vector, p: Body, target: Body, bs: seq<Burn>, amax: real)
    requires e.AbsSqr() == 1.0 && amax > 0.0 && Flies(bs, p, target, amax)
    ensures Duration(bs) >= 0.0
    ensures var m, n := Along(e, p), Along(e, target);
      Measure(amax, n.way - m.way) <= Farthest(m.speed, n.speed, Product(amax, Duration(bs)))
  {
    DurationNonNegative(bs);
    BurnsAreThrusts(e, p, bs);
    forall i | 0 <= i < |bs| ensures -amax <= ThrustAlong(e, bs[i]).acc <= amax {
      ShareIsWeaker(e, bs[i].acc, amax);
    }
    WayIsLimited(Along(e, p), ThrustsAlong(e, bs), amax);
  }

  lemma TwoBurnsAlong(e: Vector, bs: seq<Burn>)
    requires |bs| == 2
    ensures ThrustsAlong(e, bs) == [ThrustAlong(e, bs[0]), ThrustAlong(e, bs[1])]
    ensures Duration(bs) == bs[0].seconds + bs[1].seconds
  {
    assert bs[1..] == [bs[1]] && bs[1..][1..] == [];
    assert Duration(bs[1..]) == bs[1].seconds + Duration(bs[1..][1..]);
    hide Dot;
  }

  lemma {:induction false} TwoBurnsReachFarthest(e: Vector, p: Body, target: Body, bs: seq<Burn>, amax: real)
    requires |bs| == 2 && Dot(e, bs[0].acc) == amax && Dot(e, bs[1].acc) == -amax && AfterBurns(p, bs) == target
    ensures var m, n := Along(e, p), Along(e, target);
      Measure(amax, n.way - m.way) == Farthest(m.speed, n.speed, Product(amax, Duration(bs)))
  {
    assert ThrustAlong(e, bs[0]) == Thrust(amax, bs[0].seconds);
    assert ThrustAlong(e, bs[1]) == Thrust(-amax, bs[1].seconds);
    hide *;
    BurnsAreThrusts(e, p, bs);
    TwoBurnsAlong(e, bs);
    TwoThrustsReachFarthest(Along(e, p), amax, bs[0].seconds, bs[1].seconds);
  }

  /** Velocities straight towards the target are not negative along the line. */
  lemma StraightSpeeds(e: Vector, p: Body, target: Body, a: real, b: real, s: real)
    requires Straight(p, target, a, b) && s > 0.0 && Dot(e, p.VectorTo(target)) == s
    ensures Along(e, p).speed >= 0.0 && Along(e, target).speed >= 0.0
  {
    DotTimes(e, p.VectorTo(target), a);
    DotTimes(e, p.VectorTo(target), b);
    ProductNonNegative(s, a);
    ProductNonNegative(s, b);
  }

  /**
   * When the planner returns two burns, no burns at all within the engine's strength, in any directions and any
   * number, take less time to the target and its velocity.
   */
  lemma TwoBurnsAreFastest(root: real -> real, p: Body, target: Body, a: real, b: real, amax: real, others: seq<Burn>)
    requires IsRoot(root) && Straight(p, target, a, b) && amax > 0.0 && Flies(others, p, target, amax)
    ensures var plan := FastPlan(root, p, target, amax);
      plan.Plan? && |plan.burns| == 2 ==> Duration(plan.burns) <= Duration(others)
  {
    var plan, d := FastPlan(root, p, target, amax), p.VectorTo(target);
    var s := Abs(root, d);
    if plan.Plan? && |plan.burns| == 2 {
      TwoBurnsForm(root, p, target, amax);
      FastPlanOutcome(root, p, target, a, b, amax);
      assert plan.burns != [];
      assert Flies(plan.burns, p, target, amax);
      assert s * s == d.AbsSqr();
      hide IsRoot, FastPlan, Abs, InPlace, Feasible, AtTheLimit, Straight;
      var e := UnitVector(d, s, amax);
      TwoBurnsReachFarthest(e, p, target, plan.burns, amax);
      hide Flies, AfterBurns, Along, Farthest, Measure, Product, Dot;
      FlightIsLimited(e, p, target, others, amax);
      StraightSpeeds(e, p, target, a, b, s);
      var m, n := Along(e, p), Along(e, target);
      ShorterTime(m.speed, n.speed, amax, Duration(plan.burns), Duration(others));
    }
  }

  lemma ShorterTime(v: real, w: real, amax: real, t: real, u: real)
    requires v >= 0.0 && w >= 0.0 && amax > 0.0 && u >= 0.0
    requires Farthest(v, w, Product(amax, t)) <= Farthest(v, w, Product(amax, u))
    ensures t <= u
  {
    ProductNonNegative(amax, u);
    FarthestGrows(v, w, Product(amax, u), Product(amax, t));
    TimesOrder(amax, t, u);
  }
}
