/** The two-burn plan along a straight line, in exact arithmetic and before durations are rounded. */
module FastPlans {
  import opened FlightPlans

  datatype Body = Body(x: real, y: real, velocity: Vector) {
    function VectorTo(other: Body): Vector { Vector(other.x - x, other.y - y) }
  }

  datatype Burn = Burn(acc: Vector, seconds: real)

  /** A plan, a refusal, or an error: a failed assertion or a division by zero. */
  datatype Outcome = Plan(burns: seq<Burn>) | Rejected | Failed

  /** The speed gained and the way made along one axis, from speed `v` at acceleration `a`. */
  function NewSpeed(v: real, a: real, t: real): real { v + a * t }

  function Way(v: real, a: real, t: real): real { (v + a * t / 2.0) * t }

  function Accelerated(b: Body, burn: Burn): Body {
    var t := burn.seconds;
    Body(b.x + Way(b.velocity.x, burn.acc.x, t), b.y + Way(b.velocity.y, burn.acc.y, t),
         Vector(NewSpeed(b.velocity.x, burn.acc.x, t), NewSpeed(b.velocity.y, burn.acc.y, t)))
  }

  function AfterBurns(b: Body, burns: seq<Burn>): Body
    decreases |burns|
  {
    if burns == [] then b else AfterBurns(Accelerated(b, burns[0]), burns[1..])
  }

  /** `root` is the square root. */
  ghost predicate IsRoot(root: real -> real) {
    forall e: real :: e >= 0.0 ==> root(e) >= 0.0 && root(e) * root(e) == e
  }

  function Abs(root: real -> real, v: Vector): real { root(v.AbsSqr()) }

  predicate AlmostNull(v: Vector) { v.AbsSqr() < 0.001 }

  /** The single burn along `d` that changes the speed from `v0` to `v1` over the distance `s`. */
  function SingleBurn(d: Vector, s: real, v0: real, v1: real): Outcome {
    if s == 0.0 then Failed
    else
      var acc := SquareGain(v0, v1) / (2.0 * s);
      if acc == 0.0 then Failed else Plan([Burn(d.Times(acc / s), (v1 - v0) / acc)])
  }

  function Product(x: real, y: real): real { x * y }

  function SquareGain(v0: real, v1: real): real { Product(v1 - v0, v1 + v0) }

  function OneManeuverPlan(root: real -> real, p: Body, target: Body): Outcome {
    var d := p.VectorTo(target);
    if !AlmostNull(p.velocity)
       && (!Codirected(p.velocity, d) || (!AlmostNull(target.velocity) && !Codirected(target.velocity, p.velocity)))
    then Rejected
    else SingleBurn(d, Abs(root, d), Abs(root, p.velocity), Abs(root, target.velocity))
  }

  /** One of the burns takes less than half a percent of the other's time. */
  predicate Lopsided(t1: real, t2: real)
    requires t2 != 0.0
  {
    t1 / t2 < 0.005 || t1 == 0.0 || t2 / t1 < 0.005
  }

  /** The highest speed, reached after accelerating over the distance `accS`. */
  function TopSpeed(root: real -> real, v0: real, amax: real, accS: real): real {
    root(TopSpeedSqr(v0, amax, accS))
  }

  function TopSpeedSqr(v0: real, amax: real, accS: real): real { v0 * v0 + 2.0 * amax * accS }

  function TimeFor(dv: real, amax: real): real
    requires amax > 0.0
  {
    dv / amax
  }

  /** The case of two burns, once the distance `accS` over which to accelerate is known. */
  function TwoBurns(root: real -> real, p: Body, target: Body, amax: real, s: real, v0: real, v2: real, accS: real): Outcome
    requires amax > 0.0 && s != 0.0
  {
    var acc := p.VectorTo(target).Times(amax / s);
    var accT := TimeFor(TopSpeed(root, v0, amax, accS) - v0, amax);
    if accT < 0.0 then Failed
    else
      var v1 := Abs(root, Accelerated(p, Burn(acc, accT)).velocity);
      var decT := TimeFor(v1 - v2, amax);
      if decT == 0.0 then Failed
      else if Lopsided(accT, decT) then
        var plan := OneManeuverPlan(root, p, target);
        if plan.Rejected? then Failed else plan
      else Plan([Burn(acc, accT), Burn(acc.Times(-1.0), decT)])
  }

  /** The exit for a body that counts as being in place already. */
  predicate InPlace(d: Vector, v0: real, v2: real) { AlmostNull(d) && v2 * v2 - v0 * v0 < 0.1 }

  function AccelerationDistance(s: real, v0: real, v2: real, amax: real): real
    requires amax > 0.0
  {
    s / 2.0 + (v2 * v2 - v0 * v0) / (4.0 * amax)
  }

  function FastPlan(root: real -> real, p: Body, target: Body, amax: real): Outcome
    requires amax > 0.0
  {
    var d := p.VectorTo(target);
    if !AlmostNull(p.velocity) && !Codirected(p.velocity, d) then Rejected
    else if !AlmostNull(target.velocity) && !Codirected(target.velocity, d) then Rejected
    else
      var v0, v2, s := Abs(root, p.velocity), Abs(root, target.velocity), Abs(root, d);
      if InPlace(d, v0, v2) then Plan([])
      else
        var accS := AccelerationDistance(s, v0, v2, amax);
        if accS < 0.0 || accS > s then Rejected
        else if s == 0.0 then Failed
        else TwoBurns(root, p, target, amax, s, v0, v2, accS)
  }

  // ------------------------------------------------------------------ motion along a line

  /** The one-dimensional case: both velocities point straight along the way to the target. */
  ghost predicate Straight(p: Body, target: Body, a: real, b: real) {
    && p.VectorTo(target).AbsSqr() > 0.0 && a >= 0.0 && b >= 0.0
    && p.velocity == p.VectorTo(target).Times(a) && target.velocity == p.VectorTo(target).Times(b)
  }

  lemma SquaresOrder(a: real, b: real)
    requires a >= 0.0 && b >= 0.0
    ensures a <= b <==> a * a <= b * b
    ensures a == b <==> a * a == b * b
  {
    assert b * b - a * a == (b - a) * (b + a);
    if a + b > 0.0 { Sign(a + b, b - a); }
  }

  lemma AbsSqrOfMultiple(d: Vector, k: real)
    ensures d.Times(k).AbsSqr() == k * k * d.AbsSqr()
  {
    assert (d.x * k) * (d.x * k) == k * k * (d.x * d.x);
    assert (d.y * k) * (d.y * k) == k * k * (d.y * d.y);
  }

  /** The length of a multiple of `d`. */
  lemma AbsOfMultiple(root: real -> real, d: Vector, k: real)
    requires IsRoot(root) && k >= 0.0
    ensures Abs(root, d) >= 0.0 && Abs(root, d) * Abs(root, d) == d.AbsSqr()
    ensures Abs(root, d.Times(k)) == k * Abs(root, d)
  {
    var s, w := Abs(root, d), Abs(root, d.Times(k));
    SquareNonNegative(d.x);
    SquareNonNegative(d.y);
    SquareNonNegative(d.x * k);
    SquareNonNegative(d.y * k);
    AbsSqrOfMultiple(d, k);
    assert (k * s) * (k * s) == k * k * (s * s);
    assert k * s >= 0.0;
    SquaresOrder(w, k * s);
  }

  lemma SquareNonNegative(v: real)
    ensures v * v >= 0.0
  {}

  /** Vectors along the same direction pass the direction test. */
  lemma MultiplesCodirected(d: Vector, j: real, k: real)
    requires j >= 0.0 && k >= 0.0
    ensures Codirected(d.Times(j), d.Times(k))
  {
    assert (d.x * j) * (d.y * k) == (d.y * j) * (d.x * k);
    SameSign(d.x, j, k);
    SameSign(d.y, j, k);
  }

  lemma SameSign(v: real, j: real, k: real)
    requires j >= 0.0 && k >= 0.0
    ensures (v * j) * (v * k) >= 0.0
  {
    assert (v * j) * (v * k) == (v * v) * (j * k);
  }

  /** The distance covered at an even change of speed from `v` to `w`. */
  function Reach(v: real, w: real, t: real): real { (v + w) / 2.0 * t }

  /** `c` is where `b` gets to by going `u` times `d`. */
  ghost predicate Shifted(b: Body, c: Body, d: Vector, u: real) {
    c.x == b.x + d.x * u && c.y == b.y + d.y * u
  }

  /** A burn that changes the speed from `v` to `w` at acceleration `a`, measured in units of `d`. */
  lemma BurnAlong(b: Body, d: Vector, v: real, w: real, a: real, t: real)
    requires b.velocity == d.Times(v) && a * t == w - v
    ensures var c := Accelerated(b, Burn(d.Times(a), t));
      c.velocity == d.Times(w) && Shifted(b, c, d, Reach(v, w, t))
  {
    var burn := Burn(d.Times(a), t);
    BurnAxis(b.velocity.x, burn.acc.x, d.x, v, w, a, t);
    BurnAxis(b.velocity.y, burn.acc.y, d.y, v, w, a, t);
    hide Reach, Way, NewSpeed;
  }

  lemma BurnAxis(speed: real, acc: real, d: real, v: real, w: real, a: real, t: real)
    requires speed == d * v && acc == d * a && a * t == w - v
    ensures NewSpeed(speed, acc, t) == d * w
    ensures Way(speed, acc, t) == d * Reach(v, w, t)
  {
    var m, h := a * t, (v + w) / 2.0;
    assert acc * t == d * m;
    assert d * m == d * w - d * v;
    assert speed + acc * t / 2.0 == d * h;
    assert (d * h) * t == d * (h * t);
  }

  /** Distance covered while the speed changes from `v` to `w`: (w² - v²) / 2a. */
  lemma SpeedDistance(v: real, w: real, a: real, t: real)
    requires a * t == w - v
    ensures 2.0 * a * Reach(v, w, t) == w * w - v * v
  {
    assert 2.0 * a * ((v + w) / 2.0 * t) == (v + w) * (a * t);
  }

  // ------------------------------------------------------------------ the quantities that fast_plan computes

  /** Speeds and distances in the straight case: `r` is the highest speed, `t1` and `t2` the burn times. */
  ghost predicate Profile(s: real, v0: real, v2: real, amax: real, r: real, t1: real, t2: real) {
    && s > 0.0 && v0 >= 0.0 && v2 >= 0.0 && amax > 0.0 && r >= 0.0
    && 2.0 * (r * r) == 2.0 * amax * s + v0 * v0 + v2 * v2
    && amax * t1 == r - v0 && amax * t2 == r - v2
  }

  predicate Feasible(s: real, v0: real, v2: real, amax: real) {
    -2.0 * amax * s <= v2 * v2 - v0 * v0 <= 2.0 * amax * s
  }

  /** The engine has to accelerate all the way. */
  predicate AtTheLimit(s: real, v0: real, v2: real, amax: real) { v2 * v2 - v0 * v0 == 2.0 * amax * s }

  lemma ProfileTimes(s: real, v0: real, v2: real, amax: real, r: real, t1: real, t2: real)
    requires Profile(s, v0, v2, amax, r, t1, t2) && Feasible(s, v0, v2, amax)
    ensures t1 >= 0.0 && t2 >= 0.0
    ensures t2 == 0.0 <==> AtTheLimit(s, v0, v2, amax)
    ensures v0 == v2 ==> t1 == t2
  {
    assert 2.0 * amax * s == 2.0 * (amax * s);
    SquaresOrder(v0, r);
    SquaresOrder(v2, r);
    Sign(amax, t1);
    Sign(amax, t2);
    if v0 == v2 { assert amax * t1 == amax * t2; Cancel(amax, t1, t2); }
  }

  lemma Sign(a: real, t: real)
    requires a > 0.0
    ensures a * t >= 0.0 <==> t >= 0.0
    ensures a * t == 0.0 <==> t == 0.0
  {}

  lemma Cancel(a: real, t: real, u: real)
    requires a > 0.0 && a * t == a * u
    ensures t == u
  {
    assert a * (t - u) == 0.0;
    Sign(a, t - u);
  }

  /** The two burns together cover the distance. */
  lemma ProfileDistance(s: real, v0: real, v2: real, amax: real, r: real, t1: real, t2: real)
    requires Profile(s, v0, v2, amax, r, t1, t2)
    ensures Reach(v0, r, t1) + Reach(r, v2, t2) == s
  {
    var d1, d2 := Reach(v0, r, t1), Reach(v2, r, t2);
    assert d2 == Reach(r, v2, t2);
    SpeedDistance(v0, r, amax, t1);
    SpeedDistance(v2, r, amax, t2);
    assert 2.0 * amax * d1 == r * r - v0 * v0 && 2.0 * amax * d2 == r * r - v2 * v2;
    assert 2.0 * amax * (d1 + d2) == 2.0 * amax * s;
    Cancel(2.0 * amax, d1 + d2, s);
  }

  lemma Quotient(x: real, y: real)
    requires y != 0.0
    ensures (x / y) * y == x
    ensures x / y == 0.0 <==> x == 0.0
  {}

  /** In the straight case the direction tests pass, and speeds are multiples of the distance. */
  lemma StraightLengths(root: real -> real, p: Body, target: Body, a: real, b: real, s: real, v0: real, v2: real)
    requires IsRoot(root) && Straight(p, target, a, b)
    requires s == Abs(root, p.VectorTo(target)) && v0 == a * s && v2 == b * s
    ensures var d := p.VectorTo(target);
      && s > 0.0 && s * s == d.AbsSqr() && v0 >= 0.0 && v2 >= 0.0
      && Abs(root, p.velocity) == v0 && Abs(root, target.velocity) == v2
      && Codirected(p.velocity, d) && Codirected(target.velocity, d) && Codirected(target.velocity, p.velocity)
  {
    var d := p.VectorTo(target);
    AbsOfMultiple(root, d, a);
    AbsOfMultiple(root, d, b);
    assert d.Times(1.0) == d;
    MultiplesCodirected(d, a, 1.0);
    MultiplesCodirected(d, b, 1.0);
    MultiplesCodirected(d, b, a);
    ProductNonNegative(a, s);
    ProductNonNegative(b, s);
  }

  lemma ProductNonNegative(a: real, b: real)
    requires a >= 0.0 && b >= 0.0
    ensures a * b >= 0.0
  {}

  /** The distance over which to accelerate lies between nothing and everything exactly in the feasible case. */
  lemma AccelerationDistanceBounds(s: real, v0: real, v2: real, amax: real, accS: real)
    requires amax > 0.0 && accS == AccelerationDistance(s, v0, v2, amax)
    ensures 0.0 <= accS <= s <==> Feasible(s, v0, v2, amax)
    ensures 4.0 * (amax * accS) == 2.0 * (amax * s) + v2 * v2 - v0 * v0
  {
    var diff := v2 * v2 - v0 * v0;
    Quotient(diff, 4.0 * amax);
    var q := diff / (4.0 * amax);
    assert amax * accS == amax * (s / 2.0) + amax * q;
    assert 4.0 * (amax * q) == diff;
    Sign(amax, accS);
    Sign(amax, s - accS);
    assert amax * (s - accS) == amax * s - amax * accS;
    assert -2.0 * amax * s == -(2.0 * (amax * s)) && 2.0 * amax * s == 2.0 * (amax * s);
  }

  /** The highest speed and the burn times that `TwoBurns` computes. */
  lemma BurnProfile(root: real -> real, s: real, v0: real, v2: real, amax: real, accS: real) returns (r: real)
    requires IsRoot(root) && s > 0.0 && v0 >= 0.0 && v2 >= 0.0 && amax > 0.0
    requires accS == AccelerationDistance(s, v0, v2, amax) && 0.0 <= accS <= s
    ensures r == TopSpeed(root, v0, amax, accS)
    ensures Profile(s, v0, v2, amax, r, TimeFor(r - v0, amax), TimeFor(r - v2, amax))
    ensures r > 0.0
  {
    AccelerationDistanceBounds(s, v0, v2, amax, accS);
    var e := TopSpeedSqr(v0, amax, accS);
    assert 2.0 * amax * accS == 2.0 * (amax * accS);
    SquareNonNegative(v0);
    ProductNonNegative(amax, accS);
    r := TopSpeed(root, v0, amax, accS);
    assert r == root(e);
    Quotient(r - v0, amax);
    Quotient(r - v2, amax);
    assert 2.0 * (r * r) == 2.0 * amax * s + v0 * v0 + v2 * v2;
    SquareNonNegative(v2);
    Sign(amax, s);
    assert r != 0.0;
  }

  lemma Scaled(k: real, s: real, amax: real, t: real, v: real, w: real, x: real)
    requires s > 0.0 && k * s == amax && amax * t == v - w && x * s == v - w
    ensures k * t == x && (-k) * t == -x
  {
    assert s * (k * t) == (k * s) * t;
    Cancel(s, k * t, x);
  }

  /** The first burn of two: it leads to the highest speed `r`, which is `q` in units of the distance `s`. */
  lemma FirstBurn(root: real -> real, p: Body, d: Vector, s: real, a: real, v0: real, amax: real, k: real,
                  r: real, q: real, t: real)
    requires IsRoot(root) && s > 0.0 && s == Abs(root, d) && q >= 0.0
    requires p.velocity == d.Times(a) && v0 == a * s && amax * t == r - v0 && k * s == amax && q * s == r
    ensures var c := Accelerated(p, Burn(d.Times(k), t));
      && c.velocity == d.Times(q) && Abs(root, c.velocity) == r
      && Shifted(p, c, d, Reach(a, q, t))
  {
    assert (q - a) * s == r - v0;
    Scaled(k, s, amax, t, r, v0, q - a);
    BurnAlong(p, d, a, q, k, t);
    AbsOfMultiple(root, d, q);
  }

  /** The second burn: from `q` to `b`, slowing down. */
  lemma SecondBurn(middle: Body, d: Vector, s: real, b: real, v2: real, amax: real, k: real, r: real, q: real, t: real)
    requires s > 0.0 && middle.velocity == d.Times(q)
    requires v2 == b * s && amax * t == r - v2 && k * s == amax && q * s == r
    ensures var c := Accelerated(middle, Burn(d.Times(k).Times(-1.0), t));
      c.velocity == d.Times(b) && Shifted(middle, c, d, Reach(q, b, t))
  {
    assert (q - b) * s == r - v2;
    Scaled(k, s, amax, t, r, v2, q - b);
    assert d.Times(k).Times(-1.0) == d.Times(-k);
    BurnAlong(middle, d, q, b, -k, t);
  }

  /** Two burns that fit the profile end at the target with the target's velocity. */
  lemma TwoBurnsArrive(root: real -> real, p: Body, target: Body, a: real, b: real, s: real, v0: real, v2: real,
                       amax: real, k: real, r: real, q: real, t1: real, t2: real)
    requires IsRoot(root) && Straight(p, target, a, b) && s == Abs(root, p.VectorTo(target))
    requires v0 == a * s && v2 == b * s && Profile(s, v0, v2, amax, r, t1, t2) && k * s == amax && q * s == r && q >= 0.0
    ensures var acc := p.VectorTo(target).Times(k);
      AfterBurns(p, [Burn(acc, t1), Burn(acc.Times(-1.0), t2)]) == target
  {
    var d := p.VectorTo(target);
    var first, second := Burn(d.Times(k), t1), Burn(d.Times(k).Times(-1.0), t2);
    FirstBurn(root, p, d, s, a, v0, amax, k, r, q, t1);
    SecondBurn(Accelerated(p, first), d, s, b, v2, amax, k, r, q, t2);
    ProfileDistance(s, v0, v2, amax, r, t1, t2);
    UnitDistance(s, a, b, v0, v2, r, q, t1, t2);
    var end := Accelerated(Accelerated(p, first), second);
    ShiftedTwice(p, Accelerated(p, first), end, target, Reach(a, q, t1), Reach(q, b, t2));
    hide Accelerated, Shifted, Reach, Profile;
    assert end == target;
    AfterTwoBurns(p, first, second);
  }

  lemma AfterOneBurn(b: Body, burn: Burn)
    ensures AfterBurns(b, [burn]) == Accelerated(b, burn)
  {
    assert [burn][1..] == [];
  }

  lemma AfterTwoBurns(b: Body, first: Burn, second: Burn)
    ensures AfterBurns(b, [first, second]) == Accelerated(Accelerated(b, first), second)
  {
    assert [first, second][1..] == [second];
    AfterOneBurn(Accelerated(b, first), second);
  }

  lemma ShiftedTwice(p: Body, m: Body, e: Body, target: Body, u1: real, u2: real)
    requires u1 + u2 == 1.0 && Shifted(p, m, p.VectorTo(target), u1) && Shifted(m, e, p.VectorTo(target), u2)
    ensures e.x == target.x && e.y == target.y
  {
    var d := p.VectorTo(target);
    Share(d.x, u1, u2);
    Share(d.y, u1, u2);
  }

  lemma Share(d: real, u1: real, u2: real)
    requires u1 + u2 == 1.0
    ensures d * u1 + d * u2 == d
  {
    assert d * u1 + d * u2 == d * (u1 + u2);
  }

  lemma UnitDistance(s: real, a: real, b: real, v0: real, v2: real, r: real, q: real, t1: real, t2: real)
    requires s > 0.0 && Reach(v0, r, t1) + Reach(r, v2, t2) == s
    requires v0 == a * s && v2 == b * s && r == q * s
    ensures Reach(a, q, t1) + Reach(q, b, t2) == 1.0
  {
    HalfSum(s, a, q, v0, r, t1);
    HalfSum(s, q, b, r, v2, t2);
    Cancel(s, Reach(a, q, t1) + Reach(q, b, t2), 1.0);
  }

  lemma HalfSum(s: real, a: real, b: real, v: real, w: real, t: real)
    requires v == a * s && w == b * s
    ensures s * Reach(a, b, t) == Reach(v, w, t)
  {
    assert (v + w) / 2.0 == s * ((a + b) / 2.0);
  }

  /** The single burn ends at the target with the target's velocity, at no more than the allowed acceleration. */
  lemma OneBurnArrives(root: real -> real, p: Body, target: Body, a: real, b: real, s: real, v0: real, v1: real, amax: real)
    requires IsRoot(root) && Straight(p, target, a, b) && amax > 0.0 && a != b
    requires s == Abs(root, p.VectorTo(target)) && v0 == a * s && v1 == b * s && Feasible(s, v0, v1, amax)
    ensures var plan := OneManeuverPlan(root, p, target);
      plan.Plan? && Flies(plan.burns, p, target, amax)
  {
    var d := p.VectorTo(target);
    StraightLengths(root, p, target, a, b, s, v0, v1);
    SpeedsDiffer(s, a, b, v0, v1);
    var acc, k, t := SingleBurnIs(d, s, v0, v1);
    hide Product;
    OneBurnTime(s, v1 - v0, v1 + v0, acc, t);
    OneBurnBound(s, v0, v1, acc, amax);
    OneBurnEnds(p, target, a, b, s, v0, v1, acc, k, t);
    StrengthOfBurn(d, s, k, acc);
    assert OneManeuverPlan(root, p, target) == SingleBurn(d, s, v0, v1);
    hide OneManeuverPlan, Accelerated, IsRoot, Codirected, Abs;
    AfterOneBurn(p, Burn(d.Times(k), t));
  }

  lemma SpeedsDiffer(s: real, a: real, b: real, v: real, w: real)
    requires s > 0.0 && a != b && v == a * s && w == b * s
    ensures v != w
  {
    if v == w { Cancel(s, a, b); }
  }

  lemma SquareGainNonZero(v0: real, v1: real)
    requires v0 != v1 && v1 >= 0.0 && v0 >= 0.0
    ensures SquareGain(v0, v1) != 0.0
  {
    NonZeroProduct(v1 - v0, v1 + v0);
    hide Product;
  }

  /** The acceleration and the time of the single burn, by what they multiply to. */
  lemma SingleBurnIs(d: Vector, s: real, v0: real, v1: real) returns (acc: real, k: real, t: real)
    requires s > 0.0 && v0 != v1 && v1 >= 0.0 && v0 >= 0.0
    ensures acc != 0.0 && acc * (2.0 * s) == Product(v1 - v0, v1 + v0) && t * acc == v1 - v0 && k * s == acc
    ensures SingleBurn(d, s, v0, v1) == Plan([Burn(d.Times(k), t)])
  {
    SquareGainNonZero(v0, v1);
    assert SquareGain(v0, v1) == Product(v1 - v0, v1 + v0);
    hide SquareGain, Product;
    acc := SquareGain(v0, v1) / (2.0 * s);
    Quotient(SquareGain(v0, v1), 2.0 * s);
    t := (v1 - v0) / acc;
    Quotient(v1 - v0, acc);
    k := acc / s;
    Quotient(acc, s);
  }

  lemma OneBurnEnds(p: Body, target: Body, a: real, b: real, s: real, v0: real, v1: real, acc: real, k: real, t: real)
    requires Straight(p, target, a, b) && s > 0.0 && v0 == a * s && v1 == b * s
    requires k * s == acc && acc * t == v1 - v0 && Product(v1 + v0, t) == 2.0 * s
    ensures Accelerated(p, Burn(p.VectorTo(target).Times(k), t)) == target
  {
    assert (b - a) * s == v1 - v0;
    Scaled(k, s, acc, t, v1, v0, b - a);
    BurnAlong(p, p.VectorTo(target), a, b, k, t);
    HalfSum(s, a, b, v0, v1, t);
    ReachIsProduct(v0, v1, t);
    hide Reach, Product;
    Cancel(s, Reach(a, b, t), 1.0);
  }

  lemma NonZeroProduct(x: real, y: real)
    requires x != 0.0 && y != 0.0
    ensures Product(x, y) != 0.0
  {}

  lemma ReachIsProduct(v: real, w: real, t: real)
    ensures 2.0 * Reach(v, w, t) == Product(w + v, t)
  {}

  lemma OneBurnTime(s: real, dv: real, sum: real, acc: real, t: real)
    requires s > 0.0 && sum > 0.0 && acc * (2.0 * s) == Product(dv, sum) && t * acc == dv && acc != 0.0
    ensures Product(sum, t) == 2.0 * s && t > 0.0
  {
    assert acc * (2.0 * s) == acc * (sum * t);
    assert Product(acc, 2.0 * s - sum * t) == 0.0;
    if 2.0 * s - sum * t != 0.0 { NonZeroProduct(acc, 2.0 * s - sum * t); }
    Sign(sum, t);
  }

  lemma OneBurnBound(s: real, v0: real, v1: real, acc: real, amax: real)
    requires s > 0.0 && amax > 0.0 && acc * (2.0 * s) == Product(v1 - v0, v1 + v0) && Feasible(s, v0, v1, amax)
    ensures acc * acc <= amax * amax
  {
    assert Product(v1 - v0, v1 + v0) == v1 * v1 - v0 * v0;
    assert (amax - acc) * (2.0 * s) == 2.0 * amax * s - acc * (2.0 * s);
    assert (amax + acc) * (2.0 * s) == 2.0 * amax * s + acc * (2.0 * s);
    Sign(2.0 * s, amax - acc);
    Sign(2.0 * s, amax + acc);
    if acc >= 0.0 { SquaresOrder(acc, amax); } else { SquaresOrder(-acc, amax); }
  }

  /** A plan that is fit to be flown: no burn is negative or too strong, and it ends where and as it should. */
  ghost predicate Flies(burns: seq<Burn>, p: Body, target: Body, amax: real) {
    && (forall i :: 0 <= i < |burns| ==> burns[i].seconds >= 0.0 && burns[i].acc.AbsSqr() <= amax * amax)
    && AfterBurns(p, burns) == target
  }

  lemma FliesInTwo(first: Burn, second: Burn, p: Body, target: Body, amax: real)
    requires first.seconds >= 0.0 && first.acc.AbsSqr() <= amax * amax
    requires second.seconds >= 0.0 && second.acc.AbsSqr() <= amax * amax
    requires AfterBurns(p, [first, second]) == target
    ensures Flies([first, second], p, target, amax)
  {}

  lemma EqualTimesAreEven(t: real)
    requires t != 0.0
    ensures !Lopsided(t, t)
  {
    assert t / t == 1.0;
  }

  lemma TwoBurnsOutcome(root: real -> real, p: Body, target: Body, a: real, b: real, amax: real,
                        s: real, v0: real, v2: real, accS: real)
    requires IsRoot(root) && Straight(p, target, a, b) && amax > 0.0 && s == Abs(root, p.VectorTo(target)) && s != 0.0
    requires v0 == a * s && v2 == b * s
    requires accS == AccelerationDistance(s, v0, v2, amax) && 0.0 <= accS <= s
    ensures var plan := TwoBurns(root, p, target, amax, s, v0, v2, accS);
      if AtTheLimit(s, v0, v2, amax) then plan == Failed
      else plan.Plan? && Flies(plan.burns, p, target, amax)
  {
    hide Accelerated, AfterBurns, OneManeuverPlan, Codirected, Straight, IsRoot, Abs, TopSpeed;
    var d := p.VectorTo(target);
    StraightLengths(root, p, target, a, b, s, v0, v2);
    AccelerationDistanceBounds(s, v0, v2, amax, accS);
    var r := BurnProfile(root, s, v0, v2, amax, accS);
    var t1, t2 := TimeFor(r - v0, amax), TimeFor(r - v2, amax);
    ProfileTimes(s, v0, v2, amax, r, t1, t2);
    var k, q := amax / s, r / s;
    Quotient(amax, s);
    Quotient(r, s);
    Sign(s, q);
    BurnsFly(root, p, target, a, b, s, v0, v2, amax, k, r, q, t1, t2);
    hide Profile, TimeFor, Flies, Lopsided, Feasible, AtTheLimit;
  }

  /** Either form of the plan flies; and the speed after the first burn is `r`. */
  lemma BurnsFly(root: real -> real, p: Body, target: Body, a: real, b: real, s: real, v0: real, v2: real,
                 amax: real, k: real, r: real, q: real, t1: real, t2: real)
    requires IsRoot(root) && Straight(p, target, a, b) && s == Abs(root, p.VectorTo(target))
    requires v0 == a * s && v2 == b * s && Profile(s, v0, v2, amax, r, t1, t2) && Feasible(s, v0, v2, amax)
    requires k * s == amax && q * s == r && q >= 0.0
    ensures var acc := p.VectorTo(target).Times(k);
      && Abs(root, Accelerated(p, Burn(acc, t1)).velocity) == r
      && Flies([Burn(acc, t1), Burn(acc.Times(-1.0), t2)], p, target, amax)
      && (t2 != 0.0 && Lopsided(t1, t2) ==>
            OneManeuverPlan(root, p, target).Plan? && Flies(OneManeuverPlan(root, p, target).burns, p, target, amax))
  {
    var d := p.VectorTo(target);
    StraightLengths(root, p, target, a, b, s, v0, v2);
    ProfileTimes(s, v0, v2, amax, r, t1, t2);
    FirstBurn(root, p, d, s, a, v0, amax, k, r, q, t1);
    TwoBurnsArrive(root, p, target, a, b, s, v0, v2, amax, k, r, q, t1, t2);
    StrengthOfBurn(d, s, k, amax);
    FliesInTwo(Burn(d.Times(k), t1), Burn(d.Times(k).Times(-1.0), t2), p, target, amax);
    hide Flies, Accelerated, AfterBurns, OneManeuverPlan, Codirected, IsRoot, Abs, Profile;
    if t2 != 0.0 && Lopsided(t1, t2) {
      if a == b { EqualTimesAreEven(t1); }
      OneBurnArrives(root, p, target, a, b, s, v0, v2, amax);
    }
  }

  lemma StrengthOfBurn(d: Vector, s: real, k: real, acc: real)
    requires s * s == d.AbsSqr() && k * s == acc
    ensures d.Times(k).AbsSqr() == acc * acc && d.Times(k).Times(-1.0).AbsSqr() == acc * acc
  {
    AbsSqrOfMultiple(d, k);
    AbsSqrOfMultiple(d.Times(k), -1.0);
    assert k * k * (s * s) == (k * s) * (k * s);
  }

  /** The outcome for a body that does not count as being in place. */
  lemma OutcomeOnTheWay(root: real -> real, p: Body, target: Body, a: real, b: real, amax: real)
    requires IsRoot(root) && Straight(p, target, a, b) && amax > 0.0
    requires !InPlace(p.VectorTo(target), Abs(root, p.velocity), Abs(root, target.velocity))
    ensures var s, v0, v2 := Abs(root, p.VectorTo(target)), Abs(root, p.velocity), Abs(root, target.velocity);
      var plan := FastPlan(root, p, target, amax);
      && (plan == Rejected <==> !Feasible(s, v0, v2, amax))
      && (plan == Failed <==> AtTheLimit(s, v0, v2, amax))
      && (plan.Plan? ==> Flies(plan.burns, p, target, amax))
  {
    var s, v0, v2 := Abs(root, p.VectorTo(target)), Abs(root, p.velocity), Abs(root, target.velocity);
    StraightLengths(root, p, target, a, b, s, a * s, b * s);
    var accS := AccelerationDistance(s, v0, v2, amax);
    assert FastPlan(root, p, target, amax) ==
      if accS < 0.0 || accS > s then Rejected else TwoBurns(root, p, target, amax, s, v0, v2, accS);
    hide FastPlan, TwoBurns, Flies, Codirected, IsRoot, InPlace, AccelerationDistance, Abs, Straight, AtTheLimit, Feasible;
    AccelerationDistanceBounds(s, v0, v2, amax, accS);
    if 0.0 <= accS <= s {
      TwoBurnsOutcome(root, p, target, a, b, amax, s, v0, v2, accS);
    } else {
      NotAtTheLimit(s, v0, v2, amax);
    }
  }

  /** In place, the planner returns the empty plan, whatever the speed, and that plan does not lead to the target. */
  lemma OutcomeInPlace(root: real -> real, p: Body, target: Body, a: real, b: real, amax: real)
    requires IsRoot(root) && Straight(p, target, a, b) && amax > 0.0
    requires InPlace(p.VectorTo(target), Abs(root, p.velocity), Abs(root, target.velocity))
    ensures FastPlan(root, p, target, amax) == Plan([])
    ensures AfterBurns(p, []) == p != target && !Flies([], p, target, amax)
  {
    MultiplesCodirected(p.VectorTo(target), a, 1.0);
    MultiplesCodirected(p.VectorTo(target), b, 1.0);
    assert p.VectorTo(target).Times(1.0) == p.VectorTo(target);
    hide IsRoot, InPlace, Codirected, AlmostNull;
    assert p == target ==> p.VectorTo(target).AbsSqr() == 0.0;
  }

  lemma LimitIsFeasible(s: real, v0: real, v2: real, amax: real)
    requires s > 0.0 && amax > 0.0 && AtTheLimit(s, v0, v2, amax)
    ensures Feasible(s, v0, v2, amax)
  {
    if !Feasible(s, v0, v2, amax) { NotAtTheLimit(s, v0, v2, amax); }
  }

  lemma LengthPositive(root: real -> real, v: Vector)
    requires IsRoot(root) && v.AbsSqr() > 0.0
    ensures Abs(root, v) > 0.0
  {
    var x := Abs(root, v);
    assert x >= 0.0 && x * x == v.AbsSqr();
  }

  /** For every body moving straight towards a target at a positive distance: the empty plan comes exactly when the
      body counts as being in place; otherwise the planner refuses exactly when the engine is too weak for the change
      of speed over the distance, and fails with a division by zero exactly when the engine has to accelerate all the
      way. The plan can be flown, within the engine's strength, to the target exactly in the remaining cases. */
  lemma FastPlanOutcome(root: real -> real, p: Body, target: Body, a: real, b: real, amax: real)
    requires IsRoot(root) && Straight(p, target, a, b) && amax > 0.0
    ensures var d := p.VectorTo(target);
      var s, v0, v2 := Abs(root, d), Abs(root, p.velocity), Abs(root, target.velocity);
      var plan := FastPlan(root, p, target, amax);
      && (plan == Plan([]) <==> InPlace(d, v0, v2))
      && (plan == Rejected <==> !InPlace(d, v0, v2) && !Feasible(s, v0, v2, amax))
      && (plan == Failed <==> !InPlace(d, v0, v2) && AtTheLimit(s, v0, v2, amax))
      && (plan.Plan? && Flies(plan.burns, p, target, amax) <==>
            !InPlace(d, v0, v2) && Feasible(s, v0, v2, amax) && !AtTheLimit(s, v0, v2, amax))
  {
    var d := p.VectorTo(target);
    var s, v0, v2 := Abs(root, d), Abs(root, p.velocity), Abs(root, target.velocity);
    LengthPositive(root, d);
    assert Flies([], p, target, amax) ==> d.AbsSqr() == 0.0;
    assert d.AbsSqr() > 0.0;
    hide FastPlan, Flies, IsRoot, InPlace, Abs, Straight, AtTheLimit, Feasible;
    if InPlace(d, v0, v2) {
      OutcomeInPlace(root, p, target, a, b, amax);
    } else {
      OutcomeOnTheWay(root, p, target, a, b, amax);
      if AtTheLimit(s, v0, v2, amax) { LimitIsFeasible(s, v0, v2, amax); }
    }
  }

  lemma RootOf(root: real -> real, e: real, x: real)
    requires IsRoot(root) && x >= 0.0 && x * x == e
    ensures root(e) == x
  {
    SquareNonNegative(x);
    SquaresOrder(root(e), x);
  }

  const RUNNER := Body(0.0, 0.0, Vector(1000.0, 0.0))
  const NEAR_TARGET := Body(0.01, 0.0, Vector(0.0, 0.0))

  lemma RunnerIsStraight()
    ensures Straight(RUNNER, NEAR_TARGET, 100000.0, 0.0)
  {}

  lemma RunnerDistance()
    ensures RUNNER.VectorTo(NEAR_TARGET) == Vector(0.01, 0.0) && Vector(0.01, 0.0).AbsSqr() == 0.0001
  {}

  lemma RunnerSpeeds()
    ensures RUNNER.velocity.AbsSqr() == 1000000.0 && NEAR_TARGET.velocity.AbsSqr() == 0.0
  {}

  lemma RunnerIsInPlace()
    ensures InPlace(Vector(0.01, 0.0), 1000.0, 0.0)
  {}

  lemma RunnerIsTooFast()
    ensures !Feasible(0.01, 1000.0, 0.0, 1.0)
  {}

  /** The root of a literal. */
  lemma LengthIs(root: real -> real, v: Vector, e: real, x: real)
    requires IsRoot(root) && v.AbsSqr() == e && x >= 0.0 && x * x == e
    ensures Abs(root, v) == x
  {
    RootOf(root, e, x);
  }

  /** A body a centimetre from its target, far too fast for its engine, is told that it has arrived. */
  lemma TooFastInPlace(root: real -> real)
    requires IsRoot(root)
    ensures Abs(root, RUNNER.VectorTo(NEAR_TARGET)) == 0.01
    ensures Abs(root, RUNNER.velocity) == 1000.0 && Abs(root, NEAR_TARGET.velocity) == 0.0
    ensures Straight(RUNNER, NEAR_TARGET, 100000.0, 0.0) && !Feasible(0.01, 1000.0, 0.0, 1.0)
    ensures FastPlan(root, RUNNER, NEAR_TARGET, 1.0) == Plan([]) && AfterBurns(RUNNER, []) != NEAR_TARGET
  {
    hide *;
    RunnerIsStraight();
    RunnerDistance();
    RunnerSpeeds();
    RunnerIsInPlace();
    RunnerIsTooFast();
    LengthIs(root, RUNNER.VectorTo(NEAR_TARGET), 0.0001, 0.01);
    LengthIs(root, RUNNER.velocity, 1000000.0, 1000.0);
    LengthIs(root, NEAR_TARGET.velocity, 0.0, 0.0);
    OutcomeInPlace(root, RUNNER, NEAR_TARGET, 100000.0, 0.0, 1.0);
  }

  const STARTER := Body(0.0, 0.0, Vector(0.0, 0.0))
  const FAST_TARGET := Body(1.0, 0.0, Vector(2.0, 0.0))

  lemma StarterIsStraight()
    ensures Straight(STARTER, FAST_TARGET, 0.0, 2.0)
  {}

  lemma StarterDistance()
    ensures STARTER.VectorTo(FAST_TARGET) == Vector(1.0, 0.0) && Vector(1.0, 0.0).AbsSqr() == 1.0
  {}

  lemma StarterSpeeds()
    ensures STARTER.velocity.AbsSqr() == 0.0 && FAST_TARGET.velocity.AbsSqr() == 4.0
  {}

  lemma StarterIsOnTheWay()
    ensures !InPlace(Vector(1.0, 0.0), 0.0, 2.0)
  {}

  lemma StarterIsAtTheLimit()
    ensures AtTheLimit(1.0, 0.0, 2.0, 2.0)
  {}

  /** From rest to speed 2 over the distance 1 with an engine of strength 2: a division by zero. */
  lemma FailsAtTheLimit(root: real -> real)
    requires IsRoot(root)
    ensures Straight(STARTER, FAST_TARGET, 0.0, 2.0) && AtTheLimit(1.0, 0.0, 2.0, 2.0)
    ensures FastPlan(root, STARTER, FAST_TARGET, 2.0) == Failed
  {
    hide *;
    StarterIsStraight();
    StarterDistance();
    StarterSpeeds();
    StarterIsOnTheWay();
    StarterIsAtTheLimit();
    LengthIs(root, STARTER.VectorTo(FAST_TARGET), 1.0, 1.0);
    LengthIs(root, STARTER.velocity, 0.0, 0.0);
    LengthIs(root, FAST_TARGET.velocity, 4.0, 2.0);
    FastPlanOutcome(root, STARTER, FAST_TARGET, 0.0, 2.0, 2.0);
  }

  lemma NotAtTheLimit(s: real, v0: real, v2: real, amax: real)
    requires s > 0.0 && amax > 0.0 && !Feasible(s, v0, v2, amax)
    ensures !AtTheLimit(s, v0, v2, amax)
  {
    Sign(amax, s);
    assert 2.0 * amax * s == 2.0 * (amax * s) && -2.0 * amax * s == -(2.0 * (amax * s));
  }

  // ------------------------------------------------------------------ one burn or two

  /** The highest speed of a flight with two burns, by the distances over which they change the speed. */
  predicate IsPeak(s: real, v0: real, v2: real, amax: real, r: real) {
    r >= 0.0 && 2.0 * (r * r) == 2.0 * amax * s + v0 * v0 + v2 * v2
  }

  /** One burn would change the speed by less than half a percent of what the other one does. */
  predicate Uneven(v0: real, v2: real, r: real) { 200.0 * (r - v0) < r - v2 || 200.0 * (r - v2) < r - v0 }

  lemma SingleIsOne(root: real -> real, p: Body, target: Body)
    ensures OneManeuverPlan(root, p, target).Plan? ==> |OneManeuverPlan(root, p, target).burns| == 1
  {}

  /** Comparing burn times is comparing changes of speed. */
  lemma LopsidedIs(x: real, y: real, amax: real)
    requires amax > 0.0 && x >= 0.0 && y > 0.0
    ensures TimeFor(y, amax) > 0.0
    ensures Lopsided(TimeFor(x, amax), TimeFor(y, amax)) <==> 200.0 * x < y || 200.0 * y < x
  {
    var t1, t2 := TimeFor(x, amax), TimeFor(y, amax);
    Quotient(x, amax);
    Quotient(y, amax);
    Sign(amax, t1);
    Sign(amax, t2);
    hide TimeFor;
    assert amax * t1 == x && amax * t2 == y;
    Shorter(t1, t2);
    SmallerTimes(t1, t2, x, y, amax);
    SmallerTimes(t2, t1, y, x, amax);
    if t1 > 0.0 { Shorter(t2, t1); }
  }

  /** Less than half a percent. */
  lemma Shorter(t: real, u: real)
    requires u > 0.0
    ensures t / u < 0.005 <==> 200.0 * t < u
  {
    var q := t / u;
    assert q * u == t;
    Sign(u, 0.005 - q);
    assert u * (0.005 - q) == 0.005 * u - t;
  }

  lemma SmallerTimes(t: real, u: real, x: real, y: real, amax: real)
    requires amax > 0.0 && amax * t == x && amax * u == y
    ensures 200.0 * t < u <==> 200.0 * x < y
  {
    assert amax * (u - 200.0 * t) == y - 200.0 * x;
    Sign(amax, u - 200.0 * t);
  }

  lemma ShapeOfTwoBurns(root: real -> real, p: Body, target: Body, a: real, b: real, amax: real,
                        s: real, v0: real, v2: real, accS: real) returns (r: real)
    requires IsRoot(root) && Straight(p, target, a, b) && amax > 0.0 && s == Abs(root, p.VectorTo(target)) && s != 0.0
    requires v0 == a * s && v2 == b * s && !AtTheLimit(s, v0, v2, amax)
    requires accS == AccelerationDistance(s, v0, v2, amax) && 0.0 <= accS <= s
    ensures IsPeak(s, v0, v2, amax, r)
    ensures var plan := TwoBurns(root, p, target, amax, s, v0, v2, accS);
      plan.Plan? && |plan.burns| == if Uneven(v0, v2, r) then 1 else 2
  {
    hide Accelerated, AfterBurns, OneManeuverPlan, Codirected, Straight, IsRoot, Abs, TopSpeed;
    var d := p.VectorTo(target);
    StraightLengths(root, p, target, a, b, s, v0, v2);
    AccelerationDistanceBounds(s, v0, v2, amax, accS);
    r := BurnProfile(root, s, v0, v2, amax, accS);
    var t1, t2 := TimeFor(r - v0, amax), TimeFor(r - v2, amax);
    ProfileTimes(s, v0, v2, amax, r, t1, t2);
    var k, q := amax / s, r / s;
    Quotient(amax, s);
    Quotient(r, s);
    Sign(s, q);
    BurnsFly(root, p, target, a, b, s, v0, v2, amax, k, r, q, t1, t2);
    Sign(amax, t1);
    Sign(amax, t2);
    SingleIsOne(root, p, target);
    hide Flies, Feasible, AtTheLimit;
    LopsidedIs(r - v0, r - v2, amax);
    hide Profile, TimeFor, Lopsided;
  }

  /** The plan has two burns unless they would be that uneven: then it has a single one. */
  lemma NumberOfBurns(root: real -> real, p: Body, target: Body, a: real, b: real, amax: real) returns (r: real)
    requires IsRoot(root) && Straight(p, target, a, b) && amax > 0.0
    requires var s, v0, v2 := Abs(root, p.VectorTo(target)), Abs(root, p.velocity), Abs(root, target.velocity);
      !InPlace(p.VectorTo(target), v0, v2) && Feasible(s, v0, v2, amax) && !AtTheLimit(s, v0, v2, amax)
    ensures var s, v0, v2 := Abs(root, p.VectorTo(target)), Abs(root, p.velocity), Abs(root, target.velocity);
      var plan := FastPlan(root, p, target, amax);
      && IsPeak(s, v0, v2, amax, r)
      && plan.Plan? && |plan.burns| == if Uneven(v0, v2, r) then 1 else 2
  {
    var s, v0, v2 := Abs(root, p.VectorTo(target)), Abs(root, p.velocity), Abs(root, target.velocity);
    StraightLengths(root, p, target, a, b, s, a * s, b * s);
    var accS := AccelerationDistance(s, v0, v2, amax);
    assert FastPlan(root, p, target, amax) ==
      if accS < 0.0 || accS > s then Rejected else TwoBurns(root, p, target, amax, s, v0, v2, accS);
    hide FastPlan, TwoBurns, Codirected, IsRoot, InPlace, AccelerationDistance, Abs, Straight, AtTheLimit, Feasible, IsPeak, Uneven;
    AccelerationDistanceBounds(s, v0, v2, amax, accS);
    r := ShapeOfTwoBurns(root, p, target, a, b, amax, s, v0, v2, accS);
  }

  // ------------------------------------------------------------------ the wrong direction

  /** A body, or a target, that moves against the way between them along either axis is refused, unless it hardly moves. */
  lemma AgainstTheWay(root: real -> real, p: Body, target: Body, amax: real, v: Vector)
    requires amax > 0.0 && (v == p.velocity || v == target.velocity) && v.AbsSqr() >= 0.001
    requires var d := p.VectorTo(target); v.x * d.x < 0.0 || v.y * d.y < 0.0
    ensures FastPlan(root, p, target, amax) == Rejected
  {}

  /** So is one that moves straight away from the target. */
  lemma AwayFromTarget(root: real -> real, p: Body, target: Body, amax: real, v: Vector, k: real)
    requires amax > 0.0 && (v == p.velocity || v == target.velocity) && v.AbsSqr() >= 0.001
    requires k < 0.0 && v == p.VectorTo(target).Times(k)
    ensures FastPlan(root, p, target, amax) == Rejected
  {
    var d := p.VectorTo(target);
    Opposite(d.x, k);
    Opposite(d.y, k);
    assert d == ZERO ==> v.AbsSqr() == 0.0;
    AgainstTheWay(root, p, target, amax, v);
  }

  lemma Opposite(d: real, k: real)
    requires k < 0.0
    ensures d != 0.0 ==> (d * k) * d < 0.0
  {
    assert (d * k) * d == (d * d) * k;
    if d > 0.0 { Sign(d, d); }
    if d < 0.0 { Sign(-d, -d); assert (-d) * (-d) == d * d; }
    if d != 0.0 {
      Sign(d * d, -k);
      assert (d * d) * (-k) == -((d * d) * k);
    }
  }
}
