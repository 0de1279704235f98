/** One tick of the physics engine on any number of threads, and runs of many ticks.
    Threads claim batches of object ids from a shared counter; each object is integrated and its entry in the grid is
    moved in two separate steps, entering the new cell and leaving the old one. */
module NewtonTick {
  import opened Options
  import opened GridGeometry
  import opened UnorderedVectors
  import opened ObjectGrid

  const BATCH := 64

  datatype Vec = Vec(x: real, y: real)

  /** What the thread that handles an object has still to do for it. */
  datatype Motion = Settled | Leaving(to: Option<nat>)

  datatype Body = Body(pos: Vec, vel: Vec, weight: real, forces: seq<Vec>, cell: Option<nat>, motion: Motion)

  type Bodies = seq<Option<Body>>

  function Add(a: Vec, b: Vec): Vec { Vec(a.x + b.x, a.y + b.y) }

  function Scale(a: Vec, k: real): Vec { Vec(a.x * k, a.y * k) }

  function Sum(forces: seq<Vec>): Vec {
    if forces == [] then Vec(0.0, 0.0) else Add(Sum(forces[..|forces| - 1]), forces[|forces| - 1])
  }

  /** The speed gained in `dt` seconds. */
  function Gain(b: Body, dt: real): Vec
    requires b.weight > 0.0
  {
    Scale(Sum(b.forces), dt / b.weight)
  }

  function Integrate(b: Body, dt: real): Body
    requires b.weight > 0.0
  {
    var gain := Gain(b, dt);
    b.(pos := Add(b.pos, Add(Scale(b.vel, dt), Scale(gain, dt * 0.5))), vel := Add(b.vel, gain))
  }

  /** The motion is that of the constant acceleration F / m. */
  lemma IntegrateIsKinematics(b: Body, dt: real)
    requires b.weight > 0.0
    ensures var a := Scale(Sum(b.forces), 1.0 / b.weight); var c := Integrate(b, dt);
      && c.vel.x == b.vel.x + a.x * dt && c.vel.y == b.vel.y + a.y * dt
      && c.pos.x == b.pos.x + b.vel.x * dt + a.x * dt * dt / 2.0
      && c.pos.y == b.pos.y + b.vel.y * dt + a.y * dt * dt / 2.0
  {
    var f := Sum(b.forces);
    Quotient(f.x, dt, b.weight);
    Quotient(f.y, dt, b.weight);
  }

  lemma Quotient(f: real, t: real, m: real)
    requires m > 0.0
    ensures f * (t / m) == f * (1.0 / m) * t
    ensures f * (t / m) * (t * 0.5) == f * (1.0 / m) * t * t / 2.0
  {
    var k := 1.0 / m;
    assert t / m == t * k;
    assert f * (t * k) == f * k * t;
  }

  lemma {:induction false} SumOfAll(a: seq<Vec>, b: seq<Vec>)
    ensures Sum(a + b) == Add(Sum(a), Sum(b))
    decreases |b|
  {
    if b == [] {
      assert a + b == a;
    } else {
      assert (a + b)[..|a + b| - 1] == a + b[..|b| - 1];
      SumOfAll(a, b[..|b| - 1]);
    }
  }

  function Minus(a: Vec, b: Vec): Vec { Vec(a.x - b.x, a.y - b.y) }

  /** Every force counts: the speed gained under two groups of forces is what is gained under each of them, added up, and so
      is the way made beyond that of free flight. */
  lemma ForcesAddUp(b: Body, first: seq<Vec>, second: seq<Vec>, dt: real)
    requires b.weight > 0.0
    ensures var free := Integrate(b.(forces := []), dt);
      var one, other := Integrate(b.(forces := first), dt), Integrate(b.(forces := second), dt);
      var both := Integrate(b.(forces := first + second), dt);
      && Minus(both.vel, b.vel) == Add(Minus(one.vel, b.vel), Minus(other.vel, b.vel))
      && Minus(both.pos, free.pos) == Add(Minus(one.pos, free.pos), Minus(other.pos, free.pos))
  {
    SumOfAll(first, second);
    var f, g := Sum(first), Sum(second);
    assert Sum([]) == Vec(0.0, 0.0);
    IntegrateIs(b.(forces := []), dt);
    IntegrateIs(b.(forces := first), dt);
    IntegrateIs(b.(forces := second), dt);
    IntegrateIs(b.(forces := first + second), dt);
    hide Sum, Integrate, NewSpeed, NewPlace;
    AxisAddsUp(b.pos.x, b.vel.x, f.x, g.x, dt, b.weight);
    AxisAddsUp(b.pos.y, b.vel.y, f.y, g.y, dt, b.weight);
  }

  function NewSpeed(v: real, f: real, dt: real, m: real): real
    requires m > 0.0
  {
    v + f * (dt / m)
  }

  function NewPlace(x: real, v: real, f: real, dt: real, m: real): real
    requires m > 0.0
  {
    x + (v * dt + f * (dt / m) * (dt * 0.5))
  }

  lemma AxisAddsUp(x: real, v: real, f: real, g: real, dt: real, m: real)
    requires m > 0.0
    ensures NewSpeed(v, f + g, dt, m) - v == (NewSpeed(v, f, dt, m) - v) + (NewSpeed(v, g, dt, m) - v)
    ensures NewPlace(x, v, f + g, dt, m) - NewPlace(x, v, 0.0, dt, m) ==
      (NewPlace(x, v, f, dt, m) - NewPlace(x, v, 0.0, dt, m)) + (NewPlace(x, v, g, dt, m) - NewPlace(x, v, 0.0, dt, m))
  {
    GainsAddUp(f, g, dt / m, dt * 0.5);
  }

  lemma GainsAddUp(f: real, g: real, k: real, h: real)
    ensures (f + g) * k == f * k + g * k
    ensures (f + g) * k * h == f * k * h + g * k * h
  {}

  lemma IntegrateIs(b: Body, dt: real)
    requires b.weight > 0.0
    ensures var f, c, m := Sum(b.forces), Integrate(b, dt), b.weight;
      && c.vel == Vec(NewSpeed(b.vel.x, f.x, dt, m), NewSpeed(b.vel.y, f.y, dt, m))
      && c.pos == Vec(NewPlace(b.pos.x, b.vel.x, f.x, dt, m), NewPlace(b.pos.y, b.vel.y, f.y, dt, m))
  {}

  /** One force: the speed changes by force times time over weight, and the way is that of the mean speed. */
  lemma OneForce(b: Body, f: Vec, dt: real)
    requires b.weight > 0.0
    ensures var c := Integrate(b.(forces := [f]), dt);
      && (c.vel.x - b.vel.x) * b.weight == f.x * dt && (c.vel.y - b.vel.y) * b.weight == f.y * dt
      && c.pos.x - b.pos.x == (b.vel.x + c.vel.x) / 2.0 * dt && c.pos.y - b.pos.y == (b.vel.y + c.vel.y) / 2.0 * dt
  {
    IntegrateIs(b.(forces := [f]), dt);
    assert [f][..0] == [] && Sum([f]) == f;
    hide Sum, Integrate;
    MeanSpeed(b.vel.x, f.x, dt, b.weight);
    MeanSpeed(b.vel.y, f.y, dt, b.weight);
  }

  lemma MeanSpeed(v: real, f: real, t: real, m: real)
    requires m > 0.0
    ensures f * (t / m) * m == f * t
    ensures v * t + f * (t / m) * (t * 0.5) == (v + (v + f * (t / m))) / 2.0 * t
  {
    var k := t / m;
    assert k * m == t;
    assert f * k * m == f * (k * m);
  }

  /** No force: the speed stays and the way is speed times time. */
  lemma NoForce(b: Body, dt: real)
    requires b.weight > 0.0 && b.forces == []
    ensures Integrate(b, dt) == b.(pos := Vec(b.pos.x + b.vel.x * dt, b.pos.y + b.vel.y * dt))
  {}

  /** A worker has yet to claim a batch, is at object `at` of a batch that ends before `end`, or has found no batch. */
  datatype Worker = Ready | Busy(at: nat, end: nat) | Done

  datatype State = State(bodies: Bodies, listing: Listing, next: nat, workers: seq<Worker>)

  datatype Action = Claim(t: nat) | Step(t: nat)

  predicate Enabled(s: State, a: Action) {
    match a
    case Claim(t) => t < |s.workers| && s.workers[t].Ready?
    case Step(t) => t < |s.workers| && s.workers[t].Busy?
  }

  function Onward(w: Worker): Worker
    requires w.Busy?
  {
    if w.at + 1 < w.end then w.(at := w.at + 1) else Ready
  }

  /** A state in which every step is defined: weights are positive and every index is in range. */
  predicate Sane(g: Geometry, s: State) {
    && g.Valid() && |s.listing| == g.Size()
    && (forall id :: 0 <= id < |s.bodies| && s.bodies[id].Some? ==> SaneBody(g, s.bodies[id].value))
    && (forall t :: 0 <= t < |s.workers| && s.workers[t].Busy? ==> s.workers[t].at < s.workers[t].end <= |s.bodies|)
  }

  predicate SaneBody(g: Geometry, b: Body) {
    && b.weight > 0.0
    && (b.cell.Some? ==> b.cell.value < g.Size())
    && (b.motion.Leaving? ==> b.cell.Some? && b.motion.to != b.cell && (b.motion.to.Some? ==> b.motion.to.value < g.Size()))
  }

  function Do(g: Geometry, dt: real, s: State, a: Action): State
    requires Sane(g, s) && Enabled(s, a)
  {
    match a
    case Claim(t) =>
      var end := if s.next + BATCH < |s.bodies| then s.next + BATCH else |s.bodies|;
      s.(next := s.next + BATCH,
         workers := s.workers[t := if s.next < |s.bodies| then Busy(s.next, end) else Done])
    case Step(t) =>
      var id := s.workers[t].at;
      var past := s.(workers := s.workers[t := Onward(s.workers[t])]);
      match s.bodies[id]
      case None => past
      case Some(b) =>
        match b.motion
        case Settled =>
          var c := Integrate(b, dt);
          var to := GetCell(g, c.pos.x, c.pos.y);
          if b.cell == None then
            past.(bodies := s.bodies[id := Some(c.(cell := to))], listing := Admit(s.listing, to, id))
          else if CellContains(g, b.cell.value, c.pos.x, c.pos.y) then
            past.(bodies := s.bodies[id := Some(c)])
          else
            s.(bodies := s.bodies[id := Some(c.(motion := Leaving(to)))], listing := Enter(s.listing, to, id))
        case Leaving(to) =>
          past.(bodies := s.bodies[id := Some(b.(cell := to, motion := Settled))],
                listing := Leave(s.listing, b.cell.value, id))
  }

  /** An object after the tick: integrated once, with a pointer to the cell it is in now. */
  function Moved(g: Geometry, dt: real, b: Body): Body
    requires g.Valid() && b.weight > 0.0
  {
    var c := Integrate(b, dt);
    c.(cell := GetCell(g, c.pos.x, c.pos.y), motion := Settled)
  }

  // ------------------------------------------------------------------ the grid agrees with the objects

  /** Cell `k` is to list object `id`. */
  predicate Lists(bodies: Bodies, id: nat, k: nat) {
    && id < |bodies| && bodies[id].Some?
    && (bodies[id].value.cell == Some(k) || bodies[id].value.motion == Leaving(Some(k)))
  }

  ghost predicate Agrees(g: Geometry, bodies: Bodies, listing: Listing) {
    && |listing| == g.Size()
    && (forall k :: 0 <= k < |listing| ==> NoDuplicates(listing[k]))
    && (forall k, id: nat :: 0 <= k < |listing| ==> (id in listing[k] <==> Lists(bodies, id, k)))
  }

  lemma EnterAgrees(g: Geometry, bodies: Bodies, listing: Listing, id: nat, b: Body, to: Option<nat>)
    requires g.Valid() && Agrees(g, bodies, listing) && id < |bodies|
    requires to.Some? ==> to.value < g.Size() && !Lists(bodies, id, to.value)
    requires forall k: nat :: Lists(bodies[id := Some(b)], id, k) <==> Lists(bodies, id, k) || to == Some(k)
    ensures Agrees(g, bodies[id := Some(b)], Enter(listing, to, id))
  {
    var after := Enter(listing, to, id);
    forall k | 0 <= k < |listing| ensures NoDuplicates(after[k]) {
      assert NoDuplicates(listing[k]);
      if to == Some(k) { assert multiset(after[k]) == multiset(listing[k]) + multiset{id}; }
    }
    forall k, i: nat | 0 <= k < |listing| ensures i in after[k] <==> Lists(bodies[id := Some(b)], i, k) {
      assert i in listing[k] <==> Lists(bodies, i, k);
      if i != id { assert Lists(bodies[id := Some(b)], i, k) <==> Lists(bodies, i, k); }
    }
  }

  lemma LeaveAgrees(g: Geometry, bodies: Bodies, listing: Listing, id: nat, b: Body, from: nat)
    requires g.Valid() && Agrees(g, bodies, listing) && id < |bodies| && from < g.Size()
    requires forall k: nat :: Lists(bodies[id := Some(b)], id, k) <==> Lists(bodies, id, k) && k != from
    ensures Agrees(g, bodies[id := Some(b)], Leave(listing, from, id))
  {
    var after := Leave(listing, from, id);
    RemoveFirstTakesOne(listing[from], id);
    assert NoDuplicates(listing[from]);
    forall k | 0 <= k < |listing| ensures NoDuplicates(after[k]) { assert NoDuplicates(listing[k]); }
    forall k, i: nat | 0 <= k < |listing| ensures i in after[k] <==> Lists(bodies[id := Some(b)], i, k) {
      assert i in listing[k] <==> Lists(bodies, i, k);
      assert i in after[k] <==> multiset(after[k])[i] > 0;
      if i != id { assert Lists(bodies[id := Some(b)], i, k) <==> Lists(bodies, i, k); }
    }
  }

  lemma SameAgrees(g: Geometry, bodies: Bodies, listing: Listing, id: nat, b: Body)
    requires Agrees(g, bodies, listing) && id < |bodies|
    requires forall k: nat :: Lists(bodies[id := Some(b)], id, k) <==> Lists(bodies, id, k)
    ensures Agrees(g, bodies[id := Some(b)], listing)
  {
    forall k, i: nat | 0 <= k < |listing| ensures i in listing[k] <==> Lists(bodies[id := Some(b)], i, k) {
      if i != id { assert Lists(bodies[id := Some(b)], i, k) <==> Lists(bodies, i, k); }
    }
  }

  /** No single step of any worker makes the grid disagree with the objects. */
  lemma StepAgrees(g: Geometry, dt: real, s: State, a: Action)
    requires Sane(g, s) && Enabled(s, a) && Agrees(g, s.bodies, s.listing)
    ensures Agrees(g, Do(g, dt, s, a).bodies, Do(g, dt, s, a).listing)
  {
    if a.Step? {
      var id := s.workers[a.t].at;
      if s.bodies[id].Some? {
        var b := s.bodies[id].value;
        match b.motion
        case Settled =>
          var c := Integrate(b, dt);
          var to := GetCell(g, c.pos.x, c.pos.y);
          if b.cell == None {
            if to.Some? { assert id !in s.listing[to.value]; }
            assert Admit(s.listing, to, id) == Enter(s.listing, to, id);
            EnterAgrees(g, s.bodies, s.listing, id, c.(cell := to), to);
          } else {
            CellsPartitionGrid(g, c.pos.x, c.pos.y, b.cell.value);
            if CellContains(g, b.cell.value, c.pos.x, c.pos.y) {
              SameAgrees(g, s.bodies, s.listing, id, c);
            } else {
              EnterAgrees(g, s.bodies, s.listing, id, c.(motion := Leaving(to)), to);
            }
          }
        case Leaving(to) =>
          var c := b.(cell := to, motion := Settled);
          assert SaneBody(g, b) && s.bodies[id := Some(c)][id] == Some(c);
          forall k: nat ensures Lists(s.bodies[id := Some(c)], id, k) <==> Lists(s.bodies, id, k) && k != b.cell.value {}
          LeaveAgrees(g, s.bodies, s.listing, id, c, b.cell.value);
      }
    }
  }

  // ------------------------------------------------------------------ every object exactly once

  predicate Holds(w: Worker, id: nat) { w.Busy? && w.at <= id < w.end }

  ghost predicate Held(s: State, id: nat) { exists t :: 0 <= t < |s.workers| && Holds(s.workers[t], id) }

  ghost predicate Finished(g: Geometry, dt: real, start: Option<Body>, now: Option<Body>)
    requires g.Valid() && (start.Some? ==> start.value.weight > 0.0)
  {
    now == if start.None? then None else Some(Moved(g, dt, start.value))
  }

  /** Integrated and entered in its new cell, but not yet taken out of the old one. */
  ghost predicate Halfway(g: Geometry, dt: real, start: Option<Body>, now: Option<Body>)
    requires g.Valid() && (start.Some? ==> start.value.weight > 0.0)
  {
    && start.Some? && now.Some? && now.value.motion.Leaving?
    && now.value.(cell := now.value.motion.to, motion := Settled) == Moved(g, dt, start.value)
  }

  ghost predicate AtRest(bodies: Bodies) {
    forall id :: 0 <= id < |bodies| && bodies[id].Some? ==> bodies[id].value.weight > 0.0 && bodies[id].value.motion.Settled?
  }

  ghost predicate Apart(s: State) {
    forall t, u :: 0 <= t < |s.workers| && 0 <= u < |s.workers| && t != u && s.workers[t].Busy? && s.workers[u].Busy? ==>
      s.workers[t].end <= s.workers[u].at || s.workers[u].end <= s.workers[t].at
  }

  ghost predicate Claimed(s: State) {
    && (forall t :: 0 <= t < |s.workers| && s.workers[t].Busy? ==> s.workers[t].end <= s.next)
    && (forall t :: 0 <= t < |s.workers| && s.workers[t].Done? ==> |s.bodies| <= s.next)
  }

  ghost predicate Progress(g: Geometry, dt: real, start: Bodies, s: State)
    requires g.Valid() && AtRest(start)
  {
    && |s.bodies| == |start|
    && (forall id :: s.next <= id < |start| ==> s.bodies[id] == start[id])
    && (forall t, id: nat :: 0 <= t < |s.workers| && id < |start| && Holds(s.workers[t], id) ==>
          s.bodies[id] == start[id] || (id == s.workers[t].at && Halfway(g, dt, start[id], s.bodies[id])))
    && (forall id: nat :: id < s.next && id < |start| && !Held(s, id) ==> Finished(g, dt, start[id], s.bodies[id]))
  }

  ghost predicate TickInv(g: Geometry, dt: real, start: Bodies, s: State) {
    && Sane(g, s) && AtRest(start) && Agrees(g, s.bodies, s.listing) && Apart(s) && Claimed(s)
    && Progress(g, dt, start, s)
  }

  lemma StepStaysSane(g: Geometry, dt: real, s: State, a: Action)
    requires Sane(g, s) && Enabled(s, a)
    ensures Sane(g, Do(g, dt, s, a)) && |Do(g, dt, s, a).workers| == |s.workers|
  {
    if a.Step? {
      var id := s.workers[a.t].at;
      if s.bodies[id].Some? && s.bodies[id].value.motion.Settled? && s.bodies[id].value.cell.Some? {
        var c := Integrate(s.bodies[id].value, dt);
        CellsPartitionGrid(g, c.pos.x, c.pos.y, s.bodies[id].value.cell.value);
      }
    }
  }

  /** What one step does to the object it is about, and to no other. */
  lemma StepOnObject(g: Geometry, dt: real, start: Bodies, s: State, t: nat)
    requires TickInv(g, dt, start, s) && Enabled(s, Step(t))
    ensures var u := Do(g, dt, s, Step(t)); var id := s.workers[t].at;
      && |u.bodies| == |s.bodies| && u.next == s.next
      && (forall i :: 0 <= i < |s.bodies| && i != id ==> u.bodies[i] == s.bodies[i])
      && (forall i :: 0 <= i < |s.workers| && i != t ==> u.workers[i] == s.workers[i])
      && ((u.workers[t] == s.workers[t] && Halfway(g, dt, start[id], u.bodies[id]))
          || (u.workers[t] == Onward(s.workers[t]) && Finished(g, dt, start[id], u.bodies[id])))
  {
    var id := s.workers[t].at;
    assert Holds(s.workers[t], id);
    assert s.bodies[id] == start[id] || Halfway(g, dt, start[id], s.bodies[id]);
    hide Agrees, Apart, Claimed, Progress;
    if s.bodies[id].Some? && s.bodies[id].value.motion.Settled? && s.bodies[id].value.cell.Some? {
      var c := Integrate(s.bodies[id].value, dt);
      CellsPartitionGrid(g, c.pos.x, c.pos.y, s.bodies[id].value.cell.value);
    }
  }

  lemma HeldStays(s: State, u: State, id: nat)
    requires |s.workers| == |u.workers|
    requires forall v :: 0 <= v < |s.workers| && Holds(s.workers[v], id) ==> Holds(u.workers[v], id)
    ensures Held(s, id) ==> Held(u, id)
  {}

  lemma ClaimKeepsInv(g: Geometry, dt: real, start: Bodies, s: State, t: nat)
    requires TickInv(g, dt, start, s) && Enabled(s, Claim(t))
    ensures TickInv(g, dt, start, Do(g, dt, s, Claim(t)))
  {
    var u := Do(g, dt, s, Claim(t));
    assert Agrees(g, u.bodies, u.listing);
    hide Agrees, Halfway, Finished;
    assert Apart(u) && Claimed(u);
    forall id: nat | id < u.next && id < |start| && !Held(u, id) ensures Finished(g, dt, start[id], u.bodies[id]) {
      assert !Holds(u.workers[t], id);
      HeldStays(s, u, id);
    }
  }

  lemma ObjectStepKeepsInv(g: Geometry, dt: real, start: Bodies, s: State, t: nat)
    requires TickInv(g, dt, start, s) && Enabled(s, Step(t))
    ensures TickInv(g, dt, start, Do(g, dt, s, Step(t)))
  {
    var u := Do(g, dt, s, Step(t));
    StepAgrees(g, dt, s, Step(t));
    StepStaysSane(g, dt, s, Step(t));
    StepOnObject(g, dt, start, s, t);
    ObjectStepProgress(g, dt, start, s, t, u);
    hide Agrees, Sane, Do, Halfway, Finished, Progress;
    assert Apart(u) && Claimed(u);
  }

  lemma ObjectStepProgress(g: Geometry, dt: real, start: Bodies, s: State, t: nat, u: State)
    requires g.Valid() && AtRest(start) && Progress(g, dt, start, s) && Apart(s) && Claimed(s)
    requires t < |s.workers| == |u.workers| && s.workers[t].Busy?
    requires s.workers[t].at < s.workers[t].end <= |s.bodies| == |u.bodies| && u.next == s.next
    requires forall i :: 0 <= i < |s.bodies| && i != s.workers[t].at ==> u.bodies[i] == s.bodies[i]
    requires forall i :: 0 <= i < |s.workers| && i != t ==> u.workers[i] == s.workers[i]
    requires (u.workers[t] == s.workers[t] && Halfway(g, dt, start[s.workers[t].at], u.bodies[s.workers[t].at]))
             || (u.workers[t] == Onward(s.workers[t]) && Finished(g, dt, start[s.workers[t].at], u.bodies[s.workers[t].at]))
    ensures Progress(g, dt, start, u)
  {
    hide Halfway, Finished;
    var id := s.workers[t].at;
    assert Holds(s.workers[t], id);
    forall v | 0 <= v < |s.workers| && v != t ensures !Holds(s.workers[v], id) {}
    forall v, i: nat | 0 <= v < |u.workers| && i < |start| && Holds(u.workers[v], i)
      ensures u.bodies[i] == start[i] || (i == u.workers[v].at && Halfway(g, dt, start[i], u.bodies[i]))
    {
      assert Holds(s.workers[v], i);
    }
    forall i: nat | i < u.next && i < |start| && !Held(u, i) ensures Finished(g, dt, start[i], u.bodies[i]) {
      assert !Holds(u.workers[t], i);
      if i != id {
        HeldStays(s, u, i);
      }
    }
  }

  ghost predicate Reaches(g: Geometry, dt: real, s: State, actions: seq<Action>, u: State)
    decreases |actions|
  {
    if actions == [] then s == u
    else Sane(g, s) && Enabled(s, actions[0]) && Reaches(g, dt, Do(g, dt, s, actions[0]), actions[1..], u)
  }

  lemma {:induction false} RunKeepsInv(g: Geometry, dt: real, start: Bodies, s: State, actions: seq<Action>, u: State)
    requires TickInv(g, dt, start, s) && Reaches(g, dt, s, actions, u)
    ensures TickInv(g, dt, start, u) && |u.workers| == |s.workers|
    decreases |actions|
  {
    if actions != [] {
      match actions[0]
      case Claim(t) =>
        ClaimKeepsInv(g, dt, start, s, t);
        RunKeepsInv(g, dt, start, Do(g, dt, s, Claim(t)), actions[1..], u);
      case Step(t) =>
        ObjectStepKeepsInv(g, dt, start, s, t);
        RunKeepsInv(g, dt, start, Do(g, dt, s, Step(t)), actions[1..], u);
    }
  }

  /** The state a tick starts from: the counter reset, every worker about to claim. */
  function Begin(bodies: Bodies, listing: Listing, workers: nat): State {
    State(bodies, listing, 0, seq(workers, _ => Ready))
  }

  ghost predicate AllDone(s: State) {
    |s.workers| > 0 && forall t :: 0 <= t < |s.workers| ==> s.workers[t].Done?
  }

  /** Between ticks: sound objects, each at rest, and a grid that agrees with their cell pointers. */
  ghost predicate Settles(g: Geometry, bodies: Bodies, listing: Listing) {
    && g.Valid() && AtRest(bodies) && Agrees(g, bodies, listing)
    && forall id :: 0 <= id < |bodies| && bodies[id].Some? ==> SaneBody(g, bodies[id].value)
  }

  // ------------------------------------------------------------------ a tick comes to its end

  /** How many steps a worker has before it at most, until it claims again. */
  function StepsLeft(bodies: Bodies, w: Worker): nat
    requires w.Busy? ==> w.at < w.end <= |bodies|
  {
    match w
    case Ready => 1
    case Done => 0
    case Busy(at, end) =>
      3 * (end - at) + if bodies[at].Some? && bodies[at].value.motion.Leaving? then 0 else 1
  }

  function AllStepsLeft(bodies: Bodies, workers: seq<Worker>): nat
    requires forall t :: 0 <= t < |workers| && workers[t].Busy? ==> workers[t].at < workers[t].end <= |bodies|
  {
    if workers == [] then 0
    else StepsLeft(bodies, workers[|workers| - 1]) + AllStepsLeft(bodies, workers[..|workers| - 1])
  }

  /** Bounds the steps of a tick that are still to come. */
  function Remaining(g: Geometry, s: State): nat
    requires Sane(g, s)
  {
    AllStepsLeft(s.bodies, s.workers) + if s.next < |s.bodies| then 4 * (|s.bodies| - s.next) else 0
  }

  lemma {:induction false} OneWorkerSteps(b: Bodies, ws: seq<Worker>, c: Bodies, vs: seq<Worker>, t: nat)
    requires |ws| == |vs| && t < |ws|
    requires forall u :: 0 <= u < |ws| && ws[u].Busy? ==> ws[u].at < ws[u].end <= |b|
    requires forall u :: 0 <= u < |vs| && vs[u].Busy? ==> vs[u].at < vs[u].end <= |c|
    requires forall u :: 0 <= u < |ws| && u != t ==> StepsLeft(b, ws[u]) == StepsLeft(c, vs[u])
    ensures AllStepsLeft(b, ws) - StepsLeft(b, ws[t]) == AllStepsLeft(c, vs) - StepsLeft(c, vs[t])
    decreases |ws|
  {
    var n := |ws| - 1;
    if t == n {
      SameSteps(b, ws[..n], c, vs[..n]);
    } else {
      OneWorkerSteps(b, ws[..n], c, vs[..n], t);
    }
  }

  lemma {:induction false} SameSteps(b: Bodies, ws: seq<Worker>, c: Bodies, vs: seq<Worker>)
    requires |ws| == |vs|
    requires forall u :: 0 <= u < |ws| && ws[u].Busy? ==> ws[u].at < ws[u].end <= |b|
    requires forall u :: 0 <= u < |vs| && vs[u].Busy? ==> vs[u].at < vs[u].end <= |c|
    requires forall u :: 0 <= u < |ws| ==> StepsLeft(b, ws[u]) == StepsLeft(c, vs[u])
    ensures AllStepsLeft(b, ws) == AllStepsLeft(c, vs)
    decreases |ws|
  {
    if ws != [] { SameSteps(b, ws[..|ws| - 1], c, vs[..|vs| - 1]); }
  }

  /** Every step of a tick brings it closer to its end. */
  lemma ClaimDecreases(g: Geometry, dt: real, start: Bodies, s: State, t: nat)
    requires TickInv(g, dt, start, s) && Enabled(s, Claim(t))
    ensures Sane(g, Do(g, dt, s, Claim(t))) && Remaining(g, Do(g, dt, s, Claim(t))) < Remaining(g, s)
  {
    StepStaysSane(g, dt, s, Claim(t));
    var u := Do(g, dt, s, Claim(t));
    hide TickInv, AllStepsLeft;
    OneWorkerSteps(s.bodies, s.workers, u.bodies, u.workers, t);
  }

  lemma ObjectStepDecreases(g: Geometry, dt: real, start: Bodies, s: State, t: nat)
    requires TickInv(g, dt, start, s) && Enabled(s, Step(t))
    ensures Sane(g, Do(g, dt, s, Step(t))) && Remaining(g, Do(g, dt, s, Step(t))) < Remaining(g, s)
  {
    StepStaysSane(g, dt, s, Step(t));
    StepOnObject(g, dt, start, s, t);
    var u, id := Do(g, dt, s, Step(t)), s.workers[t].at;
    assert Holds(s.workers[t], id);
    assert s.bodies[id] == start[id] || Halfway(g, dt, start[id], s.bodies[id]);
    StepOnObjectLeaves(g, dt, s, t);
    forall v | 0 <= v < |s.workers| && v != t ensures StepsLeft(s.bodies, s.workers[v]) == StepsLeft(u.bodies, u.workers[v]) {
      assert u.workers[v] == s.workers[v];
      if s.workers[v].Busy? { assert s.workers[v].at != id; }
    }
    hide TickInv, Do, AllStepsLeft, Finished, Halfway;
    OneWorkerSteps(s.bodies, s.workers, u.bodies, u.workers, t);
  }

  /** A step that stays at its object leaves it halfway, and it was not so before. */
  lemma StepOnObjectLeaves(g: Geometry, dt: real, s: State, t: nat)
    requires Sane(g, s) && Enabled(s, Step(t))
    ensures var u := Do(g, dt, s, Step(t)); var id := s.workers[t].at;
      && |u.bodies| == |s.bodies| && |u.workers| == |s.workers| && u.next == s.next
      && (u.workers[t] == Onward(s.workers[t])
          || (u.workers[t] == s.workers[t]
              && s.bodies[id].Some? && !s.bodies[id].value.motion.Leaving?
              && u.bodies[id].Some? && u.bodies[id].value.motion.Leaving?))
  {}

  lemma {:induction false} RunDecreases(g: Geometry, dt: real, start: Bodies, s: State, actions: seq<Action>, u: State)
    requires TickInv(g, dt, start, s) && Reaches(g, dt, s, actions, u)
    ensures Sane(g, u) && |actions| + Remaining(g, u) <= Remaining(g, s)
    decreases |actions|
  {
    if actions != [] {
      var v := Do(g, dt, s, actions[0]);
      match actions[0] {
        case Claim(t) =>
          ClaimKeepsInv(g, dt, start, s, t);
          ClaimDecreases(g, dt, start, s, t);
        case Step(t) =>
          ObjectStepKeepsInv(g, dt, start, s, t);
          ObjectStepDecreases(g, dt, start, s, t);
      }
      hide TickInv, Do, Remaining;
      RunDecreases(g, dt, start, v, actions[1..], u);
    }
  }

  lemma {:induction false} ReadyWorkers(bodies: Bodies, n: nat)
    ensures AllStepsLeft(bodies, seq(n, _ => Ready)) == n
  {
    if n > 0 {
      assert seq(n, _ => Ready)[..n - 1] == seq(n - 1, _ => Ready);
      ReadyWorkers(bodies, n - 1);
    }
  }

  /**
   * A tick of `n` threads takes at most four steps for each object and one for each thread, and as long as some thread
   * has not finished there is a step to take: every run that goes on while it can ends, with all threads finished.
   */
  lemma TickEnds(g: Geometry, dt: real, bodies: Bodies, listing: Listing, n: nat, actions: seq<Action>, u: State)
    requires Settles(g, bodies, listing) && Reaches(g, dt, Begin(bodies, listing, n), actions, u)
    ensures |actions| <= 4 * |bodies| + n
    ensures n > 0 ==> AllDone(u) || exists a :: Enabled(u, a)
  {
    var s := Begin(bodies, listing, n);
    assert TickInv(g, dt, bodies, s);
    RunKeepsInv(g, dt, bodies, s, actions, u);
    ReadyWorkers(bodies, n);
    RunDecreases(g, dt, bodies, s, actions, u);
    if t :| 0 <= t < |u.workers| && !u.workers[t].Done? {
      assert Enabled(u, if u.workers[t].Ready? then Claim(t) else Step(t));
    }
  }

  /** Whatever the number of workers and the order of their steps, when all of them are done every object has been
      integrated exactly once and points to the cell that contains it, and the grid agrees. */
  lemma TickMovesEachOnce(g: Geometry, dt: real, bodies: Bodies, listing: Listing, n: nat, actions: seq<Action>, u: State)
    requires Settles(g, bodies, listing) && Reaches(g, dt, Begin(bodies, listing, n), actions, u) && AllDone(u)
    ensures |u.bodies| == |bodies| && Settles(g, u.bodies, u.listing)
    ensures forall id :: 0 <= id < |bodies| ==>
      u.bodies[id] == if bodies[id].None? then None else Some(Moved(g, dt, bodies[id].value))
  {
    var s := Begin(bodies, listing, n);
    assert TickInv(g, dt, bodies, s);
    RunKeepsInv(g, dt, bodies, s, actions, u);
    assert u.workers[0].Done?;
    forall id: nat | id < |bodies| ensures Finished(g, dt, bodies[id], u.bodies[id]) {
      assert !Held(u, id);
    }
  }

  /** After a tick each object inside the grid is listed exactly once, by the cell that contains it; an object outside
      is listed nowhere and has a null cell pointer. */
  lemma TickLists(g: Geometry, dt: real, bodies: Bodies, listing: Listing, n: nat, actions: seq<Action>, u: State,
                  id: nat, k: nat)
    requires Settles(g, bodies, listing) && Reaches(g, dt, Begin(bodies, listing, n), actions, u) && AllDone(u)
    requires id < |bodies| && bodies[id].Some? && k < g.Size()
    ensures |u.bodies| == |bodies| && |u.listing| == g.Size() && u.bodies[id].Some?
    ensures var p := u.bodies[id].value.pos;
      && multiset(u.listing[k])[id] == (if CellContains(g, k, p.x, p.y) then 1 else 0)
      && (!InGrid(g, p.x, p.y) <==> u.bodies[id].value.cell == None)
  {
    TickMovesEachOnce(g, dt, bodies, listing, n, actions, u);
    var p := u.bodies[id].value.pos;
    CellsPartitionGrid(g, p.x, p.y, k);
    assert NoDuplicates(u.listing[k]);
    assert id in u.listing[k] <==> Lists(u.bodies, id, k);
    assert id in u.listing[k] <==> multiset(u.listing[k])[id] > 0;
  }

  // ------------------------------------------------------------------ runs of ticks and moves

  datatype World = World(bodies: Bodies, listing: Listing)

  datatype Event =
    | Tick(dt: real, workers: nat, actions: seq<Action>)
    | MoveTo(id: nat, pos: Vec)
    | SetMotion(id: nat, vel: Vec, forces: seq<Vec>)
    | Create(id: nat, body: Body)

  ghost predicate Happens(g: Geometry, w: World, e: Event, v: World) {
    match e
    case Tick(dt, n, actions) =>
      exists u: State :: Reaches(g, dt, Begin(w.bodies, w.listing, n), actions, u) && AllDone(u)
                         && v == World(u.bodies, u.listing)
    case MoveTo(id, pos) =>
      && id < |w.bodies| && w.bodies[id].Some?
      && v == w.(bodies := w.bodies[id := Some(w.bodies[id].value.(pos := pos))])
    case SetMotion(id, vel, forces) =>
      && id < |w.bodies| && w.bodies[id].Some?
      && v == w.(bodies := w.bodies[id := Some(w.bodies[id].value.(vel := vel, forces := forces))])
    case Create(id, body) =>
      && id <= |w.bodies| && (id < |w.bodies| ==> w.bodies[id].None?)
      && body.weight > 0.0 && body.cell == None && body.motion == Settled
      && v == w.(bodies := if id == |w.bodies| then w.bodies + [Some(body)] else w.bodies[id := Some(body)])
  }

  lemma HappensKeeps(g: Geometry, w: World, e: Event, v: World)
    requires Settles(g, w.bodies, w.listing) && Happens(g, w, e, v)
    ensures Settles(g, v.bodies, v.listing)
  {
    match e
    case Tick(dt, n, actions) =>
      var u: State :| Reaches(g, dt, Begin(w.bodies, w.listing, n), actions, u) && AllDone(u)
                      && v == World(u.bodies, u.listing);
      TickMovesEachOnce(g, dt, w.bodies, w.listing, n, actions, u);
    case MoveTo(id, pos) => SameAgrees(g, w.bodies, w.listing, id, v.bodies[id].value);
    case SetMotion(id, vel, forces) => SameAgrees(g, w.bodies, w.listing, id, v.bodies[id].value);
    case Create(id, body) =>
      forall k, i: nat | 0 <= k < |w.listing| ensures i in v.listing[k] <==> Lists(v.bodies, i, k) {
        assert i in w.listing[k] <==> Lists(w.bodies, i, k);
      }
  }

  ghost predicate History(g: Geometry, worlds: seq<World>, events: seq<Event>) {
    && |worlds| == |events| + 1
    && forall i :: 0 <= i < |events| ==> Happens(g, worlds[i], events[i], worlds[i + 1])
  }

  /** Over any run of ticks, moves and creations from an empty world the grid never disagrees with the objects. */
  lemma {:induction false} HistorySettles(g: Geometry, worlds: seq<World>, events: seq<Event>, i: nat)
    requires g.Valid() && History(g, worlds, events) && i <= |events|
    requires worlds[0] == World([], seq(g.Size(), _ => []))
    ensures Settles(g, worlds[i].bodies, worlds[i].listing)
  {
    if i > 0 {
      HistorySettles(g, worlds, events, i - 1);
      HappensKeeps(g, worlds[i - 1], events[i - 1], worlds[i]);
    }
  }

  /** So right after any tick of such a run, every object is in exactly the cell that contains it. */
  lemma EveryTickLists(g: Geometry, worlds: seq<World>, events: seq<Event>, i: nat, id: nat, k: nat)
    requires g.Valid() && History(g, worlds, events) && i < |events| && events[i].Tick?
    requires worlds[0] == World([], seq(g.Size(), _ => []))
    requires id < |worlds[i].bodies| && worlds[i].bodies[id].Some? && k < g.Size()
    ensures |worlds[i + 1].listing| == g.Size() && id < |worlds[i + 1].bodies| && worlds[i + 1].bodies[id].Some?
    ensures var p := worlds[i + 1].bodies[id].value.pos;
      multiset(worlds[i + 1].listing[k])[id] == (if CellContains(g, k, p.x, p.y) then 1 else 0)
  {
    HistorySettles(g, worlds, events, i);
    var w, v, e := worlds[i], worlds[i + 1], events[i];
    assert Happens(g, w, e, v);
    var u: State :| Reaches(g, e.dt, Begin(w.bodies, w.listing, e.workers), e.actions, u) && AllDone(u)
                    && v == World(u.bodies, u.listing);
    TickLists(g, e.dt, w.bodies, w.listing, e.workers, e.actions, u, id, k);
  }
}
