/** The master's side of a conveyor: which logics run in a cycle, with which stages and which intervals.
    The rounds it produces are the ones that ConveyorBarrier.dfy carries out on all threads. */
module ConveyorChain {
  const INTERVAL_RANGE := 0x1_0000_0000

  datatype Logic = Logic(id: nat, stages: nat, cooldown: nat)

  datatype Context = Context(logic: Logic, quietUntil: nat, lastProceedAt: nat)

  /** One call of a logic on every thread. */
  datatype Round = Round(logic: nat, stage: nat, interval: nat, now: nat)

  predicate Selects(c: Context, time: nat) { c.quietUntil <= time }

  function NextContext(c: Context, time: nat): Context {
    if Selects(c, time) then c.(quietUntil := c.quietUntil + c.logic.cooldown, lastProceedAt := time) else c
  }

  /** The time since the logic ran last, cut to 32 bits. */
  function LastInterval(c: Context, time: nat): nat
    requires c.lastProceedAt <= time
  {
    (time - c.lastProceedAt) % INTERVAL_RANGE
  }

  predicate HasStage(rounds: seq<Round>, stage: nat) { exists k :: 0 <= k < |rounds| && rounds[k].stage == stage }

  /** The rounds of one logic: its ready stages below `stages`, in order, all with the same interval. */
  function StageRounds(c: Context, stages: nat, time: nat, ready: (nat, nat) -> bool): seq<Round>
    requires c.lastProceedAt <= time
  {
    if stages == 0 then []
    else
      StageRounds(c, stages - 1, time, ready) +
      if ready(c.logic.id, stages - 1)
      then [Round(c.logic.id, stages - 1, LastInterval(c, time), time)] else []
  }

  function ContextRounds(c: Context, time: nat, ready: (nat, nat) -> bool): seq<Round>
    requires c.lastProceedAt <= time
  {
    if Selects(c, time) then StageRounds(c, c.logic.stages, time, ready) else []
  }

  function ChainRounds(chain: seq<Context>, time: nat, ready: (nat, nat) -> bool): seq<Round>
    requires forall i :: 0 <= i < |chain| ==> chain[i].lastProceedAt <= time
  {
    if chain == [] then []
    else ChainRounds(chain[..|chain| - 1], time, ready) + ContextRounds(chain[|chain| - 1], time, ready)
  }

  /** Round `r` is one that entry `i` of the chain asks for: the entry is not to be left alone any more, the stage is one of
      its logic's and is ready, and the interval is the time since the logic ran last. */
  predicate AskedBy(chain: seq<Context>, time: nat, ready: (nat, nat) -> bool, i: nat, r: Round)
    requires i < |chain| && chain[i].lastProceedAt <= time
  {
    && chain[i].quietUntil <= time
    && r.logic == chain[i].logic.id && r.stage < chain[i].logic.stages && ready(r.logic, r.stage)
    && r.interval == (time - chain[i].lastProceedAt) % INTERVAL_RANGE && r.now == time
  }

  predicate InPast(chain: seq<Context>, time: nat) { forall i :: 0 <= i < |chain| ==> chain[i].lastProceedAt <= time }

  /**
   * The rounds are exactly those that the chain asks for; `owner` tells which entry asked for each of them. They come in
   * the order of the chain and, within one entry, of the stages, so each is there once.
   */
  ghost predicate Asked(
    chain: seq<Context>, time: nat, ready: (nat, nat) -> bool, rounds: seq<Round>, owner: seq<nat>)
    requires InPast(chain, time)
  {
    && |owner| == |rounds|
    && (forall k :: 0 <= k < |rounds| ==> owner[k] < |chain| && AskedBy(chain, time, ready, owner[k], rounds[k]))
    && (forall j, k :: 0 <= j < k < |rounds| ==>
          owner[j] < owner[k] || (owner[j] == owner[k] && rounds[j].stage < rounds[k].stage))
    && (forall i: nat, stage: nat :: i < |chain| && Due(chain[i], time, ready, stage) ==> HasRound(rounds, owner, i, stage))
  }

  predicate Due(c: Context, time: nat, ready: (nat, nat) -> bool, stage: nat) {
    c.quietUntil <= time && stage < c.logic.stages && ready(c.logic.id, stage)
  }

  ghost predicate HasRound(rounds: seq<Round>, owner: seq<nat>, i: nat, stage: nat) {
    exists k :: 0 <= k < |rounds| && k < |owner| && owner[k] == i && rounds[k].stage == stage
  }

  lemma NextContextIs(c: Context, time: nat)
    ensures NextContext(c, time) ==
      if time < c.quietUntil then c else Context(c.logic, c.quietUntil + c.logic.cooldown, time)
  {}

  lemma NothingAsked(time: nat, ready: (nat, nat) -> bool)
    ensures ChainRounds([], time, ready) == []
  {}

  lemma ChainOneMore(chain: seq<Context>, i: nat, time: nat, ready: (nat, nat) -> bool)
    requires InPast(chain, time) && i < |chain|
    ensures ChainRounds(chain[..i + 1], time, ready) == ChainRounds(chain[..i], time, ready) +
      if chain[i].quietUntil <= time then StageRounds(chain[i], chain[i].logic.stages, time, ready) else []
  {
    assert chain[..i + 1][..i] == chain[..i];
    hide StageRounds;
  }

  class Conveyor {
    var chain: seq<Context>
    var now: nat
    var currentTime: nat

    ghost predicate Valid()
      reads this
    {
      now == currentTime && forall i :: 0 <= i < |chain| ==> chain[i].lastProceedAt <= currentTime
    }

    constructor ()
      ensures Valid() && chain == [] && now == 0
    {
      chain, now, currentTime := [], 0, 0;
    }

    method AddLogicToChain(logic: Logic)
      requires Valid()
      modifies this`chain
      ensures Valid() && chain == old(chain) + [Context(logic, 0, now)]
    {
      chain := chain + [Context(logic, 0, currentTime)];
    }

    /** The stages of one logic: each that is ready makes a round on all threads. */
    method ProceedStages(context: Context, ready: (nat, nat) -> bool) returns (rounds: seq<Round>)
      requires now == currentTime && context.lastProceedAt <= now
      ensures rounds == StageRounds(context, context.logic.stages, now, ready)
    {
      var lastInterval := currentTime - context.lastProceedAt;
      rounds := [];
      var stage := 0;
      while stage < context.logic.stages
        invariant 0 <= stage <= context.logic.stages
        invariant rounds == StageRounds(context, stage, now, ready)
      {
        if ready(context.logic.id, stage) {
          rounds := rounds + [Round(context.logic.id, stage, lastInterval % INTERVAL_RANGE, now)];
        }
        stage := stage + 1;
      }
    }

    /** One cycle. `ready` says which stages' preparation succeeds. */
    method Proceed(interval: nat, ready: (nat, nat) -> bool) returns (rounds: seq<Round>)
      requires Valid()
      modifies this
      ensures Valid() && now == old(now) + interval && |chain| == |old(chain)|
      ensures forall i :: 0 <= i < |chain| ==> chain[i] == NextContext(old(chain)[i], now)
      ensures forall i :: 0 <= i < |old(chain)| ==> old(chain)[i].lastProceedAt <= now
      ensures rounds == ChainRounds(old(chain), now, ready)
      ensures exists owner :: Asked(old(chain), now, ready, rounds, owner)
    {
      now := now + interval;
      currentTime := currentTime + interval;
      rounds := [];
      ghost var time := now;
      hide Asked, StageRounds, ChainRounds, NextContext, Selects;
      ghost var before := chain;
      assert before[..0] == [];
      NothingAsked(time, ready);
      var i := 0;
      while i < |chain|
        invariant 0 <= i <= |chain| == |before|
        invariant now == currentTime == time
        invariant InPast(before, time)
        invariant forall k :: 0 <= k < i ==> chain[k] == NextContext(before[k], time)
        invariant forall k :: i <= k < |before| ==> chain[k] == before[k]
        invariant rounds == ChainRounds(before[..i], time, ready)
      {
        ChainOneMore(before, i, time, ready);
        var context := chain[i];
        assert context == before[i] && context.lastProceedAt <= time;
        NextContextIs(context, time);
        hide InPast;
        if context.quietUntil <= currentTime {
          var stages := ProceedStages(context, ready);
          rounds := rounds + stages;
          chain := chain[i := Context(context.logic, context.quietUntil + context.logic.cooldown, currentTime)];
        }
        i := i + 1;
      }
      assert before[..i] == before;
      ghost var owner := RoundsAreAsked(before, time, ready);
    }
  }

  // ------------------------------------------------------------------ which rounds a cycle has

  lemma {:induction false} StageRoundsExact(c: Context, stages: nat, time: nat, ready: (nat, nat) -> bool)
    requires c.lastProceedAt <= time
    ensures var rs := StageRounds(c, stages, time, ready);
      && (forall k :: 0 <= k < |rs| ==>
            && rs[k].logic == c.logic.id && rs[k].now == time && rs[k].stage < stages && ready(c.logic.id, rs[k].stage)
            && rs[k].interval == LastInterval(c, time))
      && (forall j, k :: 0 <= j < k < |rs| ==> rs[j].stage < rs[k].stage)
      && (forall stage: nat :: stage < stages && ready(c.logic.id, stage) ==> HasStage(rs, stage))
  {
    hide LastInterval;
    if stages > 0 {
      StageRoundsExact(c, stages - 1, time, ready);
      var a := StageRounds(c, stages - 1, time, ready);
      var rs := StageRounds(c, stages, time, ready);
      forall stage: nat | stage < stages && ready(c.logic.id, stage) ensures HasStage(rs, stage) {
        if stage < stages - 1 {
          var k :| 0 <= k < |a| && a[k].stage == stage;
          assert rs[k].stage == stage;
        } else {
          assert rs[|a|].stage == stage;
        }
      }
    }
  }

  /** The rounds of one entry, which is the last one of the chain. */
  ghost predicate AskedByLast(chain: seq<Context>, time: nat, ready: (nat, nat) -> bool, rounds: seq<Round>)
    requires chain != [] && InPast(chain, time)
  {
    && (forall k :: 0 <= k < |rounds| ==> AskedBy(chain, time, ready, |chain| - 1, rounds[k]))
    && (forall j, k :: 0 <= j < k < |rounds| ==> rounds[j].stage < rounds[k].stage)
    && (forall stage: nat :: Due(chain[|chain| - 1], time, ready, stage) ==> HasStage(rounds, stage))
  }

  lemma ContextIsAsked(chain: seq<Context>, time: nat, ready: (nat, nat) -> bool)
    requires chain != [] && InPast(chain, time)
    ensures AskedByLast(chain, time, ready, ContextRounds(chain[|chain| - 1], time, ready))
  {
    var c := chain[|chain| - 1];
    var rounds := ContextRounds(c, time, ready);
    StageRoundsExact(c, c.logic.stages, time, ready);
    hide StageRounds, HasStage;
    forall k | 0 <= k < |rounds| ensures AskedBy(chain, time, ready, |chain| - 1, rounds[k]) {
      assert rounds[k] == StageRounds(c, c.logic.stages, time, ready)[k];
    }
    forall stage: nat | Due(c, time, ready, stage) ensures HasStage(rounds, stage) {}
  }

  lemma AskedAppend(chain: seq<Context>, time: nat, ready: (nat, nat) -> bool,
                    a: seq<Round>, owner: seq<nat>, b: seq<Round>, all: seq<nat>)
    requires chain != [] && InPast(chain, time) && Asked(chain[..|chain| - 1], time, ready, a, owner)
    requires AskedByLast(chain, time, ready, b) && all == owner + seq(|b|, _ => |chain| - 1)
    ensures Asked(chain, time, ready, a + b, all)
  {
    var n := |chain| - 1;
    var rounds := a + b;
    hide Due;
    forall k | 0 <= k < |rounds| ensures all[k] < |chain| && AskedBy(chain, time, ready, all[k], rounds[k]) {
      if k < |a| { assert AskedBy(chain[..n], time, ready, owner[k], a[k]); }
    }
    hide AskedBy;
    forall i: nat, stage: nat | i < |chain| && Due(chain[i], time, ready, stage) ensures HasRound(rounds, all, i, stage) {
      if i < n {
        assert chain[..n][i] == chain[i] && HasRound(a, owner, i, stage);
        var k :| 0 <= k < |a| && owner[k] == i && a[k].stage == stage;
        assert all[k] == i && rounds[k].stage == stage;
      } else {
        assert Due(chain[|chain| - 1], time, ready, stage) && HasStage(b, stage);
        var k :| 0 <= k < |b| && b[k].stage == stage;
        assert rounds[|a| + k] == b[k] && all[|a| + k] == n;
      }
    }
  }

  /** A cycle has every ready stage of every selected logic, once, in order, and nothing else. */
  lemma {:induction false} RoundsAreAsked(chain: seq<Context>, time: nat, ready: (nat, nat) -> bool)
    returns (owner: seq<nat>)
    requires InPast(chain, time)
    ensures Asked(chain, time, ready, ChainRounds(chain, time, ready), owner)
    decreases |chain|
  {
    if chain == [] {
      owner := [];
    } else {
      var n := |chain| - 1;
      var first := RoundsAreAsked(chain[..n], time, ready);
      var b := ContextRounds(chain[n], time, ready);
      owner := first + seq(|b|, _ => n);
      ContextIsAsked(chain, time, ready);
      hide ContextRounds, AskedByLast, Asked;
      AskedAppend(chain, time, ready, ChainRounds(chain[..n], time, ready), first, b, owner);
    }
  }

  // ------------------------------------------------------------------ a logic over many cycles

  /** The context after cycles that end at the given times. */
  function After(c: Context, times: seq<nat>): Context {
    if times == [] then c else NextContext(After(c, times[..|times| - 1]), times[|times| - 1])
  }

  /** The intervals handed to the logic, added up, before they are cut to 32 bits. */
  function Handed(c: Context, times: seq<nat>): int {
    if times == [] then 0
    else
      var d := After(c, times[..|times| - 1]);
      Handed(c, times[..|times| - 1]) +
      if Selects(d, times[|times| - 1]) then times[|times| - 1] - d.lastProceedAt else 0
  }

  function Selections(c: Context, times: seq<nat>): nat {
    if times == [] then 0
    else Selections(c, times[..|times| - 1]) +
         if Selects(After(c, times[..|times| - 1]), times[|times| - 1]) then 1 else 0
  }

  predicate Forward(c: Context, times: seq<nat>) {
    forall i, j :: 0 <= i <= j < |times| ==> c.lastProceedAt <= times[i] <= times[j]
  }

  /** No game time is lost or counted twice: what a logic is handed is the time since it was added, up to the last
      cycle it ran in. */
  lemma {:induction false} TimeIsConserved(c: Context, times: seq<nat>)
    requires Forward(c, times)
    ensures c.lastProceedAt + Handed(c, times) == After(c, times).lastProceedAt
    ensures Selections(c, times) > 0 ==> After(c, times).lastProceedAt in times
    ensures |times| > 0 ==> After(c, times).lastProceedAt <= times[|times| - 1]
    decreases |times|
  {
    if times != [] { TimeIsConserved(c, times[..|times| - 1]); }
  }

  /** Over any run a logic that is selected k times has been selected no sooner than k - 1 cooldowns allow. */
  lemma {:induction false} RateIsBounded(c: Context, times: seq<nat>)
    requires Forward(c, times)
    ensures After(c, times).logic == c.logic
    ensures After(c, times).quietUntil == c.quietUntil + Selections(c, times) * c.logic.cooldown
    ensures Selections(c, times) > 0 ==>
      c.quietUntil + (Selections(c, times) - 1) * c.logic.cooldown <= After(c, times).lastProceedAt
    decreases |times|
  {
    if times != [] {
      var prior := times[..|times| - 1];
      RateIsBounded(c, prior);
      OneMore(Selections(c, prior), c.logic.cooldown);
      assert Selections(c, times) == Selections(c, prior) || Selections(c, times) - 1 == Selections(c, prior);
    }
  }

  lemma OneMore(k: nat, cooldown: nat)
    ensures (k + 1) * cooldown == k * cooldown + cooldown
  {}

  /** The interface promises that a logic is left alone for its cooldown after it has run. That is so, whatever the next
      cycle's time, exactly when the cycle came right at the moment until which the logic was to be left alone; a logic
      that is behind its schedule is run again at once. */
  lemma CooldownHolds(c: Context, time: nat)
    requires Selects(c, time) && c.logic.cooldown > 0
    ensures (forall next: nat :: time <= next && Selects(NextContext(c, time), next) ==> time + c.logic.cooldown <= next)
            <==> c.quietUntil == time
  {
    if c.quietUntil < time {
      var next := time + c.logic.cooldown - 1;
      assert time <= next && Selects(NextContext(c, time), next);
    }
  }

  /** A logic with the default cooldown of 10 ms, added one second into the game, runs in two cycles 1 us apart. */
  lemma LateLogicRunsTwice()
    ensures var c := Context(Logic(0, 1, 10000), 0, 1000000);
      Selects(c, 1000000) && Selects(NextContext(c, 1000000), 1000001)
  {}
}
