/** What the master's choice of rounds becomes on all threads: ConveyorChain's rounds through ConveyorBarrier's barrier. */
module ConveyorRun {
  import B = ConveyorBarrier
  import C = ConveyorChain

  /** What the master has written to the shared record when it comes to the barrier for a round. */
  function ToShared(r: C.Round): B.Shared { B.Shared(B.Selected.Logic(r.logic), r.stage, r.interval, r.now) }

  function AllShared(rounds: seq<C.Round>): seq<B.Shared> { seq(|rounds|, i requires 0 <= i < |rounds| => ToShared(rounds[i])) }

  /** The master comes to the first wait for its `k`-th round. */
  predicate Announcing(s: B.State, a: B.Action) {
    a == B.Arrive(0) && |s.threads| > 0 && s.threads[0].place == B.Outside && s.mode == B.Running
  }

  /** In this run the master announces `rounds`, one after the other. */
  ghost predicate Announces(s: B.State, actions: seq<B.Action>, rounds: seq<C.Round>)
    decreases |actions|
  {
    actions == [] ||
    (&& B.Enabled(s, actions[0])
     && (Announcing(s, actions[0]) ==>
           |s.published| < |rounds| && s.shared == ToShared(rounds[|s.published|]))
     && Announces(B.Do(s, actions[0]), actions[1..], rounds))
  }

  ghost predicate Published(s: B.State, rounds: seq<C.Round>) {
    |s.published| <= |rounds| && s.published == AllShared(rounds)[..|s.published|]
  }

  lemma StepPublishes(s: B.State, a: B.Action, rounds: seq<C.Round>)
    requires |s.threads| > 0 && B.Enabled(s, a) && Published(s, rounds)
    requires Announcing(s, a) ==> |s.published| < |rounds| && s.shared == ToShared(rounds[|s.published|])
    ensures |B.Do(s, a).threads| > 0
    ensures B.Do(s, a).mode == B.Running ==> s.mode == B.Running && Published(B.Do(s, a), rounds)
  {
    var k, all := |s.published|, AllShared(rounds);
    if Announcing(s, a) { assert all[..k + 1] == all[..k] + [all[k]]; }
    hide AllShared;
  }

  lemma {:induction false} RunPublishes(s: B.State, actions: seq<B.Action>, u: B.State, rounds: seq<C.Round>)
    requires |s.threads| > 0 && B.Reaches(s, actions, u) && Announces(s, actions, rounds)
    requires s.mode == B.Running ==> Published(s, rounds)
    ensures u.mode == B.Running ==> s.mode == B.Running && Published(u, rounds)
    decreases |actions|
  {
    if actions != [] {
      if s.mode == B.Running {
        StepPublishes(s, actions[0], rounds);
      } else {
        NeverRunsAgain(s, actions[0]);
      }
      hide B.Do, B.Enabled, Published, Announcing;
      RunPublishes(B.Do(s, actions[0]), actions[1..], u, rounds);
    }
  }

  lemma NeverRunsAgain(s: B.State, a: B.Action)
    requires |s.threads| > 0 && B.Enabled(s, a) && s.mode != B.Running
    ensures |B.Do(s, a).threads| > 0 && B.Do(s, a).mode != B.Running
  {}

  /**
   * While the conveyor is not stopped, every slave has executed a prefix of the rounds that the master chose, with the
   * same logic, stage, interval and time, and is at most one round behind. When the master is outside of the barrier,
   * as it is when `proceed` returns, every slave has executed all of the rounds announced so far.
   */
  lemma SlavesRunTheChain(n: nat, actions: seq<B.Action>, u: B.State, rounds: seq<C.Round>, t: nat)
    requires n > 0 && B.Reaches(B.Start(n), actions, u) && Announces(B.Start(n), actions, rounds)
    requires u.mode == B.Running && 0 < t < n
    ensures |u.threads| == n && |u.published| <= |rounds|
    ensures var log := u.threads[t].log;
      && |log| <= |u.published| <= |log| + 1 && log == AllShared(rounds)[..|log|]
      && (u.threads[0].place == B.Outside ==> |log| == |u.published|)
  {
    B.StartInv(n);
    B.RunKeepsInv(B.Start(n), actions, u);
    B.SlaveBehind(u, t);
    RunPublishes(B.Start(n), actions, u, rounds);
    assert B.MasterFits(u) && B.SlaveFits(u, t) && B.PlaceFits(u.threads[0].place, u.cycle);
    var log, all := u.threads[t].log, AllShared(rounds);
    assert log == u.published[..|log|] == all[..|u.published|][..|log|] == all[..|log|];
    assert u.threads[0].place == B.Outside ==> u.cycle % 2 == 0 && |u.published| == u.cycle / 2;
  }

  /** And so has the master. */
  lemma MasterRunsTheChain(n: nat, actions: seq<B.Action>, u: B.State, rounds: seq<C.Round>)
    requires n > 0 && B.Reaches(B.Start(n), actions, u) && Announces(B.Start(n), actions, rounds)
    requires u.mode == B.Running
    ensures |u.threads| == n && |u.published| <= |rounds|
    ensures var log := u.threads[0].log;
      && |log| <= |u.published| <= |log| + 1 && log == AllShared(rounds)[..|log|]
      && (u.threads[0].place == B.Outside ==> |log| == |u.published|)
  {
    B.MasterFollowsItself(n, actions, u);
    RunPublishes(B.Start(n), actions, u, rounds);
    var log, all := u.threads[0].log, AllShared(rounds);
    assert log == u.published[..|log|] == all[..|u.published|][..|log|] == all[..|log|];
  }

  /** So a call of the conveyor makes every thread execute exactly the rounds that its chain asks for at that time. */
  lemma OneCall(n: nat, actions: seq<B.Action>, u: B.State, chain: seq<C.Context>, time: nat, ready: (nat, nat) -> bool, t: nat)
    requires C.InPast(chain, time)
    requires n > 0 && B.Reaches(B.Start(n), actions, u) && Announces(B.Start(n), actions, C.ChainRounds(chain, time, ready))
    requires u.mode == B.Running && u.threads != [] && u.threads[0].place == B.Outside && t < n
    requires |u.published| == |C.ChainRounds(chain, time, ready)|
    ensures |u.threads| == n && u.threads[t].log == AllShared(C.ChainRounds(chain, time, ready))
    ensures exists rounds, owner :: C.Asked(chain, time, ready, rounds, owner) && u.threads[t].log == AllShared(rounds)
  {
    var owner := C.RoundsAreAsked(chain, time, ready);
    if t == 0 {
      MasterRunsTheChain(n, actions, u, C.ChainRounds(chain, time, ready));
    } else {
      SlavesRunTheChain(n, actions, u, C.ChainRounds(chain, time, ready), t);
    }
  }
}
