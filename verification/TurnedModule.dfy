/** Engines whose thrust is changed twice before their messages are handled: what the manager makes of them. */
module TurnedModule {
  import IdArrays
  import opened ModulesManager
  import opened ReusedModule
  import W = WorkSharing

  /* A running engine gets thrust zero, and then some thrust. */

  const STOPPED_AND_STARTED: Inbox := _ => [Stop(false), Start(false)]

  const RESTARTING: Roster := Roster([Activating], [0], 1, [0])
  const TWICE: Roster := Roster([Active], [0, 0], 2, [0])
  const TWICE_0: Roster := Roster([Active], [0, 0], 2, [])
  const TWICE_1: Roster := Roster([Active], [0, 0], 2, [0])
  const TWICE_2: Roster := Roster([Active], [0, 0], 2, [0, 0])

  lemma RestartIsServed()
    ensures ServeAll(Active, [Stop(false), Start(false)]) == Activating && ServeAll(Active, []) == Active
  {
    var requests := [Stop(false), Start(false)];
    assert requests[..1] == [Stop(false)] && [Stop(false)][..0] == [];
    assert ServeAll(Active, [Stop(false)]) == Deactivating;
  }

  lemma StepsOfRestart()
    ensures HandleStep(CALLED, W.Ready, []) == CALLED
    ensures HandleStep(CALLED, W.Busy(0), [Stop(false), Start(false)]) == RESTARTING
    ensures HandleStep(RESTARTING, W.Checked(0), [Stop(false), Start(false)]) == TWICE
    ensures HandleStep(TWICE, W.Ready, []) == TWICE
    ensures Waiting(W.Ready, STOPPED_AND_STARTED) == []
    ensures Waiting(W.Busy(0), STOPPED_AND_STARTED) == [Stop(false), Start(false)]
    ensures Waiting(W.Checked(0), STOPPED_AND_STARTED) == [Stop(false), Start(false)]
  {
    RestartIsServed();
    hide ServeAll;
    assert [Active][0 := Activating] == [Activating] && [Activating][0 := Active] == [Active] && [0] + [0] == [0, 0];
  }

  lemma RestartIsHandled()
    ensures HandlingStage(CALLED, 1, STOPPED_AND_STARTED, [0, 0, 0, 0], TWICE)
  {
    Begins(1, 1);
    OneItem();
    StepsOfRestart();
    FourSteps();
    assert CALLED.modules[0] == Active;
    hide W.Inv, HandleStep, Waiting, W.Advance, W.Begun, STOPPED_AND_STARTED;
    HandlingStep(CALLED, S0, STOPPED_AND_STARTED, [0] + ([0] + ([0] + [])), CALLED, S1);
    HandlingStep(CALLED, S1, STOPPED_AND_STARTED, [0] + ([0] + []), RESTARTING, S2);
    HandlingStep(RESTARTING, S2, STOPPED_AND_STARTED, [0] + [], TWICE, S3);
    HandlingStep(TWICE, S3, STOPPED_AND_STARTED, [], TWICE, S4);
  }

  /* One worker takes two items. */
  const D3 := W.Sharing(2, [W.Busy(1)], [0])
  const D4 := W.Sharing(2, [W.Checked(1)], [0, 1])
  const D5 := W.Sharing(2, [W.Ready], [0, 1])
  const D6 := W.Sharing(3, [W.Finished], [0, 1])

  lemma TwoItems()
    ensures W.Begun(1) == S0 && W.Advance(S0, 0, 2) == S1 && W.Advance(S1, 0, 2) == S2 && W.Advance(S2, 0, 2) == S3
    ensures W.Advance(S3, 0, 2) == D3 && W.Advance(D3, 0, 2) == D4 && W.Advance(D4, 0, 2) == D5
    ensures W.Advance(D5, 0, 2) == D6 && W.Done(D6)
  {}

  lemma StepsOfTwoCalls()
    ensures ProceedStep(TWICE_0, W.Ready, false) == TWICE_0 && ProceedStep(TWICE_0, W.Busy(0), false) == TWICE_1
    ensures ProceedStep(TWICE_1, W.Checked(0), false) == TWICE_1 && ProceedStep(TWICE_1, W.Ready, false) == TWICE_1
    ensures ProceedStep(TWICE_1, W.Busy(1), false) == TWICE_2 && ProceedStep(TWICE_2, W.Checked(1), false) == TWICE_2
    ensures ProceedStep(TWICE_2, W.Ready, false) == TWICE_2
    ensures forall worker, listed :: !Verdict(worker, GOES_ON, listed)
  {
    assert [Active][0 := Active] == [Active] && [] + [0] == [0] && [0] + [0] == [0, 0];
  }

  lemma TwiceIsCounted()
    ensures Counted(TWICE) && Cleared(TWICE.ids, [0, 0]) && NoneActivating(TWICE)
  {
    IdArrays.PushCounts([], 0);
    IdArrays.PushCounts([0], 0);
    assert [] + [0] == [0] && [0] + [0] == [0, 0];
  }

  lemma SevenSteps()
    ensures [0] + ([0] + ([0] + [0, 0, 0, 0])) == [0, 0, 0, 0, 0, 0, 0]
  {}

  lemma FirstEntryIsProceeded()
    ensures Placed(TWICE_0, W.Begun(1), [0, 0]) && Placed(TWICE_1, S3, [0, 0])
    ensures RunProceeding(TWICE_0, W.Begun(1), GOES_ON, [0, 0, 0, 0, 0, 0, 0], [0, 0]) ==
      RunProceeding(TWICE_1, S3, GOES_ON, [0, 0, 0, 0], [0, 0])
  {
    TwiceIsCounted();
    ProceedingBegins(TWICE, [0, 0], 1, GOES_ON);
    assert TWICE.(ids := [0, 0], proceeded := []) == TWICE_0;
    TwoItems();
    StepsOfTwoCalls();
    SevenSteps();
    hide Counted, Cleared, Placed, ProceedingInv, ProceedStep, RunProceeding, Verdict, W.Advance, W.Begun, GOES_ON;
    ProceedingStep(TWICE_0, S0, GOES_ON, [0] + ([0] + [0, 0, 0, 0]), [0, 0], TWICE_0, S1);
    ProceedingStep(TWICE_0, S1, GOES_ON, [0] + [0, 0, 0, 0], [0, 0], TWICE_1, S2);
    ProceedingStep(TWICE_1, S2, GOES_ON, [0, 0, 0, 0], [0, 0], TWICE_1, S3);
  }

  lemma SecondEntryIsProceeded()
    requires Placed(TWICE_1, S3, [0, 0])
    ensures RunProceeding(TWICE_1, S3, GOES_ON, [0, 0, 0, 0], [0, 0]) == (TWICE_2, D6)
  {
    TwoItems();
    StepsOfTwoCalls();
    FourSteps();
    hide Placed, ProceedStep, Verdict, W.Advance, W.Begun, GOES_ON;
    ProceedingStep(TWICE_1, S3, GOES_ON, [0] + ([0] + ([0] + [])), [0, 0], TWICE_1, D3);
    ProceedingStep(TWICE_1, D3, GOES_ON, [0] + ([0] + []), [0, 0], TWICE_2, D4);
    ProceedingStep(TWICE_2, D4, GOES_ON, [0] + [], [0, 0], TWICE_2, D5);
    ProceedingStep(TWICE_2, D5, GOES_ON, [], [0, 0], TWICE_2, D6);
  }

  lemma BothEntriesAreProceeded()
    ensures ProceedingStage(TWICE, 1, [0, 0], GOES_ON, [0, 0, 0, 0, 0, 0, 0], TWICE_2)
  {
    TwiceIsCounted();
    FirstEntryIsProceeded();
    SecondEntryIsProceeded();
    TwoItems();
    hide Counted, Cleared, Placed, RunProceeding;
    assert TWICE.(ids := [0, 0], proceeded := []) == TWICE_0;
  }

  const RESTART_CYCLE :=
    Cycle(1, STOPPED_AND_STARTED, [0, 0, 0, 0], TWICE, [0, 0], GOES_ON, [0, 0, 0, 0, 0, 0, 0])

  /** From an empty container: an engine is created and started in a cycle, then stopped and started again before the
      next one, which lists it twice and proceeds it twice. */
  lemma RestartListsTwice()
    ensures Happens(Roster([], [], 0, []), Create(0, false), NEW) && Happens(NEW, Turn(ONE_CYCLE), CALLED)
    ensures Listing(CALLED) && Turned(CALLED.modules[0], RESTART_CYCLE.inbox(0))
    ensures Happens(CALLED, Turn(RESTART_CYCLE), TWICE_2)
    ensures Times(TWICE, 0) == 2 && multiset(TWICE_2.proceeded)[0] == 2 && !Listing(TWICE_2)
  {
    ReusedIdIsListedTwice();
    RestartIsHandled();
    BothEntriesAreProceeded();
    StartedIsListed();
    assert forall id :: Times(CALLED, id) == Times(STARTED, id);
    RestartTurns();
    hide HandlingStage, ProceedingStage;
    assert !ListedRight(TWICE_2.modules[0], Times(TWICE_2, 0));
  }

  lemma RestartTurns()
    ensures Turned(Active, [Stop(false), Start(false)])
  {
    assert [Stop(false), Start(false)][0].Stop?;
  }

  /** With two threads both of them are at work on that engine at the same time. */
  lemma TwoThreadsAtOnce()
    ensures Placed(TWICE_0, W.Begun(2), [0, 0])
    ensures RunProceeding(TWICE_0, W.Begun(2), GOES_ON, [0, 1], [0, 0]).1.workers == [W.Busy(0), W.Busy(1)]
    ensures Names(W.Busy(0), [0, 0], 0) && Names(W.Busy(1), [0, 0], 0)
  {
    TwiceIsCounted();
    ProceedingBegins(TWICE, [0, 0], 2, GOES_ON);
    assert TWICE.(ids := [0, 0], proceeded := []) == TWICE_0;
    var s, t := W.Begun(2), W.Advance(W.Begun(2), 0, 2);
    assert [0, 1][1..] == [1] && [1][1..] == [];
    ProceedStepKeepsPlaced(TWICE_0, s, 0, false, [0, 0]);
    ProceedStepKeepsPlaced(TWICE_0, t, 1, false, [0, 0]);
    hide Placed, Counted, ProceedingInv;
    assert W.Advance(t, 1, 2).workers == [W.Busy(0), W.Busy(1)];
  }

  /** When that engine's time is over it becomes idle in whatever cycle comes next, and stays listed all the same. */
  lemma StoppedButListed(c: Cycle, q: Roster)
    requires Cycled(TWICE_2, c, q) && c.inbox(0) == [] && c.verdicts(0)
    ensures q.modules[0] == Idle && Times(q, 0) == 1
  {
    TwiceIsCounted();
    assert forall id :: Times(TWICE_2, id) == Times(TWICE, id);
    CycleOutcome(TWICE_2, c, q, 0);
  }

  /* An idle engine gets some thrust, and then thrust zero. */

  const STARTED_AND_STOPPED: Inbox := _ => [Start(false), Stop(false)]

  const STOPPING: Roster := Roster([Deactivating], [], 0, [])

  lemma StopIsServed()
    ensures ServeAll(Idle, [Start(false), Stop(false)]) == Deactivating
    ensures Turned(Idle, [Start(false), Stop(false)])
  {
    var requests := [Start(false), Stop(false)];
    assert requests[..1] == [Start(false)] && [Start(false)][..0] == [] && requests[0].Start?;
    assert ServeAll(Idle, [Start(false)]) == Activating;
  }

  lemma StepsOfStop()
    ensures HandleStep(NEW, W.Ready, []) == NEW
    ensures HandleStep(NEW, W.Busy(0), [Start(false), Stop(false)]) == STOPPING
    ensures HandleStep(STOPPING, W.Checked(0), [Start(false), Stop(false)]) == STOPPING
    ensures HandleStep(STOPPING, W.Ready, []) == STOPPING
    ensures Waiting(W.Ready, STARTED_AND_STOPPED) == []
    ensures Waiting(W.Busy(0), STARTED_AND_STOPPED) == [Start(false), Stop(false)]
    ensures Waiting(W.Checked(0), STARTED_AND_STOPPED) == [Start(false), Stop(false)]
  {
    StopIsServed();
    hide ServeAll;
    assert [Idle][0 := Deactivating] == [Deactivating];
  }

  const STOP_CYCLE := Cycle(1, STARTED_AND_STOPPED, [0, 0, 0, 0], STOPPING, [], GOES_ON, [])

  /** The cycle leaves the new engine stopping and not listed. */
  lemma StopIsNeverFinished()
    ensures Happens(Roster([], [], 0, []), Create(0, false), NEW) && Listing(NEW)
    ensures Turned(NEW.modules[0], STOP_CYCLE.inbox(0))
    ensures Happens(NEW, Turn(STOP_CYCLE), STOPPING)
    ensures STOPPING.modules[0] == Deactivating && Times(STOPPING, 0) == 0 && !Listing(STOPPING)
  {
    ReusedIdIsListedTwice();
    StopIsHandled();
    StopIsServed();
    assert Cleared(STOPPING.ids, []) && STOPPING.(ids := [], proceeded := []) == STOPPING;
    assert ProceedingStage(STOPPING, 1, [], GOES_ON, [], STOPPING);
    hide HandlingStage, ProceedingStage;
    assert !ListedRight(STOPPING.modules[0], Times(STOPPING, 0));
  }

  /** Nothing ends that transition as long as no message comes. */
  lemma StopStaysUnfinished(c: Cycle, q: Roster)
    requires Cycled(STOPPING, c, q) && c.inbox(0) == []
    ensures q.modules == STOPPING.modules && Times(q, 0) == 0 && multiset(q.proceeded)[0] == 0
  {
    assert ServeAll(Deactivating, []) == Deactivating;
    CycleOutcome(STOPPING, c, q, 0);
  }

  lemma StopIsHandled()
    ensures HandlingStage(NEW, 1, STARTED_AND_STOPPED, [0, 0, 0, 0], STOPPING)
  {
    Begins(1, 1);
    OneItem();
    StepsOfStop();
    FourSteps();
    assert NEW.modules[0] == Idle;
    hide W.Inv, HandleStep, Waiting, W.Advance, W.Begun, STARTED_AND_STOPPED;
    HandlingStep(NEW, S0, STARTED_AND_STOPPED, [0] + ([0] + ([0] + [])), NEW, S1);
    HandlingStep(NEW, S1, STARTED_AND_STOPPED, [0] + ([0] + []), STOPPING, S2);
    HandlingStep(STOPPING, S2, STARTED_AND_STOPPED, [0] + [], STOPPING, S3);
    HandlingStep(STOPPING, S3, STARTED_AND_STOPPED, [], STOPPING, S4);
  }

  /* A scanner loses its last session, and gets a new one. */

  /** One start is enough when a closed session has stopped the module between two cycles. */
  lemma StartAfterClose(r: Roster, c: Cycle, q: Roster)
    requires Happens(CALLED, Close(0), r) && Cycled(r, c, q) && c.inbox(0) == [Start(false)]
    ensures Listing(r) && Times(c.mid, 0) == 2 && multiset(q.proceeded)[0] == 2 && !Listing(q)
  {
    StartedIsListed();
    assert forall id :: Times(CALLED, id) == Times(STARTED, id);
    CloseKeepsListing(CALLED, 0, r);
    assert Turned(r.modules[0], c.inbox(0));
    TurnedOutcome(r, c, q, 0);
    CycleIsExact(r, c, q);
  }
}
