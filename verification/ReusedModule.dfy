/** A module is created, started, destroyed while it is listed, and its id is given to another one. */
module ReusedModule {
  import IdArrays
  import opened ModulesManager
  import W = WorkSharing

  const NEW: Roster := Roster([Idle], [], 0, [])
  const ASKED: Roster := Roster([Activating], [], 0, [])
  const STARTED: Roster := Roster([Active], [0], 1, [])
  const CALLED: Roster := Roster([Active], [0], 1, [0])
  const DESTROYED: Roster := Roster([Absent], [0], 1, [0])
  const REUSED: Roster := Roster([Idle], [0], 1, [0])

  const START_FIRST: Inbox := _ => [Start(false)]
  const GOES_ON: Verdicts := _ => false

  /* One worker takes the only item, works on it, checks it, and finds no other. */
  const S0 := W.Sharing(0, [W.Ready], [])
  const S1 := W.Sharing(1, [W.Busy(0)], [])
  const S2 := W.Sharing(1, [W.Checked(0)], [0])
  const S3 := W.Sharing(1, [W.Ready], [0])
  const S4 := W.Sharing(2, [W.Finished], [0])

  lemma OneItem()
    ensures W.Begun(1) == S0 && W.Advance(S0, 0, 1) == S1 && W.Advance(S1, 0, 1) == S2
    ensures W.Advance(S2, 0, 1) == S3 && W.Advance(S3, 0, 1) == S4 && W.Done(S4)
  {}

  lemma HandlingStep(r: Roster, s: W.Sharing, inbox: Inbox, rest: seq<nat>, q: Roster, t: W.Sharing)
    requires W.Inv(s, |r.modules|) && W.Enabled(s, 0) && t == W.Advance(s, 0, |r.modules|)
    requires W.Holds(s.workers[0]) ==> s.workers[0].item < |r.modules|
    requires q == HandleStep(r, s.workers[0], Waiting(s.workers[0], inbox))
    ensures W.Inv(t, |q.modules|) && RunHandling(r, s, inbox, [0] + rest) == RunHandling(q, t, inbox, rest)
  {
    W.AdvanceKeepsInv(s, 0, |r.modules|);
    assert ([0] + rest)[1..] == rest;
  }

  lemma ProceedingStep(
    r: Roster, s: W.Sharing, verdicts: Verdicts, rest: seq<nat>, listed: seq<nat>, q: Roster, t: W.Sharing)
    requires Placed(r, s, listed) && W.Enabled(s, 0) && t == W.Advance(s, 0, |listed|)
    requires W.Holds(s.workers[0]) ==> s.workers[0].item < |r.ids|
    requires s.workers[0].Busy? ==> r.ids[Index(|r.ids|, s.workers[0].item)] < |r.modules|
    requires q == ProceedStep(r, s.workers[0], Verdict(s.workers[0], verdicts, listed))
    ensures Placed(q, t, listed)
    ensures RunProceeding(r, s, verdicts, [0] + rest, listed) == RunProceeding(q, t, verdicts, rest, listed)
  {
    ProceedStepKeepsPlaced(r, s, 0, Verdict(s.workers[0], verdicts, listed), listed);
    assert ([0] + rest)[1..] == rest;
  }

  lemma StartIsServed()
    ensures ServeAll(Idle, [Start(false)]) == Activating
  {
    ServeAllOutcome(Idle, [Start(false)]);
    assert [Start(false)][0].Start?;
  }

  lemma StepsOfFirstStage()
    ensures HandleStep(NEW, W.Ready, []) == NEW
    ensures HandleStep(NEW, W.Busy(0), [Start(false)]) == ASKED
    ensures HandleStep(ASKED, W.Checked(0), [Start(false)]) == STARTED
    ensures HandleStep(STARTED, W.Ready, []) == STARTED
    ensures Waiting(W.Ready, START_FIRST) == []
    ensures Waiting(W.Busy(0), START_FIRST) == [Start(false)] == Waiting(W.Checked(0), START_FIRST)
  {
    StartIsServed();
    hide ServeAll;
    assert [Idle][0 := Activating] == [Activating] && [Activating][0 := Active] == [Active] && [] + [0] == [0];
  }

  lemma FourSteps()
    ensures [0] + ([0] + ([0] + ([0] + []))) == [0, 0, 0, 0]
  {}

  lemma FirstStageRuns()
    ensures W.Inv(W.Begun(1), 1) && RunHandling(NEW, W.Begun(1), START_FIRST, [0, 0, 0, 0]) == (STARTED, S4)
  {
    Begins(1, 1);
    OneItem();
    StepsOfFirstStage();
    FourSteps();
    hide W.Inv, HandleStep, Waiting, W.Advance, W.Begun, START_FIRST;
    HandlingStep(NEW, S0, START_FIRST, [0] + ([0] + ([0] + [])), NEW, S1);
    HandlingStep(NEW, S1, START_FIRST, [0] + ([0] + []), ASKED, S2);
    HandlingStep(ASKED, S2, START_FIRST, [0] + [], STARTED, S3);
    HandlingStep(STARTED, S3, START_FIRST, [], STARTED, S4);
  }

  lemma FirstStageStarts()
    ensures HandlingStage(NEW, 1, START_FIRST, [0, 0, 0, 0], STARTED)
  {
    FirstStageRuns();
    OneItem();
    hide RunHandling;
    assert NEW.modules[0] == Idle;
  }

  lemma StartedIsListed()
    ensures Listing(STARTED) && NoneActivating(STARTED) && Cleared([0], [0])
    ensures Placed(STARTED, W.Begun(1), [0])
  {
    IdArrays.PushCounts([], 0);
    assert [] + [0] == [0];
    ProceedingBegins(STARTED, [0], 1, GOES_ON);
    assert STARTED.(ids := [0], proceeded := []) == STARTED;
  }

  lemma StepsOfSecondStage()
    ensures ProceedStep(STARTED, W.Ready, false) == STARTED
    ensures ProceedStep(STARTED, W.Busy(0), false) == CALLED
    ensures ProceedStep(CALLED, W.Checked(0), false) == CALLED && ProceedStep(CALLED, W.Ready, false) == CALLED
    ensures forall worker, listed :: !Verdict(worker, GOES_ON, listed)
  {
    assert [Active][0 := Active] == [Active] && [] + [0] == [0];
  }

  lemma SecondStageRuns()
    ensures Placed(STARTED, W.Begun(1), [0])
    ensures RunProceeding(STARTED, W.Begun(1), GOES_ON, [0, 0, 0, 0], [0]) == (CALLED, S4)
  {
    StartedIsListed();
    OneItem();
    StepsOfSecondStage();
    FourSteps();
    hide Placed, ProceedStep, Verdict, W.Advance, W.Begun, GOES_ON;
    ProceedingStep(STARTED, S0, GOES_ON, [0] + ([0] + ([0] + [])), [0], STARTED, S1);
    ProceedingStep(STARTED, S1, GOES_ON, [0] + ([0] + []), [0], CALLED, S2);
    ProceedingStep(CALLED, S2, GOES_ON, [0] + [], [0], CALLED, S3);
    ProceedingStep(CALLED, S3, GOES_ON, [], [0], CALLED, S4);
  }

  lemma SecondStageGoesOn()
    ensures ProceedingStage(STARTED, 1, [0], GOES_ON, [0, 0, 0, 0], CALLED)
  {
    StartedIsListed();
    SecondStageRuns();
    OneItem();
    hide Counted, NoneActivating, Cleared, RunProceeding, Placed;
    assert STARTED.(ids := [0], proceeded := []) == STARTED;
  }

  const ONE_CYCLE := Cycle(1, START_FIRST, [0, 0, 0, 0], STARTED, [0], GOES_ON, [0, 0, 0, 0])

  /** The whole history: the new module is idle, yet listed; and the next start lists it a second time. */
  lemma ReusedIdIsListedTwice()
    ensures Listing(NEW) && Happens(Roster([], [], 0, []), Create(0, false), NEW)
    ensures Happens(NEW, Turn(ONE_CYCLE), CALLED) && Happens(CALLED, Destroy(0), DESTROYED)
    ensures Happens(DESTROYED, Create(0, false), REUSED)
    ensures !Listing(REUSED)
    ensures Enlist(REUSED.(modules := [SwitchToActive(REUSED.modules[0])]), 0).ids == [0, 0]
  {
    FirstStageStarts();
    SecondStageGoesOn();
    hide HandlingStage, ProceedingStage;
    assert !ListedRight(REUSED.modules[0], Times(REUSED, 0));
    assert [] + [Idle] == [Idle] && [Active][0 := Absent] == [Absent] && [Absent][0 := Idle] == [Idle];
    assert [0] + [0] == [0, 0];
  }
}
