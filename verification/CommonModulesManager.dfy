/** The manager's two loops as one thread executes them; each is a run of the protocol in ModulesManager with one worker. */
module CommonModulesManager {
  import opened IA = IdArrays
  import opened ModulesManager
  import W = WorkSharing

  lemma {:induction false} RunHandlingAppend(r: Roster, s: W.Sharing, inbox: Inbox, steps: seq<nat>, w: nat)
    requires W.Inv(s, |r.modules|)
    ensures var e := RunHandling(r, s, inbox, steps);
      RunHandling(r, s, inbox, steps + [w]) ==
      if W.Enabled(e.1, w)
      then (HandleStep(e.0, e.1.workers[w], Waiting(e.1.workers[w], inbox)), W.Advance(e.1, w, |r.modules|))
      else e
    decreases steps
  {
    var all := steps + [w];
    if steps == [] {
      assert all[1..] == [];
      if W.Enabled(s, w) { W.AdvanceKeepsInv(s, w, |r.modules|); }
    } else {
      assert all[1..] == steps[1..] + [w] && all[0] == steps[0];
      if W.Enabled(s, steps[0]) {
        W.AdvanceKeepsInv(s, steps[0], |r.modules|);
        var q := HandleStep(r, s.workers[steps[0]], Waiting(s.workers[steps[0]], inbox));
        hide HandleStep, Waiting;
        RunHandlingAppend(q, W.Advance(s, steps[0], |r.modules|), inbox, steps[1..], w);
      } else {
        RunHandlingAppend(r, s, inbox, steps[1..], w);
      }
    }
  }

  lemma {:induction false} RunProceedingAppend(
    r: Roster, s: W.Sharing, verdicts: Verdicts, steps: seq<nat>, w: nat, listed: seq<nat>)
    requires Placed(r, s, listed)
    ensures var e := RunProceeding(r, s, verdicts, steps, listed);
      RunProceeding(r, s, verdicts, steps + [w], listed) ==
      if W.Enabled(e.1, w)
      then
        StepInRange(e.0, e.1, w, listed);
        (ProceedStep(e.0, e.1.workers[w], Verdict(e.1.workers[w], verdicts, listed)), W.Advance(e.1, w, |listed|))
      else e
    decreases steps
  {
    var all := steps + [w];
    if steps == [] {
      assert all[1..] == [];
      if W.Enabled(s, w) { ProceedStepKeepsPlaced(r, s, w, Verdict(s.workers[w], verdicts, listed), listed); }
    } else {
      assert all[1..] == steps[1..] + [w] && all[0] == steps[0];
      if W.Enabled(s, steps[0]) {
        var stops := Verdict(s.workers[steps[0]], verdicts, listed);
        ProceedStepKeepsPlaced(r, s, steps[0], stops, listed);
        var q := ProceedStep(r, s.workers[steps[0]], stops);
        hide Placed, ProceedStep, Verdict;
        RunProceedingAppend(q, W.Advance(s, steps[0], |listed|), verdicts, steps[1..], w, listed);
      } else {
        RunProceedingAppend(r, s, verdicts, steps[1..], w, listed);
      }
    }
  }

  /** What one turn of the first loop does: work on the claimed module, check it, and claim the next one. */
  lemma HandlingTurn(r: Roster, inbox: Inbox, steps: seq<nat>, q: Roster, s: W.Sharing, id: nat)
    requires W.Inv(W.Begun(1), |r.modules|) && RunHandling(r, W.Begun(1), inbox, steps) == (q, s)
    requires s.workers == [W.Busy(id)] && id < |r.modules|
    ensures |q.modules| == |r.modules|
    ensures RunHandling(r, W.Begun(1), inbox, steps + [0] + [0] + [0]) ==
      (Enlist(HandleStep(q, W.Busy(id), inbox(id)), id),
       W.Sharing(s.claimed + 1, [if s.claimed < |r.modules| then W.Busy(s.claimed) else W.Finished], s.log + [id]))
  {
    hide W.Inv, RunHandling, ServeAll;
    var n := |r.modules|;
    RunHandlingAppend(r, W.Begun(1), inbox, steps, 0);
    var s1 := W.Advance(s, 0, n);
    assert s1.workers == [W.Checked(id)];
    RunHandlingAppend(r, W.Begun(1), inbox, steps + [0], 0);
    var s2 := W.Advance(s1, 0, n);
    assert s2.workers == [W.Ready];
    RunHandlingAppend(r, W.Begun(1), inbox, steps + [0] + [0], 0);
    assert W.Advance(s2, 0, n).workers == [if s.claimed < n then W.Busy(s.claimed) else W.Finished];
  }

  lemma OneMoreProceeding(r: Roster, verdicts: Verdicts, steps: seq<nat>, listed: seq<nat>, q: Roster, s: W.Sharing)
    requires Placed(r, W.Begun(1), listed) && RunProceeding(r, W.Begun(1), verdicts, steps, listed) == (q, s)
    requires W.Enabled(s, 0)
    ensures |q.ids| == |listed| && (W.Holds(s.workers[0]) ==> s.workers[0].item < |listed|)
    ensures s.workers[0].Busy? ==>
      q.ids[Index(|listed|, s.workers[0].item)] == listed[Index(|listed|, s.workers[0].item)] < |q.modules|
    ensures RunProceeding(r, W.Begun(1), verdicts, steps + [0], listed) ==
      (ProceedStep(q, s.workers[0], Verdict(s.workers[0], verdicts, listed)), W.Advance(s, 0, |listed|))
  {
    StepInRange(q, s, 0, listed);
    assert |q.ids| == |listed| && Listed(q, listed);
    hide Placed, RunProceeding, ProceedStep;
    RunProceedingAppend(r, W.Begun(1), verdicts, steps, 0, listed);
  }

  /** What one turn of the second loop does: proceed the claimed module and check it; then the next one is claimed. */
  lemma ProceedingTurn(r: Roster, verdicts: Verdicts, steps: seq<nat>, listed: seq<nat>, q: Roster, s: W.Sharing, k: nat)
    requires Placed(r, W.Begun(1), listed) && RunProceeding(r, W.Begun(1), verdicts, steps, listed) == (q, s)
    requires s.workers == [W.Busy(k)]
    ensures k < |listed| == |q.ids| && q.ids[Index(|listed|, k)] == listed[Index(|listed|, k)] < |q.modules|
    ensures RunProceeding(r, W.Begun(1), verdicts, steps + [0] + [0], listed) ==
      (Retire(ProceedModule(q, Index(|listed|, k), verdicts(listed[Index(|listed|, k)])), Index(|listed|, k)),
       W.Sharing(s.claimed, [W.Ready], s.log + [k]))
  {
    hide Placed, RunProceeding, ProceedModule, Retire;
    OneMoreProceeding(r, verdicts, steps, listed, q, s);
    var s1 := W.Advance(s, 0, |listed|);
    assert s1.workers == [W.Checked(k)];
    OneMoreProceeding(r, verdicts, steps + [0], listed, RunProceeding(r, W.Begun(1), verdicts, steps + [0], listed).0, s1);
    assert W.Advance(s1, 0, |listed|).workers == [W.Ready];
  }

  lemma ProceedingClaim(r: Roster, verdicts: Verdicts, steps: seq<nat>, listed: seq<nat>, q: Roster, s: W.Sharing)
    requires Placed(r, W.Begun(1), listed) && RunProceeding(r, W.Begun(1), verdicts, steps, listed) == (q, s)
    requires s.workers == [W.Ready]
    ensures |q.ids| == |listed|
    ensures s.claimed < |listed| ==>
      q.ids[Index(|listed|, s.claimed)] == listed[Index(|listed|, s.claimed)] < |q.modules| < IA.INVALID
    ensures RunProceeding(r, W.Begun(1), verdicts, steps + [0], listed) ==
      (q, W.Sharing(s.claimed + 1, [if s.claimed < |listed| then W.Busy(s.claimed) else W.Finished], s.log))
  {
    hide Placed, RunProceeding;
    OneMoreProceeding(r, verdicts, steps, listed, q, s);
    if s.claimed < |listed| { ClaimedIdsAreValid(q, s, listed, 0); }
    assert W.Advance(s, 0, |listed|).workers == [if s.claimed < |listed| then W.Busy(s.claimed) else W.Finished];
  }

  lemma ProceedingStarts(r: Roster, verdicts: Verdicts)
    requires Placed(r, W.Begun(1), r.ids)
    ensures |r.modules| < IA.INVALID && (|r.ids| > 0 ==> r.ids[|r.ids| - 1] < |r.modules|)
    ensures RunProceeding(r, W.Begun(1), verdicts, [0], r.ids) ==
      (r, W.Sharing(1, [if 0 < |r.ids| then W.Busy(0) else W.Finished], []))
  {
    ProceedingClaim(r, verdicts, [], r.ids, r, W.Begun(1));
    assert [] + [0] == [0];
  }

  class Manager {
    var modules: seq<Module>
    const busy: IdArray
    var nextId: nat
    ghost var proceeded: seq<nat>

    ghost function State(): Roster
      reads this, busy
    {
      Roster(modules, busy.ids, busy.total, proceeded)
    }

    constructor (modules: seq<Module>)
      requires |modules| < IA.INVALID
      requires forall id :: 0 <= id < |modules| ==> modules[id].Absent? || modules[id].Idle? || modules[id].Activating?
      ensures fresh(busy) && State() == Roster(modules, [], 0, []) && Listing(State())
    {
      this.modules := modules;
      busy := new IdArray();
      nextId, proceeded := 0, [];
    }

    method HandleModule(id: nat, requests: seq<Request>)
      requires busy.Valid() && id < |modules| < IA.INVALID
      modifies this`modules, busy`ids, busy`total
      ensures busy.Valid() && |modules| == old(|modules|)
      ensures State() == Enlist(HandleStep(old(State()), W.Busy(id), requests), id)
    {
      if !modules[id].Absent? {
        modules := modules[id := ServeAll(modules[id], requests)];
        if modules[id].Activating? {
          busy.Push(id);
          modules := modules[id := Active];
        }
      }
    }

    /** `inbox(id)` holds the requests that are buffered for module `id`. */
    method HandleAllMessages(inbox: Inbox) returns (ghost steps: seq<nat>)
      requires busy.Valid() && |modules| < IA.INVALID
      modifies this, busy
      ensures busy.Valid() && W.Inv(W.Begun(1), |old(State()).modules|)
      ensures RunHandling(old(State()), W.Begun(1), inbox, steps).0 == State()
      ensures W.Done(RunHandling(old(State()), W.Begun(1), inbox, steps).1)
    {
      Begins(1, |modules|);
      RunHandlingAppend(State(), W.Begun(1), inbox, [], 0);
      ghost var s := W.Advance(W.Begun(1), 0, |modules|);
      steps := [] + [0];
      hide W.Inv, RunHandling, HandleStep, Enlist, IA.ValidCount;
      nextId := 0;
      var total := |modules|;
      var id := nextId;
      nextId := nextId + 1;
      while id < total
        invariant |modules| == total && nextId == id + 1 == s.claimed && busy.Valid()
        invariant RunHandling(old(State()), W.Begun(1), inbox, steps) == (State(), s)
        invariant s.workers == [if id < total then W.Busy(id) else W.Finished]
      {
        HandlingTurn(old(State()), inbox, steps, State(), s, id);
        steps := steps + [0] + [0] + [0];
        s := W.Sharing(s.claimed + 1, [if s.claimed < total then W.Busy(s.claimed) else W.Finished], s.log + [id]);
        HandleModule(id, inbox(id));
        id := nextId;
        nextId := nextId + 1;
      }
    }

    /** Clear the list and rewind it. The stage is needed when some id is left. */
    method PrepareProceeding() returns (needed: bool)
      requires Counted(State())
      modifies this`proceeded, busy`ids, busy`next
      ensures Cleared(old(busy.ids), busy.ids) && State() == old(State()).(ids := busy.ids, proceeded := [])
      ensures Placed(State(), W.Begun(1), busy.ids) && busy.Valid() && busy.next == |busy.ids| - 1
      ensures needed <==> old(busy.total) != 0
    {
      ghost var r := State();
      busy.Begin();
      proceeded := [];
      ProceedingBegins(r, busy.ids, 1, _ => false);
      needed := busy.total != 0;
    }

    method ProceedModuleAt(index: nat, id: nat, stops: bool)
      requires busy.Valid() && index < |busy.ids| && id == busy.ids[index] < |modules| < IA.INVALID
      modifies this`modules, this`proceeded, busy`ids, busy`total
      ensures busy.Valid() && |modules| == old(|modules|) && |busy.ids| == old(|busy.ids|)
      ensures State() == Retire(ProceedModule(old(State()), index, stops), index)
    {
      hide IA.ValidCount;
      if modules[id].Absent? {
        busy.DropIndex(index);
        return;
      }
      if stops { modules := modules[id := SwitchToIdle(modules[id])]; }
      proceeded := proceeded + [id];
      assert State() == ProceedModule(old(State()), index, stops);
      if modules[id].Deactivating? {
        busy.DropIndex(index);
        modules := modules[id := Idle];
      }
    }

    /** `verdicts(id)` tells whether module `id` switches to idle when it is proceeded. */
    method ProceedBusyModules(verdicts: Verdicts) returns (ghost steps: seq<nat>)
      requires Placed(State(), W.Begun(1), busy.ids)
      requires busy.Valid() && busy.next == |busy.ids| - 1
      modifies this, busy
      ensures busy.Valid() && RunProceeding(old(State()), W.Begun(1), verdicts, steps, old(busy.ids)).0 == State()
      ensures W.Done(RunProceeding(old(State()), W.Begun(1), verdicts, steps, old(busy.ids)).1)
    {
      hide Placed, RunProceeding, ProceedModule, Retire, IA.ValidCount;
      ghost var listed := busy.ids;
      ProceedingStarts(State(), verdicts);
      steps := [0];
      ghost var s := W.Sharing(1, [if 0 < |listed| then W.Busy(0) else W.Finished], []);
      assert listed != [] ==> busy.ids[busy.next] != IA.INVALID;
      var found, id, index := busy.GetNextId();
      while found
        invariant |modules| < IA.INVALID && |busy.ids| == |listed| && busy.Valid()
        invariant RunProceeding(old(State()), W.Begun(1), verdicts, steps, listed) == (State(), s)
        invariant s.claimed > 0 && busy.next == |listed| - 1 - s.claimed
        invariant found <==> s.claimed <= |listed|
        invariant s.workers == [if found then W.Busy(s.claimed - 1) else W.Finished]
        invariant found ==> index == |listed| - s.claimed && busy.ids[index] == id == listed[index] < |modules|
        decreases busy.next + 2
      {
        ProceedingTurn(old(State()), verdicts, steps, listed, State(), s, s.claimed - 1);
        steps := steps + [0] + [0];
        s := W.Sharing(s.claimed, [W.Ready], s.log + [s.claimed - 1]);
        ProceedModuleAt(index, id, verdicts(id));
        ProceedingClaim(old(State()), verdicts, steps, listed, State(), s);
        steps := steps + [0];
        s := W.Sharing(s.claimed + 1, [if s.claimed < |listed| then W.Busy(s.claimed) else W.Finished], s.log);
        found, id, index := busy.GetNextId();
      }
    }
  }
}
