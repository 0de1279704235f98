/** The lifecycle of modules, and the two stages in which a manager's threads handle and proceed them. */
module ModulesManager {
  import IdArrays
  import W = WorkSharing

  const INVALID := IdArrays.INVALID

  /** `Absent` is an empty slot of the global container. */
  datatype Module = Absent | Idle | Activating | Active | Deactivating

  /**
   * What a message does to the state of its module: it switches it in any state, as a change of thrust does, or,
   * if it is guarded, starts the module only when it is idle and stops it only when it is active, as mining does.
   */
  datatype Request = Start(guarded: bool) | Stop(guarded: bool)

  function SwitchToIdle(m: Module): Module
    requires !m.Absent?
  {
    if m.Idle? then m else Deactivating
  }

  function SwitchToActive(m: Module): Module
    requires !m.Absent?
  {
    if m.Active? then m else Activating
  }

  function Serve(m: Module, request: Request): Module
    requires !m.Absent?
  {
    match request
    case Start(guarded) => if guarded && !m.Idle? then m else SwitchToActive(m)
    case Stop(guarded) => if guarded && !m.Active? then m else SwitchToIdle(m)
  }

  function ServeAll(m: Module, requests: seq<Request>): (r: Module)
    requires !m.Absent?
    ensures !r.Absent?
    ensures r.Idle? ==> m.Idle?
    ensures r.Active? ==> m.Active?
    decreases requests
  {
    if requests == [] then m else Serve(ServeAll(m, requests[..|requests| - 1]), requests[|requests| - 1])
  }

  predicate AnyStart(requests: seq<Request>) { exists i :: 0 <= i < |requests| && requests[i].Start? }

  predicate AnyStop(requests: seq<Request>) { exists i :: 0 <= i < |requests| && requests[i].Stop? }

  /** The requests up to the last one that is not guarded; when a transition has begun, that one decides. */
  function Decisive(requests: seq<Request>): seq<Request>
    decreases requests
  {
    if requests == [] || !requests[|requests| - 1].guarded then requests else Decisive(requests[..|requests| - 1])
  }

  /** The last unguarded request asks for the opposite of a transition that has begun. */
  predicate Turned(m: Module, requests: seq<Request>) {
    var d := Decisive(requests);
    && d != []
    && match m
       case Absent => false
       case Idle => d[|d| - 1].Stop? && AnyStart(d)
       case Active => d[|d| - 1].Start? && AnyStop(d)
       case Activating => d[|d| - 1].Stop?
       case Deactivating => d[|d| - 1].Start?
  }

  /** The state in which a module is when its messages have been handled. */
  lemma {:induction false} ServeAllOutcome(m: Module, requests: seq<Request>)
    requires !m.Absent?
    ensures ServeAll(m, requests) ==
      match m
      case Idle => if !AnyStart(requests) then Idle else if Turned(m, requests) then Deactivating else Activating
      case Active => if !AnyStop(requests) then Active else if Turned(m, requests) then Activating else Deactivating
      case Activating => if Turned(m, requests) then Deactivating else Activating
      case Deactivating => if Turned(m, requests) then Activating else Deactivating
    ensures Turned(m, requests) ==> AnyStart(requests) || AnyStop(requests)
    ensures m.Idle? && Turned(m, requests) ==> AnyStart(requests)
    ensures m.Active? && Turned(m, requests) ==> AnyStop(requests)
    decreases requests
  {
    if requests != [] {
      var front, last := requests[..|requests| - 1], requests[|requests| - 1];
      assert requests == front + [last];
      ServeAllOutcome(m, front);
      AnyWithLast(front, last);
    }
  }

  lemma AnyWithLast(front: seq<Request>, last: Request)
    ensures AnyStart(front + [last]) <==> AnyStart(front) || last.Start?
    ensures AnyStop(front + [last]) <==> AnyStop(front) || last.Stop?
  {
    var all := front + [last];
    assert all[|front|] == last;
    assert forall i :: 0 <= i < |front| ==> all[i] == front[i];
  }

  /** Modules whose requests are all guarded are never turned. */
  lemma {:induction false} GuardedNeverTurns(m: Module, requests: seq<Request>)
    requires forall i :: 0 <= i < |requests| ==> requests[i].guarded
    ensures Decisive(requests) == [] && !Turned(m, requests)
    decreases requests
  {
    if requests != [] { GuardedNeverTurns(m, requests[..|requests| - 1]); }
  }

  /** Modules by id, the busy ids, the counter of valid busy ids, and the ids on which `proceed` was called. */
  datatype Roster = Roster(modules: seq<Module>, ids: seq<nat>, total: int, proceeded: seq<nat>)

  function Times(r: Roster, id: nat): nat { multiset(r.ids)[id] }

  /** The counter is right, and only ids of the container are listed. */
  ghost predicate Counted(r: Roster) {
    && |r.modules| < INVALID
    && r.total == IdArrays.ValidCount(r.ids)
    && (forall id :: id >= |r.modules| && id != INVALID ==> Times(r, id) == 0)
  }

  /** How often a module must be listed, with its slot left open while it is absent. */
  predicate ListedRight(m: Module, times: nat) {
    match m
    case Absent => times <= 1
    case Active => times == 1
    case Deactivating => times == 1
    case _ => times == 0
  }

  ghost predicate Listing(r: Roster) {
    Counted(r) && forall id :: 0 <= id < |r.modules| ==> ListedRight(r.modules[id], Times(r, id))
  }

  ghost predicate NoneActivating(r: Roster) { forall id :: 0 <= id < |r.modules| ==> !r.modules[id].Activating? }

  /** After a cycle the valid busy ids are exactly the active modules, each once, no module is in the middle of a
      transition, and the counter is the number of active modules. */
  ghost predicate Exact(r: Roster) {
    && Listing(r)
    && (forall id :: 0 <= id < |r.modules| ==> !r.modules[id].Activating? && !r.modules[id].Deactivating?)
    && (forall id: nat :: id != INVALID ==> Times(r, id) == if id < |r.modules| && r.modules[id].Active? then 1 else 0)
    && r.total == |set id | 0 <= id < |r.modules| && r.modules[id].Active?|
  }

  /* Stage 0: handle messages. */

  function Enlist(r: Roster, id: nat): Roster
    requires id < |r.modules|
  {
    if r.modules[id].Activating?
    then r.(ids := r.ids + [id], total := r.total + 1, modules := r.modules[id := Active])
    else r
  }

  function Served(m: Module, requests: seq<Request>): Module { if m.Absent? then m else ServeAll(m, requests) }

  function HandleStep(r: Roster, worker: W.Worker, requests: seq<Request>): (q: Roster)
    requires W.Holds(worker) ==> worker.item < |r.modules|
    ensures |q.modules| == |r.modules|
  {
    match worker
    case Busy(id) => r.(modules := r.modules[id := Served(r.modules[id], requests)])
    case Checked(id) => Enlist(r, id)
    case _ => r
  }

  function AfterHandling(m: Module, requests: seq<Request>): Module {
    if Served(m, requests).Activating? then Active else Served(m, requests)
  }

  function Pushes(m: Module, requests: seq<Request>): nat { if Served(m, requests).Activating? then 1 else 0 }

  /** The requests that wait for each module when its turn comes. */
  type Inbox = nat -> seq<Request>

  function Waiting(worker: W.Worker, inbox: Inbox): seq<Request> { if W.Holds(worker) then inbox(worker.item) else [] }

  /** How far module `id` has come in the first stage, which began with `start`. */
  ghost predicate HandledAs(start: Roster, r: Roster, s: W.Sharing, inbox: Inbox, id: nat)
    requires id < |start.modules| == |r.modules|
  {
    if id !in s.log then r.modules[id] == start.modules[id] && Times(r, id) == Times(start, id)
    else if W.Checked(id) in s.workers then
      r.modules[id] == Served(start.modules[id], inbox(id)) && Times(r, id) == Times(start, id)
    else
      && r.modules[id] == AfterHandling(start.modules[id], inbox(id))
      && Times(r, id) == Times(start, id) + Pushes(start.modules[id], inbox(id))
  }

  ghost predicate HandlingInv(start: Roster, r: Roster, s: W.Sharing, inbox: Inbox) {
    && |r.modules| == |start.modules| && Counted(r) && W.Inv(s, |r.modules|)
    && (forall id :: 0 <= id < |r.modules| ==> HandledAs(start, r, s, inbox, id))
  }

  /** An item is being checked by some worker exactly from the work on it until its check. */
  lemma CheckedMoves(s: W.Sharing, w: nat, limit: nat, k: nat)
    requires W.Inv(s, limit) && W.Enabled(s, w)
    ensures W.Checked(k) in W.Advance(s, w, limit).workers <==>
      s.workers[w] == W.Busy(k) || (W.Checked(k) in s.workers && s.workers[w] != W.Checked(k))
  {
    var t := W.Advance(s, w, limit);
    if s.workers[w] == W.Busy(k) {
      assert t.workers[w] == W.Checked(k);
    } else if W.Checked(k) in s.workers && s.workers[w] != W.Checked(k) {
      W.OthersStay(s.workers, w, t.workers[w], W.Checked(k));
    }
  }

  lemma EnlistTimes(r: Roster, id: nat, i: nat)
    requires id < |r.modules|
    ensures Times(Enlist(r, id), i) == Times(r, i) + if i == id && r.modules[id].Activating? then 1 else 0
  {
    var pushed := r.ids + [id];
    assert multiset(pushed) == multiset(r.ids) + multiset{id};
  }

  lemma EnlistCounted(r: Roster, id: nat)
    requires Counted(r) && id < |r.modules|
    ensures Counted(Enlist(r, id))
  {
    IdArrays.PushCounts(r.ids, id);
    hide IdArrays.ValidCount, Times;
    forall i: nat | i >= |r.modules| && i != INVALID ensures Times(Enlist(r, id), i) == 0 { EnlistTimes(r, id, i); }
  }

  lemma HandleStepTracks(start: Roster, r: Roster, s: W.Sharing, w: nat, inbox: Inbox, id: nat)
    requires Counted(r) && W.Inv(s, |r.modules|) && W.Enabled(s, w)
    requires id < |start.modules| == |r.modules| && HandledAs(start, r, s, inbox, id)
    ensures var q := HandleStep(r, s.workers[w], Waiting(s.workers[w], inbox));
      HandledAs(start, q, W.Advance(s, w, |r.modules|), inbox, id)
  {
    CheckedMoves(s, w, |r.modules|, id);
    if s.workers[w].Checked? { EnlistTimes(r, s.workers[w].item, id); }
  }

  /** Every step of the first stage leaves each module, and how often it is listed, as its own requests want. */
  lemma HandleStepKeepsInv(start: Roster, r: Roster, s: W.Sharing, w: nat, inbox: Inbox)
    requires HandlingInv(start, r, s, inbox) && W.Enabled(s, w)
    ensures W.Holds(s.workers[w]) ==> s.workers[w].item < |r.modules|
    ensures HandlingInv(start, HandleStep(r, s.workers[w], Waiting(s.workers[w], inbox)), W.Advance(s, w, |r.modules|), inbox)
  {
    var worker := s.workers[w];
    W.AdvanceKeepsInv(s, w, |r.modules|);
    if worker.Checked? { EnlistCounted(r, worker.item); }
    var q, t := HandleStep(r, worker, Waiting(worker, inbox)), W.Advance(s, w, |r.modules|);
    assert !worker.Checked? ==> forall id :: Times(q, id) == Times(r, id);
    forall id | 0 <= id < |q.modules| ensures HandledAs(start, q, t, inbox, id) {
      HandleStepTracks(start, r, s, w, inbox, id);
    }
  }

  /** A run of the first stage: `steps` says which worker moves next. */
  ghost function RunHandling(r: Roster, s: W.Sharing, inbox: Inbox, steps: seq<nat>): (e: (Roster, W.Sharing))
    requires W.Inv(s, |r.modules|)
    ensures W.Inv(e.1, |e.0.modules|) && |e.0.modules| == |r.modules| && |e.1.workers| == |s.workers|
    decreases steps
  {
    if steps == [] then (r, s)
    else if !W.Enabled(s, steps[0]) then RunHandling(r, s, inbox, steps[1..])
    else
      var worker := s.workers[steps[0]];
      W.AdvanceKeepsInv(s, steps[0], |r.modules|);
      RunHandling(HandleStep(r, worker, Waiting(worker, inbox)), W.Advance(s, steps[0], |r.modules|), inbox, steps[1..])
  }

  lemma {:induction false} RunHandlingKeepsInv(start: Roster, r: Roster, s: W.Sharing, inbox: Inbox, steps: seq<nat>)
    requires HandlingInv(start, r, s, inbox)
    ensures var e := RunHandling(r, s, inbox, steps); HandlingInv(start, e.0, e.1, inbox)
    decreases steps
  {
    if steps != [] {
      if W.Enabled(s, steps[0]) {
        HandleStepKeepsInv(start, r, s, steps[0], inbox);
        var q := HandleStep(r, s.workers[steps[0]], Waiting(s.workers[steps[0]], inbox));
        hide HandleStep, HandledAs, Waiting;
        RunHandlingKeepsInv(start, q, W.Advance(s, steps[0], |r.modules|), inbox, steps[1..]);
      } else {
        RunHandlingKeepsInv(start, r, s, inbox, steps[1..]);
      }
    }
  }

  lemma Begins(workers: nat, limit: nat)
    ensures W.Inv(W.Begun(workers), limit)
  {}

  /** The first stage is skipped when no module is registered. Otherwise it lasts until every worker has finished. */
  ghost predicate HandlingStage(r: Roster, workers: nat, inbox: Inbox, steps: seq<nat>, q: Roster) {
    && workers > 0
    && if forall id :: 0 <= id < |r.modules| ==> r.modules[id].Absent? then q == r
       else
         Begins(workers, |r.modules|);
         var e := RunHandling(r, W.Begun(workers), inbox, steps);
         W.Done(e.1) && q == e.0
  }

  /** What the first stage makes of a module, and how often it lists it, under any interleaving. */
  lemma HandlingOutcome(r: Roster, workers: nat, inbox: Inbox, steps: seq<nat>, q: Roster)
    requires HandlingStage(r, workers, inbox, steps, q) && Counted(r)
    ensures Counted(q) && |q.modules| == |r.modules|
    ensures forall id :: 0 <= id < |r.modules| ==>
      && q.modules[id] == AfterHandling(r.modules[id], inbox(id))
      && Times(q, id) == Times(r, id) + Pushes(r.modules[id], inbox(id))
  {
    if exists id :: 0 <= id < |r.modules| && !r.modules[id].Absent? {
      Begins(workers, |r.modules|);
      RunHandlingKeepsInv(r, r, W.Begun(workers), inbox, steps);
      var e := RunHandling(r, W.Begun(workers), inbox, steps);
      forall id | 0 <= id < |r.modules| ensures id in e.1.log && W.Checked(id) !in e.1.workers {
        W.EachItemOnce(e.1, |r.modules|, id);
      }
      forall id | 0 <= id < |r.modules|
        ensures q.modules[id] == AfterHandling(r.modules[id], inbox(id))
        ensures Times(q, id) == Times(r, id) + Pushes(r.modules[id], inbox(id))
      {
        assert HandledAs(r, q, e.1, inbox, id);
      }
    }
  }

  /** No waiting messages turn a module back. */
  ghost predicate Smooth(r: Roster, inbox: Inbox) {
    forall id :: 0 <= id < |r.modules| ==> !Turned(r.modules[id], inbox(id))
  }

  /** One module: it is listed as its state wants after its messages if and only if they do not turn it back. */
  lemma ModuleListedIff(m: Module, times: nat, requests: seq<Request>)
    requires ListedRight(m, times)
    ensures ListedRight(AfterHandling(m, requests), times + Pushes(m, requests)) <==> !Turned(m, requests)
    ensures Turned(m, requests) ==>
      if m.Active? || m.Deactivating?
      then AfterHandling(m, requests) == Active && times + Pushes(m, requests) == 2
      else AfterHandling(m, requests) == Deactivating && times + Pushes(m, requests) == 0
  {
    if !m.Absent? { ServeAllOutcome(m, requests); }
  }

  /** The list is right after the first stage if and only if no waiting messages turn a module back. */
  lemma HandlingKeepsListingIff(r: Roster, workers: nat, inbox: Inbox, steps: seq<nat>, q: Roster)
    requires HandlingStage(r, workers, inbox, steps, q) && Listing(r)
    ensures Listing(q) <==> Smooth(r, inbox)
    ensures NoneActivating(q)
  {
    HandlingOutcome(r, workers, inbox, steps, q);
    hide Counted, AfterHandling, Pushes, Turned, ListedRight;
    forall id | 0 <= id < |r.modules|
      ensures !q.modules[id].Activating?
      ensures ListedRight(q.modules[id], Times(q, id)) <==> !Turned(r.modules[id], inbox(id))
    {
      ModuleListedIff(r.modules[id], Times(r, id), inbox(id));
      NeverActivating(r.modules[id], inbox(id));
    }
  }

  lemma NeverActivating(m: Module, requests: seq<Request>)
    ensures !AfterHandling(m, requests).Activating?
  {}

  /** Unless messages turn a module back, the list is right after every step of the first stage as well. */
  lemma ListedWhileHandling(start: Roster, r: Roster, s: W.Sharing, inbox: Inbox)
    requires HandlingInv(start, r, s, inbox) && Listing(start) && Smooth(start, inbox)
    ensures Listing(r)
  {
    forall id | 0 <= id < |r.modules| ensures ListedRight(r.modules[id], Times(r, id)) {
      var m := start.modules[id];
      ModuleListedIff(m, Times(start, id), inbox(id));
      if !m.Absent? { ServeAllOutcome(m, inbox(id)); }
      assert HandledAs(start, r, s, inbox, id) && !Turned(m, inbox(id)) && ListedRight(m, Times(start, id));
    }
  }

  /** In the first stage every registered module's messages are handled exactly once. */
  lemma MessagesHandledOnce(r: Roster, workers: nat, inbox: Inbox, steps: seq<nat>, id: nat)
    requires workers > 0
    ensures W.Inv(W.Begun(workers), |r.modules|)
    ensures var s := RunHandling(r, W.Begun(workers), inbox, steps).1;
      W.Done(s) ==> multiset(s.log)[id] == if id < |r.modules| then 1 else 0
  {
    Begins(workers, |r.modules|);
    var e := RunHandling(r, W.Begun(workers), inbox, steps);
    if W.Done(e.1) { W.EachItemOnce(e.1, |r.modules|, id); }
  }

  /* Stage 1: proceed the busy modules. Item `k` is the k-th index from the end of the list. */

  function Index(count: nat, k: nat): nat
    requires k < count
  {
    count - 1 - k
  }

  function Drop(r: Roster, i: nat): Roster
    requires i < |r.ids|
  {
    r.(ids := r.ids[i := INVALID], total := r.total - 1)
  }

  /** `proceed` may switch a module to idle, and never switches it to active. */
  function ProceedModule(r: Roster, i: nat, stops: bool): Roster
    requires i < |r.ids| && r.ids[i] < |r.modules|
  {
    var id := r.ids[i];
    var m := r.modules[id];
    if m.Absent? then Drop(r, i)
    else r.(modules := r.modules[id := if stops then SwitchToIdle(m) else m], proceeded := r.proceeded + [id])
  }

  function Retire(r: Roster, i: nat): Roster
    requires i < |r.ids|
  {
    var id := r.ids[i];
    if id < |r.modules| && r.modules[id].Deactivating?
    then Drop(r, i).(modules := r.modules[id := Idle])
    else r
  }

  function ProceedStep(r: Roster, worker: W.Worker, stops: bool): (q: Roster)
    requires W.Holds(worker) ==> worker.item < |r.ids|
    requires worker.Busy? ==> r.ids[Index(|r.ids|, worker.item)] < |r.modules|
    ensures |q.modules| == |r.modules| && |q.ids| == |r.ids|
  {
    match worker
    case Busy(k) => ProceedModule(r, Index(|r.ids|, k), stops)
    case Checked(k) => Retire(r, Index(|r.ids|, k))
    case _ => r
  }

  /** The list as it was when the stage began: it may name a module twice. */
  predicate Listed(r: Roster, listed: seq<nat>) {
    |r.ids| == |listed| && |r.modules| < INVALID && forall i :: 0 <= i < |listed| ==> listed[i] < |r.modules|
  }

  /** The entry of item `k` stays until the module named there is found absent or has stopped. */
  ghost predicate EntryStays(r: Roster, s: W.Sharing, listed: seq<nat>, k: nat)
    requires Listed(r, listed) && k < |listed|
  {
    var i := Index(|listed|, k);
    var absent := r.modules[listed[i]].Absent?;
    && (r.ids[i] == listed[i] || (r.ids[i] == INVALID && k in s.log))
    && (absent && k in s.log ==> r.ids[i] == INVALID)
    && (!absent && W.Checked(k) in s.workers ==> r.ids[i] == listed[i])
  }

  ghost predicate Placed(r: Roster, s: W.Sharing, listed: seq<nat>) {
    && Listed(r, listed) && W.Inv(s, |listed|)
    && (forall k: nat :: k < |listed| ==> EntryStays(r, s, listed, k))
  }

  lemma StepInRange(r: Roster, s: W.Sharing, w: nat, listed: seq<nat>)
    requires Placed(r, s, listed) && W.Enabled(s, w)
    ensures W.Holds(s.workers[w]) ==> s.workers[w].item < |r.ids| == |listed|
    ensures s.workers[w].Busy? ==>
      r.ids[Index(|r.ids|, s.workers[w].item)] == listed[Index(|r.ids|, s.workers[w].item)] < |r.modules|
  {
    if W.Holds(s.workers[w]) { assert EntryStays(r, s, listed, s.workers[w].item); }
  }

  /** Every step of the second stage touches the entry and the module of the worker's item only. */
  lemma ProceedStepKeepsPlaced(r: Roster, s: W.Sharing, w: nat, stops: bool, listed: seq<nat>)
    requires Placed(r, s, listed) && W.Enabled(s, w)
    ensures W.Holds(s.workers[w]) ==> s.workers[w].item < |r.ids| == |listed|
    ensures s.workers[w].Busy? ==>
      r.ids[Index(|r.ids|, s.workers[w].item)] == listed[Index(|r.ids|, s.workers[w].item)] < |r.modules|
    ensures Placed(ProceedStep(r, s.workers[w], stops), W.Advance(s, w, |listed|), listed)
  {
    StepInRange(r, s, w, listed);
    W.AdvanceKeepsInv(s, w, |listed|);
    var q, t := ProceedStep(r, s.workers[w], stops), W.Advance(s, w, |listed|);
    assert Listed(q, listed);
    forall k: nat | k < |listed| ensures EntryStays(q, t, listed, k) {
      CheckedMoves(s, w, |listed|, k);
      assert EntryStays(r, s, listed, k);
      if W.Holds(s.workers[w]) { assert EntryStays(r, s, listed, s.workers[w].item); }
    }
  }

  /** Whether `proceed` of each module switches it to idle in this cycle. */
  type Verdicts = nat -> bool

  function Verdict(worker: W.Worker, verdicts: Verdicts, listed: seq<nat>): bool {
    W.Holds(worker) && worker.item < |listed| && verdicts(listed[Index(|listed|, worker.item)])
  }

  ghost function RunProceeding(r: Roster, s: W.Sharing, verdicts: Verdicts, steps: seq<nat>, listed: seq<nat>):
    (e: (Roster, W.Sharing))
    requires Placed(r, s, listed)
    ensures Placed(e.0, e.1, listed) && |e.0.modules| == |r.modules| && |e.1.workers| == |s.workers|
    decreases steps
  {
    if steps == [] then (r, s)
    else if !W.Enabled(s, steps[0]) then RunProceeding(r, s, verdicts, steps[1..], listed)
    else
      var worker := s.workers[steps[0]];
      var stops := Verdict(worker, verdicts, listed);
      ProceedStepKeepsPlaced(r, s, steps[0], stops, listed);
      RunProceeding(ProceedStep(r, worker, stops), W.Advance(s, steps[0], |listed|), verdicts, steps[1..], listed)
  }

  /** A worker never claims an index whose id has been removed already, so the assertion on it never fails. */
  lemma ClaimedIdsAreValid(r: Roster, s: W.Sharing, listed: seq<nat>, w: nat)
    requires Placed(r, s, listed) && W.Enabled(s, w) && s.workers[w].Ready? && s.claimed < |listed|
    ensures r.ids[Index(|r.ids|, s.claimed)] == listed[Index(|r.ids|, s.claimed)] < |r.modules| < INVALID
  {
    assert EntryStays(r, s, listed, s.claimed);
  }

  /* How often `proceed` is called on a module. */

  /** How many of the items in `log` name module `id`. */
  function CallsOf(listed: seq<nat>, log: seq<nat>, id: nat): nat
    decreases log
  {
    if log == [] then 0
    else
      var k := log[|log| - 1];
      CallsOf(listed, log[..|log| - 1], id) + if k < |listed| && listed[Index(|listed|, k)] == id then 1 else 0
  }

  lemma {:induction false} CallsConcat(listed: seq<nat>, a: seq<nat>, b: seq<nat>, id: nat)
    ensures CallsOf(listed, a + b, id) == CallsOf(listed, a, id) + CallsOf(listed, b, id)
    decreases b
  {
    if b == [] {
      assert a + b == a;
    } else {
      assert (a + b)[..|a + b| - 1] == a + b[..|b| - 1];
      CallsConcat(listed, a, b[..|b| - 1], id);
    }
  }

  /** The first of the listed ids is the last item. */
  lemma {:induction false} CallsOfRest(listed: seq<nat>, log: seq<nat>, id: nat)
    requires listed != [] && forall k :: k in log ==> k < |listed| - 1
    ensures CallsOf(listed, log, id) == CallsOf(listed[1..], log, id)
    decreases log
  {
    if log != [] {
      var front := log[..|log| - 1];
      assert log == front + [log[|log| - 1]];
      assert forall k :: k in front ==> k in log;
      var k := log[|log| - 1];
      assert k in log && listed[1..][Index(|listed| - 1, k)] == listed[Index(|listed|, k)];
      CallsOfRest(listed, front, id);
    }
  }

  lemma {:induction false} SomeCall(listed: seq<nat>, log: seq<nat>, id: nat, k: nat)
    requires k in log && k < |listed| && listed[Index(|listed|, k)] == id
    ensures CallsOf(listed, log, id) > 0
    decreases log
  {
    if log[|log| - 1] != k { SomeCall(listed, log[..|log| - 1], id, k); }
  }

  lemma CallsWithout(listed: seq<nat>, log: seq<nat>, k: nat, id: nat) returns (rest: seq<nat>)
    requires k in log && k < |listed|
    ensures multiset(log) == multiset(rest) + multiset{k}
    ensures CallsOf(listed, log, id) == CallsOf(listed, rest, id) + if listed[Index(|listed|, k)] == id then 1 else 0
  {
    var j :| 0 <= j < |log| && log[j] == k;
    var a, b := log[..j], log[j + 1..];
    assert log == a + [k] + b && [k][..0] == [];
    CallsConcat(listed, a + [k], b, id);
    CallsConcat(listed, a, [k], id);
    CallsConcat(listed, a, b, id);
    rest := a + b;
  }

  ghost predicate Once(log: seq<nat>, n: nat) { forall k: nat :: k < n ==> multiset(log)[k] == 1 }

  ghost predicate AtMostOnce(log: seq<nat>, n: nat) { forall k: nat :: multiset(log)[k] <= if k < n then 1 else 0 }

  /** `proceed` was called on a module at most as often as it was listed, and as often when every item was worked on. */
  lemma {:induction false} CallsAreTimes(listed: seq<nat>, log: seq<nat>, id: nat)
    requires AtMostOnce(log, |listed|)
    ensures CallsOf(listed, log, id) <= multiset(listed)[id]
    ensures Once(log, |listed|) ==> CallsOf(listed, log, id) == multiset(listed)[id]
    decreases listed
  {
    hide CallsOf;
    if listed == [] {
      assert multiset(log) == multiset{} && |multiset(log)| == |log|;
      NoCalls(listed, id);
    } else {
      var n: nat := |listed| - 1;
      var rest: seq<nat> := log;
      if n in log { rest := CallsWithout(listed, log, n, id); }
      assert n in log <==> multiset(log)[n] == 1;
      forall k: nat
        ensures multiset(rest)[k] <= if k < n then 1 else 0
        ensures k < n ==> multiset(rest)[k] == multiset(log)[k]
      {
        assert multiset(log)[k] == multiset(rest)[k] + if k == n && n in log then 1 else 0;
      }
      RestIsShorter(rest, n);
      CallsOfRest(listed, rest, id);
      CallsAreTimes(listed[1..], rest, id);
      assert multiset(listed)[id] == multiset(listed[1..])[id] + if listed[0] == id then 1 else 0 by {
        assert listed == [listed[0]] + listed[1..];
      }
    }
  }

  lemma RestIsShorter(log: seq<nat>, n: nat)
    requires AtMostOnce(log, n)
    ensures forall k :: k in log ==> k < n
  {
    forall k | k in log ensures k < n { assert multiset(log)[k] > 0; }
  }

  lemma NoCalls(listed: seq<nat>, id: nat)
    ensures CallsOf(listed, [], id) == 0
  {}

  /* What the second stage makes of a module. */

  function AfterProceeding(m: Module, stops: bool): Module {
    if m.Deactivating? || (m.Active? && stops) then Idle else m
  }

  ghost predicate BeingChecked(s: W.Sharing, listed: seq<nat>, id: nat) {
    exists k: nat :: k < |listed| && listed[Index(|listed|, k)] == id && W.Checked(k) in s.workers
  }

  /** The state of a listed module, by the one it had when the stage began. */
  ghost predicate StateRight(m0: Module, m: Module, stops: bool, called: bool, checked: bool) {
    if !called || AfterProceeding(m0, stops) == m0 then m == m0
    else m.Idle? || (m.Deactivating? && checked)
  }

  /** How far module `id` has come in the second stage, which began with `start`. */
  ghost predicate ProceededAs(start: Roster, r: Roster, s: W.Sharing, listed: seq<nat>, verdicts: Verdicts, id: nat)
    requires id < |start.modules| == |r.modules|
  {
    var m0, m := start.modules[id], r.modules[id];
    && StateRight(m0, m, verdicts(id), CallsOf(listed, s.log, id) > 0, BeingChecked(s, listed, id))
    && multiset(r.proceeded)[id] == (if m0.Absent? then 0 else CallsOf(listed, s.log, id))
    && (if m0.Absent? then Times(r, id) <= multiset(listed)[id]
        else Times(r, id) + (if m.Idle? && !m0.Idle? then 1 else 0) == multiset(listed)[id])
  }

  ghost predicate ProceedingInv(start: Roster, r: Roster, s: W.Sharing, listed: seq<nat>, verdicts: Verdicts) {
    && |r.modules| == |start.modules| && NoneActivating(start)
    && Placed(r, s, listed) && Counted(r)
    && (forall id :: 0 <= id < |r.modules| ==> ProceededAs(start, r, s, listed, verdicts, id))
  }


  lemma DropCounts(r: Roster, i: nat)
    requires Counted(r) && i < |r.ids| && r.ids[i] < |r.modules|
    ensures Counted(Drop(r, i))
    ensures forall id :: id != INVALID ==> Times(Drop(r, i), id) == Times(r, id) - if id == r.ids[i] then 1 else 0
  {
    IdArrays.DropCounts(r.ids, i);
    hide IdArrays.ValidCount;
    forall id | id != INVALID ensures Times(Drop(r, i), id) == Times(r, id) - if id == r.ids[i] then 1 else 0 {}
  }

  lemma ProceedStepCounted(r: Roster, worker: W.Worker, stops: bool)
    requires Counted(r)
    requires W.Holds(worker) ==> worker.item < |r.ids|
    requires worker.Busy? ==> r.ids[Index(|r.ids|, worker.item)] < |r.modules|
    ensures Counted(ProceedStep(r, worker, stops))
  {
    if W.Holds(worker) {
      var i := Index(|r.ids|, worker.item);
      if r.ids[i] < |r.modules| { DropCounts(r, i); }
      hide IdArrays.ValidCount;
      var q := ProceedStep(r, worker, stops);
      assert q.ids == r.ids || q.ids == Drop(r, i).ids;
      assert forall id :: Times(q, id) == if q.ids == r.ids then Times(r, id) else Times(Drop(r, i), id);
    }
  }

  /** Only a module that is found absent, or stopping, is taken off the list. */
  lemma ProceedStepTimes(r: Roster, worker: W.Worker, stops: bool, id: nat)
    requires Counted(r) && id < |r.modules|
    requires W.Holds(worker) ==> worker.item < |r.ids|
    requires worker.Busy? ==> r.ids[Index(|r.ids|, worker.item)] < |r.modules|
    ensures var q := ProceedStep(r, worker, stops);
      && (!r.modules[id].Absent? ==>
        Times(q, id) + (if q.modules[id].Idle? && !r.modules[id].Idle? then 1 else 0) == Times(r, id))
      && Times(q, id) <= Times(r, id)
  {
    if W.Holds(worker) {
      var i := Index(|r.ids|, worker.item);
      if r.ids[i] < |r.modules| { DropCounts(r, i); }
      hide IdArrays.ValidCount, Counted;
      var q := ProceedStep(r, worker, stops);
      assert q.ids == r.ids ==> Times(q, id) == Times(r, id);
      assert q.ids == Drop(r, i).ids ==> Times(q, id) == Times(Drop(r, i), id);
      hide Times;
    }
  }

  predicate Names(worker: W.Worker, listed: seq<nat>, id: nat) {
    W.Holds(worker) && worker.item < |listed| && listed[Index(|listed|, worker.item)] == id
  }

  /** Which item the step calls `proceed` on, and which ones are being checked after it. */
  lemma CallsMove(s: W.Sharing, w: nat, listed: seq<nat>, id: nat)
    requires W.Inv(s, |listed|) && W.Enabled(s, w)
    ensures var t := W.Advance(s, w, |listed|); var worker := s.workers[w];
      var mine := Names(worker, listed, id);
      && CallsOf(listed, t.log, id) == CallsOf(listed, s.log, id) + (if mine && worker.Busy? then 1 else 0)
      && (mine && worker.Busy? ==> BeingChecked(t, listed, id))
      && (mine && worker.Checked? ==> CallsOf(listed, s.log, id) > 0)
      && (!mine && BeingChecked(s, listed, id) ==> BeingChecked(t, listed, id))
  {
    var t := W.Advance(s, w, |listed|);
    var worker := s.workers[w];
    if worker.Busy? {
      assert t.log[..|t.log| - 1] == s.log;
      CheckedMoves(s, w, |listed|, worker.item);
    }
    if worker.Checked? && Names(worker, listed, id) {
      SomeCall(listed, s.log, id, worker.item);
    } else if BeingChecked(s, listed, id) {
      var k: nat :| k < |listed| && listed[Index(|listed|, k)] == id && W.Checked(k) in s.workers;
      CheckedMoves(s, w, |listed|, k);
    }
  }

  /** A step changes the module that the worker's item names and no other. */
  lemma ProceedStepOn(r: Roster, s: W.Sharing, w: nat, stops: bool, listed: seq<nat>, id: nat)
    requires Placed(r, s, listed) && W.Enabled(s, w) && id < |r.modules|
    ensures W.Holds(s.workers[w]) ==> s.workers[w].item < |r.ids| == |listed|
    ensures s.workers[w].Busy? ==>
      r.ids[Index(|r.ids|, s.workers[w].item)] == listed[Index(|r.ids|, s.workers[w].item)] < |r.modules|
    ensures var q := ProceedStep(r, s.workers[w], stops);
      var m := r.modules[id];
      var called := s.workers[w].Busy? && Names(s.workers[w], listed, id) && !m.Absent?;
      && q.modules[id] ==
         (if !Names(s.workers[w], listed, id) || m.Absent? then m
          else if s.workers[w].Busy? then if stops then SwitchToIdle(m) else m
          else if m.Deactivating? then Idle else m)
      && multiset(q.proceeded)[id] == multiset(r.proceeded)[id] + if called then 1 else 0
  {
    StepInRange(r, s, w, listed);
    if W.Holds(s.workers[w]) { assert EntryStays(r, s, listed, s.workers[w].item); }
    hide W.Inv;
  }

  lemma ProceedStepTracks(
    start: Roster, r: Roster, s: W.Sharing, w: nat, listed: seq<nat>, verdicts: Verdicts, id: nat)
    requires Placed(r, s, listed) && W.Enabled(s, w) && Counted(r)
    requires id < |start.modules| == |r.modules| && !start.modules[id].Activating?
    requires ProceededAs(start, r, s, listed, verdicts, id)
    ensures W.Holds(s.workers[w]) ==> s.workers[w].item < |r.ids| == |listed|
    ensures s.workers[w].Busy? ==>
      r.ids[Index(|r.ids|, s.workers[w].item)] == listed[Index(|r.ids|, s.workers[w].item)] < |r.modules|
    ensures var stops := Verdict(s.workers[w], verdicts, listed);
      ProceededAs(start, ProceedStep(r, s.workers[w], stops), W.Advance(s, w, |listed|), listed, verdicts, id)
  {
    var worker := s.workers[w];
    StepInRange(r, s, w, listed);
    var stops := Verdict(worker, verdicts, listed);
    ProceedStepOn(r, s, w, stops, listed, id);
    CallsMove(s, w, listed, id);
    ProceedStepTimes(r, worker, stops, id);
    hide W.Inv, Counted, Placed, CallsOf, BeingChecked, Times, W.Advance, ProceedStep;
  }

  lemma ProceedStepKeepsInv(start: Roster, r: Roster, s: W.Sharing, w: nat, listed: seq<nat>, verdicts: Verdicts)
    requires ProceedingInv(start, r, s, listed, verdicts) && W.Enabled(s, w)
    ensures W.Holds(s.workers[w]) ==> s.workers[w].item < |r.ids| == |listed|
    ensures s.workers[w].Busy? ==>
      r.ids[Index(|r.ids|, s.workers[w].item)] == listed[Index(|r.ids|, s.workers[w].item)] < |r.modules|
    ensures var stops := Verdict(s.workers[w], verdicts, listed);
      ProceedingInv(start, ProceedStep(r, s.workers[w], stops), W.Advance(s, w, |listed|), listed, verdicts)
  {
    var worker := s.workers[w];
    var stops := Verdict(worker, verdicts, listed);
    ProceedStepKeepsPlaced(r, s, w, stops, listed);
    ProceedStepCounted(r, worker, stops);
    var q, t := ProceedStep(r, worker, stops), W.Advance(s, w, |listed|);
    forall id | 0 <= id < |q.modules| ensures ProceededAs(start, q, t, listed, verdicts, id) {
      ProceedStepTracks(start, r, s, w, listed, verdicts, id);
    }
  }

  lemma {:induction false} RunProceedingKeepsInv(
    start: Roster, r: Roster, s: W.Sharing, verdicts: Verdicts, steps: seq<nat>, listed: seq<nat>)
    requires ProceedingInv(start, r, s, listed, verdicts)
    ensures var e := RunProceeding(r, s, verdicts, steps, listed); ProceedingInv(start, e.0, e.1, listed, verdicts)
    decreases steps
  {
    if steps != [] {
      if W.Enabled(s, steps[0]) {
        var stops := Verdict(s.workers[steps[0]], verdicts, listed);
        ProceedStepKeepsInv(start, r, s, steps[0], listed, verdicts);
        var q := ProceedStep(r, s.workers[steps[0]], stops);
        hide ProceedStep, ProceededAs, Placed, Verdict;
        RunProceedingKeepsInv(start, q, W.Advance(s, steps[0], |listed|), verdicts, steps[1..], listed);
      } else {
        RunProceedingKeepsInv(start, r, s, verdicts, steps[1..], listed);
      }
    }
  }

  /** When every worker has finished: `proceed` was called on every module as often as it was listed, and a module
      that was stopping, or that its `proceed` stopped, is idle and was taken off the list once. */
  lemma AllProceeded(start: Roster, r: Roster, s: W.Sharing, listed: seq<nat>, verdicts: Verdicts, id: nat)
    requires ProceedingInv(start, r, s, listed, verdicts) && W.Done(s) && |s.workers| > 0 && id < |r.modules|
    ensures r.modules[id] ==
      if id in listed then AfterProceeding(start.modules[id], verdicts(id)) else start.modules[id]
    ensures Times(r, id) == TimesAfter(start.modules[id], r.modules[id], multiset(listed)[id])
    ensures multiset(r.proceeded)[id] == if start.modules[id].Absent? then 0 else multiset(listed)[id]
  {
    forall k: nat ensures multiset(s.log)[k] == if k < |listed| then 1 else 0 { W.EachItemOnce(s, |listed|, k); }
    CallsAreTimes(listed, s.log, id);
    assert ProceededAs(start, r, s, listed, verdicts, id);
    assert !BeingChecked(s, listed, id);
    if start.modules[id].Absent? { AbsentDropped(r, s, listed, id); }
  }

  function TimesAfter(before: Module, after: Module, times: nat): int {
    if before.Absent? then 0 else times - if after.Idle? && !before.Idle? then 1 else 0
  }

  lemma AbsentDropped(r: Roster, s: W.Sharing, listed: seq<nat>, id: nat)
    requires Placed(r, s, listed) && id < |r.modules| && r.modules[id].Absent?
    requires forall k: nat :: k < |listed| ==> multiset(s.log)[k] == 1
    ensures Times(r, id) == 0
  {
    forall i | 0 <= i < |r.ids| ensures r.ids[i] != id {
      var k: nat := Index(|listed|, i);
      assert EntryStays(r, s, listed, k) && multiset(s.log)[k] == 1;
    }
  }

  /** When the list was right at the beginning, it is right after every step, and `proceed` was called on each module at
      most once so far. */
  lemma ListedWhileProceeding(start: Roster, r: Roster, s: W.Sharing, verdicts: Verdicts)
    requires ProceedingInv(start, r, s, start.ids, verdicts) && Listing(start)
    ensures Listing(r) && forall id :: 0 <= id < |r.modules| ==> multiset(r.proceeded)[id] <= 1
  {
    forall k: nat ensures multiset(s.log)[k] <= if k < |start.ids| then 1 else 0 {
      assert k in s.log <==> multiset(s.log)[k] > 0;
    }
    forall id | 0 <= id < |r.modules|
      ensures ListedRight(r.modules[id], Times(r, id)) && multiset(r.proceeded)[id] <= 1
    {
      CallsAreTimes(start.ids, s.log, id);
      assert ProceededAs(start, r, s, start.ids, verdicts, id) && ListedRight(start.modules[id], Times(start, id));
      assert id in start.ids <==> Times(start, id) > 0;
    }
  }

  /* A whole cycle. */

  /** What clearing the marked entries promises: some order of the ids that are left. */
  predicate Cleared(ids: seq<nat>, cleared: seq<nat>) { multiset(cleared) == multiset(ids)[INVALID := 0] }

  lemma ProceedingBegins(r: Roster, cleared: seq<nat>, workers: nat, verdicts: Verdicts)
    requires Counted(r) && Cleared(r.ids, cleared)
    ensures var b := r.(ids := cleared, proceeded := []);
      && Placed(b, W.Begun(workers), cleared) && Counted(b)
      && (NoneActivating(r) ==> ProceedingInv(b, b, W.Begun(workers), cleared, verdicts))
      && (forall id :: id != INVALID ==> multiset(cleared)[id] == Times(r, id))
      && INVALID !in cleared
  {
    var b, s := r.(ids := cleared, proceeded := []), W.Begun(workers);
    assert |cleared| == |multiset(cleared)| && |r.ids| == |multiset(r.ids)|;
    assert |multiset(r.ids)[INVALID := 0]| == |r.ids| - multiset(r.ids)[INVALID];
    forall i | 0 <= i < |cleared| ensures cleared[i] < |r.modules| {
      assert multiset(cleared)[cleared[i]] > 0;
      assert Times(r, cleared[i]) > 0;
    }
    Begins(workers, |cleared|);
    assert forall id :: id != INVALID ==> Times(b, id) == Times(r, id);
    forall id | 0 <= id < |b.modules| ensures ProceededAs(b, b, s, cleared, verdicts, id) {}
  }

  /** The second stage is skipped when no valid id is left. */
  ghost predicate ProceedingStage(
    r: Roster, workers: nat, cleared: seq<nat>, verdicts: Verdicts, steps: seq<nat>, q: Roster)
  {
    && Counted(r) && workers > 0 && Cleared(r.ids, cleared)
    && var b := r.(ids := cleared, proceeded := []);
    if r.total == 0 then q == b
    else
      ProceedingBegins(r, cleared, workers, verdicts);
      var e := RunProceeding(b, W.Begun(workers), verdicts, steps, cleared);
      W.Done(e.1) && q == e.0
  }

  lemma ProceedingCounted(r: Roster, workers: nat, cleared: seq<nat>, verdicts: Verdicts, steps: seq<nat>, q: Roster)
    requires ProceedingStage(r, workers, cleared, verdicts, steps, q) && NoneActivating(r)
    ensures Counted(q) && |q.modules| == |r.modules|
  {
    ProceedingBegins(r, cleared, workers, verdicts);
    if r.total != 0 {
      var b := r.(ids := cleared, proceeded := []);
      RunProceedingKeepsInv(b, b, W.Begun(workers), verdicts, steps, cleared);
    }
  }

  /** What the second stage makes of a module, how often it is left on the list, and how often it was proceeded. */
  lemma ProceedingOutcome(
    r: Roster, workers: nat, cleared: seq<nat>, verdicts: Verdicts, steps: seq<nat>, q: Roster, id: nat)
    requires ProceedingStage(r, workers, cleared, verdicts, steps, q) && NoneActivating(r) && id < |r.modules|
    ensures Counted(q) && |q.modules| == |r.modules|
    ensures q.modules[id] == if Times(r, id) > 0 then AfterProceeding(r.modules[id], verdicts(id)) else r.modules[id]
    ensures Times(q, id) == TimesAfter(r.modules[id], q.modules[id], Times(r, id))
    ensures multiset(q.proceeded)[id] == if r.modules[id].Absent? then 0 else Times(r, id)
  {
    ProceedingBegins(r, cleared, workers, verdicts);
    var b := r.(ids := cleared, proceeded := []);
    if r.total == 0 {
      assert cleared == [];
      assert Times(r, id) == multiset(cleared)[id] == 0;
    } else {
      RunProceedingKeepsInv(b, b, W.Begun(workers), verdicts, steps, cleared);
      var e := RunProceeding(b, W.Begun(workers), verdicts, steps, cleared);
      AllProceeded(b, e.0, e.1, cleared, verdicts, id);
    }
  }

  /** A cycle: the number of threads, what waits for the modules, what their `proceed` decides, and the order of steps. */
  datatype Cycle = Cycle(
    workers: nat, inbox: Inbox, first: seq<nat>, mid: Roster, cleared: seq<nat>, verdicts: Verdicts, second: seq<nat>)

  ghost predicate Cycled(r: Roster, c: Cycle, q: Roster) {
    && HandlingStage(r, c.workers, c.inbox, c.first, c.mid)
    && ProceedingStage(c.mid, c.workers, c.cleared, c.verdicts, c.second, q)
  }

  function AfterCycle(m: Module, times: nat, requests: seq<Request>, stops: bool): Module {
    if times + Pushes(m, requests) == 0 then AfterHandling(m, requests)
    else AfterProceeding(AfterHandling(m, requests), stops)
  }

  /**
   * What a cycle makes of each module, how often it lists it, and how often it calls `proceed` on it: that depends on
   * the module, on how often it was listed, on its messages and on what its `proceed` decides, and neither on the number
   * of threads, nor on the order of their steps, nor on the order of the list. The list need not be right before.
   */
  lemma CycleOutcome(r: Roster, c: Cycle, q: Roster, id: nat)
    requires Cycled(r, c, q) && Counted(r) && id < |r.modules|
    ensures Counted(q) && |q.modules| == |c.mid.modules| == |r.modules|
    ensures c.mid.modules[id] == AfterHandling(r.modules[id], c.inbox(id))
    ensures Times(c.mid, id) == Times(r, id) + Pushes(r.modules[id], c.inbox(id))
    ensures q.modules[id] == AfterCycle(r.modules[id], Times(r, id), c.inbox(id), c.verdicts(id))
    ensures Times(q, id) == TimesAfter(c.mid.modules[id], q.modules[id], Times(c.mid, id))
    ensures multiset(q.proceeded)[id] == if r.modules[id].Absent? then 0 else Times(c.mid, id)
  {
    HandlingOutcome(r, c.workers, c.inbox, c.first, c.mid);
    forall i | 0 <= i < |r.modules| ensures !c.mid.modules[i].Activating? { NeverActivating(r.modules[i], c.inbox(i)); }
    ProceedingOutcome(c.mid, c.workers, c.cleared, c.verdicts, c.second, q, id);
  }

  /** The counter of valid ids is the number of different ones when none is there twice. */
  lemma {:induction false} ValidCountIsCardinality(ids: seq<nat>, valid: set<nat>)
    requires INVALID !in valid
    requires forall id :: id != INVALID ==> multiset(ids)[id] == if id in valid then 1 else 0
    ensures IdArrays.ValidCount(ids) == |valid|
  {
    if ids == [] {
      assert forall id :: id in valid ==> multiset(ids)[id] == 1;
      assert valid == {};
    } else {
      var rest, last := ids[..|ids| - 1], ids[|ids| - 1];
      assert ids == rest + [last];
      forall id | id != INVALID ensures multiset(rest)[id] == if id in valid - {last} then 1 else 0 {
        assert multiset(ids)[id] == multiset(rest)[id] + if id == last then 1 else 0;
      }
      ValidCountIsCardinality(rest, valid - {last});
    }
  }

  /** The condition that is left to check after a cycle. */
  predicate Settled(m: Module, times: nat) { !m.Activating? && !m.Deactivating? && times == if m.Active? then 1 else 0 }

  lemma ExactIff(r: Roster)
    requires Counted(r)
    ensures Exact(r) <==> forall id :: 0 <= id < |r.modules| ==> Settled(r.modules[id], Times(r, id))
  {
    if forall id :: 0 <= id < |r.modules| ==> Settled(r.modules[id], Times(r, id)) {
      var active := set id: nat | id < |r.modules| && r.modules[id].Active?;
      assert forall id: nat :: id != INVALID ==> multiset(r.ids)[id] == Times(r, id) == if id in active then 1 else 0;
      ValidCountIsCardinality(r.ids, active);
      assert active == set id | 0 <= id < |r.modules| && r.modules[id].Active?;
    }
  }

  /** `proceed` is called once on a module that is active or stopping, and not at all on any other. */
  predicate CalledRight(m: Module, calls: nat) { calls == if m.Active? || m.Deactivating? then 1 else 0 }

  ghost predicate AllCalledRight(modules: seq<Module>, proceeded: seq<nat>) {
    forall id :: 0 <= id < |modules| ==> CalledRight(modules[id], multiset(proceeded)[id])
  }

  /** One module over one cycle, all in terms of whether its messages turn it back. */
  lemma ModuleCycleIff(m: Module, times: nat, requests: seq<Request>, stops: bool, left: nat)
    requires ListedRight(m, times)
    requires left == TimesAfter(AfterHandling(m, requests), AfterCycle(m, times, requests, stops), times + Pushes(m, requests))
    ensures var calls := if m.Absent? then 0 else times + Pushes(m, requests);
      && (CalledRight(AfterHandling(m, requests), calls) <==> !Turned(m, requests))
      && (Settled(AfterCycle(m, times, requests, stops), left) <==> !Turned(m, requests))
      && (ListedRight(AfterCycle(m, times, requests, stops), left) <==> !Turned(m, requests))
  {
    ModuleListedIff(m, times, requests);
    NeverActivating(m, requests);
    if m.Absent? { assert AfterHandling(m, requests) == Absent && !Turned(m, requests); }
    hide Turned, Pushes;
  }

  /**
   * One cycle, by any number of threads and under any interleaving, which begins with every module listed as its state
   * wants. If and only if no waiting messages turn a module back, the list is right after the first stage; `proceed` is
   * called once on every module that is active or stopping then, and on no other; and afterwards the valid busy ids
   * are exactly the active modules and no module is in the middle of a transition.
   */
  lemma CycleIsExact(r: Roster, c: Cycle, q: Roster)
    requires Cycled(r, c, q) && Listing(r)
    ensures |q.modules| == |c.mid.modules| == |r.modules|
    ensures Listing(c.mid) <==> Smooth(r, c.inbox)
    ensures AllCalledRight(c.mid.modules, q.proceeded) <==> Smooth(r, c.inbox)
    ensures Exact(q) <==> Smooth(r, c.inbox)
    ensures Listing(q) <==> Smooth(r, c.inbox)
  {
    HandlingKeepsListingIff(r, c.workers, c.inbox, c.first, c.mid);
    HandlingOutcome(r, c.workers, c.inbox, c.first, c.mid);
    CycleCounted(r, c, q);
    hide Cycled, HandlingStage, ProceedingStage, Counted, AfterHandling, AfterCycle, Turned, Pushes, ListedRight, Settled, CalledRight;
    forall id | 0 <= id < |r.modules|
      ensures CalledRight(c.mid.modules[id], multiset(q.proceeded)[id]) <==> !Turned(r.modules[id], c.inbox(id))
      ensures Settled(q.modules[id], Times(q, id)) <==> !Turned(r.modules[id], c.inbox(id))
      ensures ListedRight(q.modules[id], Times(q, id)) <==> !Turned(r.modules[id], c.inbox(id))
    {
      CycleOutcome(r, c, q, id);
      assert ListedRight(r.modules[id], Times(r, id));
      hide TimesAfter, Times;
      ModuleCycleIff(r.modules[id], Times(r, id), c.inbox(id), c.verdicts(id), Times(q, id));
    }
    ExactIff(q);
    hide Exact;
  }

  lemma CycleCounted(r: Roster, c: Cycle, q: Roster)
    requires Cycled(r, c, q) && Counted(r)
    ensures Counted(q) && |q.modules| == |c.mid.modules| == |r.modules|
  {
    HandlingOutcome(r, c.workers, c.inbox, c.first, c.mid);
    forall i | 0 <= i < |r.modules| ensures !c.mid.modules[i].Activating? { NeverActivating(r.modules[i], c.inbox(i)); }
    ProceedingCounted(c.mid, c.workers, c.cleared, c.verdicts, c.second, q);
  }

  /**
   * What happens to a module that its messages turn back. An active or stopping one is listed twice, `proceed` is called
   * twice on it, and one entry stays when it stops; an idle or activating one is left stopping and is not listed.
   */
  lemma TurnedOutcome(r: Roster, c: Cycle, q: Roster, id: nat)
    requires Cycled(r, c, q) && Listing(r) && id < |r.modules| && Turned(r.modules[id], c.inbox(id))
    ensures id < |c.mid.modules| == |q.modules|
    ensures r.modules[id].Active? || r.modules[id].Deactivating? ==>
      && c.mid.modules[id] == Active && Times(c.mid, id) == 2 && multiset(q.proceeded)[id] == 2
      && (if c.verdicts(id) then q.modules[id] == Idle && Times(q, id) == 1
          else q.modules[id] == Active && Times(q, id) == 2)
    ensures r.modules[id].Idle? || r.modules[id].Activating? ==>
      && c.mid.modules[id] == Deactivating && q.modules[id] == Deactivating
      && Times(c.mid, id) == 0 && Times(q, id) == 0 && multiset(q.proceeded)[id] == 0
  {
    CycleOutcome(r, c, q, id);
    ModuleListedIff(r.modules[id], Times(r, id), c.inbox(id));
  }

  /* Histories: cycles, with modules created and destroyed in between. */

  /** A module is created idle, or activating if its constructor starts it. A closed session may stop its module. */
  datatype Event =
    | Turn(cycle: Cycle)
    | Destroy(id: nat)
    | Create(id: nat, started: bool)
    | Close(id: nat)

  ghost predicate Happens(r: Roster, e: Event, q: Roster) {
    match e
    case Turn(cycle) => Cycled(r, cycle, q)
    case Destroy(id) => id < |r.modules| && q == r.(modules := r.modules[id := Absent])
    case Create(id, started) =>
      var m := if started then Activating else Idle;
      && id <= |r.modules| && |r.modules| + 1 < INVALID && (id < |r.modules| ==> r.modules[id].Absent?)
      && q == r.(modules := if id < |r.modules| then r.modules[id := m] else r.modules + [m])
    case Close(id) =>
      id < |r.modules| && !r.modules[id].Absent? && q == r.(modules := r.modules[id := SwitchToIdle(r.modules[id])])
  }

  /** What keeps the list right: a condition on the roster and on what waits for the modules before the event. */
  ghost predicate Harmless(r: Roster, e: Event) {
    match e
    case Turn(cycle) => Smooth(r, cycle.inbox)
    case Destroy(_) => true
    case Create(id, _) => id !in r.ids
    case Close(id) => id < |r.modules| && !r.modules[id].Activating?
  }

  /** A new module may take a free id if and only if that id is no longer listed. */
  lemma CreateKeepsListing(r: Roster, id: nat, started: bool, q: Roster)
    requires Listing(r) && Happens(r, Create(id, started), q)
    ensures Listing(q) <==> id !in r.ids
  {
    assert forall i :: Times(q, i) == Times(r, i);
    assert id in r.ids <==> Times(r, id) > 0;
    if id in r.ids { assert !ListedRight(q.modules[id], Times(q, id)); }
  }

  lemma CloseKeepsListing(r: Roster, id: nat, q: Roster)
    requires Listing(r) && Happens(r, Close(id), q)
    ensures Listing(q) <==> !r.modules[id].Activating?
  {
    assert forall i :: Times(q, i) == Times(r, i);
    assert ListedRight(r.modules[id], Times(r, id));
    if r.modules[id].Activating? { assert !ListedRight(q.modules[id], Times(q, id)); }
  }

  lemma EventKeepsListing(r: Roster, e: Event, q: Roster)
    requires Listing(r) && Happens(r, e, q)
    ensures Listing(q) <==> Harmless(r, e)
  {
    match e
    case Turn(cycle) => CycleIsExact(r, cycle, q);
    case Destroy(_) => assert forall i :: Times(q, i) == Times(r, i);
    case Create(id, started) => CreateKeepsListing(r, id, started, q);
    case Close(id) => CloseKeepsListing(r, id, q);
  }

  ghost predicate History(rosters: seq<Roster>, events: seq<Event>) {
    |rosters| == |events| + 1 && forall i :: 0 <= i < |events| ==> Happens(rosters[i], events[i], rosters[i + 1])
  }

  /** Every module stays listed as its state wants over a history if and only if all its events are harmless. */
  lemma {:induction false} HistoryStaysListed(rosters: seq<Roster>, events: seq<Event>, n: nat)
    requires History(rosters, events) && Listing(rosters[0]) && n <= |events|
    ensures (forall k :: 0 <= k <= n ==> Listing(rosters[k])) <==>
      forall k :: 0 <= k < n ==> Harmless(rosters[k], events[k])
  {
    if n > 0 {
      HistoryStaysListed(rosters, events, n - 1);
      assert Happens(rosters[n - 1], events[n - 1], rosters[n - 1 + 1]);
      hide Happens, Listing, Harmless;
      if Listing(rosters[n - 1]) { EventKeepsListing(rosters[n - 1], events[n - 1], rosters[n]); }
    }
  }

  /** Over any history of harmless events every cycle ends exact. */
  lemma CyclesStayExact(rosters: seq<Roster>, events: seq<Event>, n: nat)
    requires History(rosters, events) && Listing(rosters[0]) && 0 < n <= |events| && events[n - 1].Turn?
    requires forall k :: 0 <= k < n ==> Harmless(rosters[k], events[k])
    ensures Exact(rosters[n])
  {
    HistoryStaysListed(rosters, events, n - 1);
    assert Happens(rosters[n - 1], events[n - 1], rosters[n - 1 + 1]) && Harmless(rosters[n - 1], events[n - 1]);
    CycleIsExact(rosters[n - 1], events[n - 1].cycle, rosters[n]);
  }
}
