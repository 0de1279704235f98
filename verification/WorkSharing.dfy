/** Several workers share a list of items by taking the next one from a common atomic counter. */
module WorkSharing {
  /** What a worker does with an item it claimed has two parts, the work itself and a check afterwards. */
  datatype Worker = Ready | Busy(item: nat) | Checked(item: nat) | Finished

  /** `log` lists the items whose work was done, in the order in which it was done. */
  datatype Sharing = Sharing(claimed: nat, workers: seq<Worker>, log: seq<nat>)

  function Begun(workers: nat): Sharing { Sharing(0, seq(workers, _ => Ready), []) }

  predicate Holds(w: Worker) { w.Busy? || w.Checked? }

  predicate Enabled(s: Sharing, w: nat) { w < |s.workers| && !s.workers[w].Finished? }

  /** The next step of worker `w`: claim, work, or check. Claiming past the limit ends the worker. */
  function Advance(s: Sharing, w: nat, limit: nat): Sharing
    requires Enabled(s, w)
  {
    match s.workers[w]
    case Ready =>
      s.(claimed := s.claimed + 1, workers := s.workers[w := if s.claimed < limit then Busy(s.claimed) else Finished])
    case Busy(k) => s.(workers := s.workers[w := Checked(k)], log := s.log + [k])
    case Checked(_) => s.(workers := s.workers[w := Ready])
  }

  predicate Done(s: Sharing) { forall i :: 0 <= i < |s.workers| ==> s.workers[i].Finished? }

  /** A worker that is not moved stays what it was. */
  lemma OthersStay(s: seq<Worker>, w: nat, now: Worker, other: Worker)
    requires w < |s| && other in s && other != s[w]
    ensures other in s[w := now]
  {
    var i :| 0 <= i < |s| && s[i] == other;
    assert s[w := now][i] == other;
  }

  /** The exclusive part: no two workers hold the same item, and the log tells who is past the work. */
  ghost predicate Exclusive(s: Sharing, limit: nat) {
    && (forall i :: 0 <= i < |s.workers| && Holds(s.workers[i]) ==> s.workers[i].item < s.claimed && s.workers[i].item < limit)
    && (forall i, j :: 0 <= i < j < |s.workers| && Holds(s.workers[i]) && Holds(s.workers[j]) ==>
      s.workers[i].item != s.workers[j].item)
    && (forall i :: 0 <= i < |s.workers| && Holds(s.workers[i]) ==> (s.workers[i].Checked? <==> s.workers[i].item in s.log))
    && (forall k :: k in s.log ==> k < s.claimed && k < limit)
    && (forall k :: multiset(s.log)[k] <= 1)
  }

  ghost predicate Inv(s: Sharing, limit: nat) {
    && Exclusive(s, limit)
    && (forall k: nat :: k < s.claimed && k < limit && k !in s.log ==> Busy(k) in s.workers)
    && (forall i :: 0 <= i < |s.workers| && s.workers[i].Finished? ==> limit <= s.claimed)
  }

  lemma AdvanceKeepsExclusive(s: Sharing, w: nat, limit: nat)
    requires Exclusive(s, limit) && Enabled(s, w)
    ensures Exclusive(Advance(s, w, limit), limit)
  {
    var t := Advance(s, w, limit);
    if s.workers[w].Busy? {
      assert multiset(t.log) == multiset(s.log) + multiset{s.workers[w].item};
      assert multiset(s.log)[s.workers[w].item] == 0;
    }
  }

  lemma AdvanceKeepsInv(s: Sharing, w: nat, limit: nat)
    requires Inv(s, limit) && Enabled(s, w)
    ensures Inv(Advance(s, w, limit), limit)
  {
    var t := Advance(s, w, limit);
    AdvanceKeepsExclusive(s, w, limit);
    hide Exclusive;
    forall k: nat | k < t.claimed && k < limit && k !in t.log ensures Busy(k) in t.workers {
      if k < s.claimed {
        OthersStay(s.workers, w, t.workers[w], Busy(k));
      } else {
        assert t.workers[w] == Busy(k);
      }
    }
  }

  /** When all workers of a non-empty team have finished, every item was worked on exactly once. */
  lemma EachItemOnce(s: Sharing, limit: nat, k: nat)
    requires Inv(s, limit) && Done(s) && |s.workers| > 0
    ensures multiset(s.log)[k] == if k < limit then 1 else 0
  {
    assert s.workers[0].Finished?;
    assert Busy(k) !in s.workers;
    assert k in s.log <==> multiset(s.log)[k] > 0;
  }
}
