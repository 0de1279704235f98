/** A pool of ids: released ids are kept sorted so that the smallest one is handed out again first. */
module IdPool {
  const INVALID: nat := 0xFFFF_FFFF

  datatype Pool = Pool(first: nat, last: nat, next: nat, available: seq<nat>)

  predicate Descending(s: seq<nat>) { forall i, j :: 0 <= i < j < |s| ==> s[i] > s[j] }

  predicate Valid(p: Pool) {
    && p.first <= p.next <= p.last + 1 <= INVALID
    && Descending(p.available)
    && forall i :: 0 <= i < |p.available| ==> p.first <= p.available[i] < p.next
  }

  predicate InUse(p: Pool, id: nat) { p.first <= id < p.next && id !in p.available }

  function GetNext(p: Pool): (r: (Pool, nat)) {
    var n := |p.available|;
    if n > 0 then (p.(available := p.available[..n - 1]), p.available[n - 1])
    else if p.next <= p.last then (p.(next := p.next + 1), p.next)
    else (p, INVALID)
  }

  /** Put `id` in its place among ids sorted in descending order. */
  function Insert(s: seq<nat>, id: nat): seq<nat> {
    var n := |s|;
    if n == 0 || s[n - 1] > id then s + [id] else Insert(s[..n - 1], id) + [s[n - 1]]
  }

  function Release(p: Pool, id: nat): Pool
    requires p.next > 0
  {
    if id + 1 < p.next then p.(available := Insert(p.available, id)) else p.(next := p.next - 1)
  }

  /** The id handed out is the smallest one of the range that is not in use, and from then on it is in use. */
  lemma GetNextIsSmallestFree(p: Pool)
    requires Valid(p)
    ensures var (q, id) := GetNext(p);
      && Valid(q)
      && (id != INVALID <==> exists i :: p.first <= i <= p.last && !InUse(p, i))
      && (id != INVALID ==> p.first <= id <= p.last && !InUse(p, id) && forall i :: p.first <= i < id ==> InUse(p, i))
      && (forall i :: InUse(q, i) <==> InUse(p, i) || (i == id && id != INVALID))
  {
    var n := |p.available|;
    if n > 0 {
      assert p.available == p.available[..n - 1] + [p.available[n - 1]];
      assert !InUse(p, p.available[n - 1]);
    } else if p.next <= p.last {
      assert !InUse(p, p.next);
    }
  }

  lemma {:induction false} InsertKeepsOrder(s: seq<nat>, id: nat)
    requires Descending(s) && id !in s
    ensures Descending(Insert(s, id)) && multiset(Insert(s, id)) == multiset(s) + multiset{id}
  {
    var n := |s|;
    if n > 0 && s[n - 1] <= id {
      assert s == s[..n - 1] + [s[n - 1]];
      InsertKeepsOrder(s[..n - 1], id);
      var t := Insert(s[..n - 1], id);
      forall i | 0 <= i < |t| ensures t[i] > s[n - 1] {
        assert t[i] in multiset(t);
        assert t[i] == id || t[i] in s[..n - 1];
      }
    }
  }

  lemma InsertFirst(id: nat)
    ensures Insert([], id) == [id]
  {}

  lemma InsertStep(s: seq<nat>, id: nat, i: nat)
    requires 0 < i <= |s| && Insert(s, id) == Insert(s[..i], id) + s[i..]
    ensures s[i - 1] > id ==> Insert(s, id) == s[..i] + [id] + s[i..]
    ensures s[i - 1] <= id ==> Insert(s, id) == Insert(s[..i - 1], id) + s[i - 1..]
  {
    assert s[..i][..i - 1] == s[..i - 1];
    assert s[i - 1..] == [s[i - 1]] + s[i..];
  }

  lemma SwapWithPrevious(s: seq<nat>, id: nat, i: nat)
    requires 0 < i <= |s|
    ensures (s[..i] + [id] + s[i..])[i - 1 := id][i := s[i - 1]] == s[..i - 1] + [id] + s[i - 1..]
  {}

  lemma InsertMembers(s: seq<nat>, id: nat, i: nat)
    requires Descending(s) && id !in s
    ensures i in Insert(s, id) <==> i in s || i == id
  {
    InsertKeepsOrder(s, id);
    hide Insert, Descending;
    assert i in Insert(s, id) <==> i in multiset(Insert(s, id));
  }

  /** Releasing an id takes it, and no other one, out of use. */
  lemma ReleaseFrees(p: Pool, id: nat)
    requires Valid(p) && InUse(p, id)
    ensures Valid(Release(p, id))
    ensures forall i :: InUse(Release(p, id), i) <==> InUse(p, i) && i != id
  {
    if id + 1 < p.next {
      InsertKeepsOrder(p.available, id);
      hide Insert;
      var t := Insert(p.available, id);
      forall i: nat ensures i in t <==> i in p.available || i == id {
        InsertMembers(p.available, id, i);
      }
      forall k | 0 <= k < |t| ensures p.first <= t[k] < p.next {
        assert t[k] in t;
      }
    }
  }

  class SimpleIdPool {
    const first: nat
    const last: nat
    var next: nat
    var available: seq<nat>

    function State(): Pool
      reads this
    {
      Pool(first, last, next, available)
    }

    constructor (first: nat, last: nat)
      requires first <= last + 1 <= INVALID
      ensures State() == Pool(first, last, first, []) && Valid(State())
      ensures forall id :: !InUse(State(), id)
    {
      this.first, this.last, next, available := first, last, first, [];
    }

    method TakeNext() returns (id: nat)
      modifies this
      ensures (State(), id) == GetNext(old(State()))
    {
      if |available| > 0 {
        id := available[|available| - 1];
        available := available[..|available| - 1];
      } else if next <= last {
        id := next;
        next := next + 1;
      } else {
        id := INVALID;
      }
    }

    method PutBack(id: nat)
      requires Valid(State()) && InUse(State(), id)
      modifies this
      ensures State() == Release(old(State()), id)
    {
      if id + 1 < next {
        available := available + [id];
        DrawLastElement();
      } else {
        next := next - 1;
      }
    }

    /** Swap the last element leftwards to its place. */
    method DrawLastElement()
      requires |available| > 0 && Descending(available[..|available| - 1])
      requires available[|available| - 1] !in available[..|available| - 1]
      modifies this`available
      ensures var n := |old(available)| - 1; available == Insert(old(available)[..n], old(available)[n])
    {
      ghost var s, id := available[..|available| - 1], available[|available| - 1];
      hide Insert, Descending;
      var i := |available| - 1;
      assert s[..i] + [id] + s[i..] == available;
      assert s[..i] == s && s[i..] == [];
      while i > 0
        invariant 0 <= i <= |s|
        invariant available == s[..i] + [id] + s[i..]
        invariant Insert(s, id) == Insert(s[..i], id) + s[i..]
      {
        assert available[i - 1] == s[i - 1] != id == available[i];
        InsertStep(s, id, i);
        SwapWithPrevious(s, id, i);
        if available[i - 1] < available[i] {
          available := available[i - 1 := available[i]][i := available[i - 1]];
        } else {
          return;
        }
        i := i - 1;
      }
      assert s[..0] == [];
      InsertFirst(id);
    }
  }
}
