/** The array of busy module ids: ids are appended, claimed one by one by many threads, and marked as removed. */
module IdArrays {
  import UnorderedVectors

  const INVALID: nat := 0xFFFF_FFFF

  /** How many elements are not marked as removed. */
  function ValidCount(ids: seq<nat>): (n: int)
    ensures n == |ids| - multiset(ids)[INVALID]
  {
    if ids == [] then 0
    else
      assert ids == ids[..|ids| - 1] + [ids[|ids| - 1]];
      ValidCount(ids[..|ids| - 1]) + if ids[|ids| - 1] == INVALID then 0 else 1
  }

  lemma DropCounts(ids: seq<nat>, i: nat)
    requires i < |ids| && ids[i] != INVALID
    ensures ValidCount(ids[i := INVALID]) == ValidCount(ids) - 1
    ensures multiset(ids[i := INVALID]) == multiset(ids) - multiset{ids[i]} + multiset{INVALID}
  {
    assert multiset(ids)[ids[i]] > 0;
  }

  lemma PushCounts(ids: seq<nat>, id: nat)
    requires id != INVALID
    ensures ValidCount(ids + [id]) == ValidCount(ids) + 1
    ensures multiset(ids + [id]) == multiset(ids) + multiset{id}
  {}

  /** Overwriting a mark by the last element and dropping the last one loses one mark and no id. */
  lemma FillGapCounts(ids: seq<nat>, i: nat)
    requires i < |ids| && ids[i] == INVALID
    ensures multiset(ids[i := ids[|ids| - 1]][..|ids| - 1])[INVALID := 0] == multiset(ids)[INVALID := 0]
    ensures ids[i := ids[|ids| - 1]][..|ids| - 1][..i] == ids[..i]
    ensures ValidCount(ids[i := ids[|ids| - 1]][..|ids| - 1]) == ValidCount(ids)
  {
    UnorderedVectors.RemoveAtTakesOne(ids, i);
    assert ids[i := ids[|ids| - 1]][..|ids| - 1] == UnorderedVectors.RemoveAt(ids, i);
    assert multiset(ids)[INVALID] > 0;
  }

  class IdArray {
    var ids: seq<nat>
    var total: nat
    var next: int

    ghost predicate Valid()
      reads this
    {
      total == ValidCount(ids)
    }

    constructor ()
      ensures Valid() && ids == []
    {
      ids, total, next := [], 0, -1;
    }

    method Push(id: nat)
      requires Valid()
      modifies this`ids, this`total
      ensures Valid() && ids == if id != INVALID then old(ids) + [id] else old(ids)
    {
      if id != INVALID {
        PushCounts(ids, id);
        ids := ids + [id];
        total := total + 1;
      }
    }

    method Size() returns (n: nat)
      requires Valid()
      ensures n == |ids| - multiset(ids)[INVALID]
    {
      n := total;
    }

    /** Take out all the marks, keeping every valid id as often as it was there. */
    method ClearInvalidIds()
      requires Valid()
      modifies this`ids
      ensures Valid() && |ids| == total
      ensures multiset(ids) == multiset(old(ids))[INVALID := 0]
    {
      hide ValidCount;
      var i := 0;
      while i < |ids|
        invariant 0 <= i <= |ids|
        invariant INVALID !in ids[..i]
        invariant multiset(ids)[INVALID := 0] == multiset(old(ids))[INVALID := 0]
        invariant ValidCount(ids) == total
        decreases |ids| - i
      {
        if ids[i] == INVALID {
          FillGapCounts(ids, i);
          ids := ids[i := ids[|ids| - 1]][..|ids| - 1];
        } else {
          i := i + 1;
        }
      }
      assert ids[..i] == ids;
    }

    method Begin()
      requires Valid()
      modifies this`ids, this`next
      ensures Valid() && |ids| == total && next == |ids| - 1
      ensures multiset(ids) == multiset(old(ids))[INVALID := 0]
    {
      ClearInvalidIds();
      next := |ids| - 1;
    }

    /** Claim the largest unclaimed index that holds an id. A negative counter stands for a wrapped-around one. */
    method GetNextId() returns (found: bool, id: nat, index: int)
      requires Valid() && next < |ids|
      modifies this`next
      ensures next == index - 1 < old(next)
      ensures found <==> exists k :: 0 <= k <= old(next) && ids[k] != INVALID
      ensures found ==> 0 <= index <= old(next) && ids[index] == id != INVALID
      ensures !found ==> index == if old(next) < 0 then old(next) else -1
      ensures found ==> forall k :: index < k <= old(next) ==> ids[k] == INVALID
    {
      while true
        invariant next <= old(next) && (next == old(next) || next >= -1)
        invariant forall k :: next < k <= old(next) && 0 <= k ==> ids[k] == INVALID
        decreases next + 1
      {
        index := next;
        next := next - 1;
        if 0 <= index < |ids| {
          if ids[index] != INVALID {
            return true, ids[index], index;
          }
        } else {
          return false, INVALID, index;
        }
      }
    }

    method DropIndex(index: nat)
      requires Valid() && index < |ids| && ids[index] != INVALID
      modifies this`ids, this`total
      ensures Valid() && ids == old(ids)[index := INVALID] && total == old(total) - 1
    {
      DropCounts(ids, index);
      ids := ids[index := INVALID];
      total := total - 1;
    }
  }
}
