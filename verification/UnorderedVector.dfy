/** A vector that does not keep the order of its elements: removal moves the last one into the gap. */
module UnorderedVectors {
  /** Fill the gap at `i` with the last element. */
  function RemoveAt<T>(s: seq<T>, i: nat): seq<T>
    requires i < |s|
  {
    if i < |s| - 1 then s[i := s[|s| - 1]][..|s| - 1] else s[..|s| - 1]
  }

  function Find<T(==)>(s: seq<T>, v: T): (i: nat)
    ensures i <= |s| && (i < |s| <==> v in s) && (i < |s| ==> s[i] == v && v !in s[..i])
  {
    if s == [] then 0
    else if s[0] == v then 0
    else
      var j := Find(s[1..], v);
      assert s == [s[0]] + s[1..];
      assert j < |s[1..]| ==> s[..j + 1] == [s[0]] + s[1..][..j];
      j + 1
  }

  /** Append a value that is not there yet. */
  function PushNew<T(==)>(s: seq<T>, v: T): seq<T> { if v in s then s else s + [v] }

  function RemoveFirst<T(==)>(s: seq<T>, v: T): seq<T> {
    if Find(s, v) < |s| then RemoveAt(s, Find(s, v)) else s
  }

  ghost predicate NoDuplicates<T(!new)>(s: seq<T>) { forall v :: multiset(s)[v] <= 1 }

  /** Removing at a position takes out that occurrence and nothing else. */
  lemma RemoveAtTakesOne<T>(s: seq<T>, i: nat)
    requires i < |s|
    ensures multiset(RemoveAt(s, i)) == multiset(s) - multiset{s[i]}
    ensures |RemoveAt(s, i)| == |s| - 1
  {
    var last := s[|s| - 1];
    if i < |s| - 1 {
      var a, b := s[..i], s[i + 1..|s| - 1];
      var removed := RemoveAt(s, i);
      assert s == a + [s[i]] + b + [last];
      assert removed == a + [last] + b;
      MovedIntoGap(a, s[i], b, last);
    } else {
      assert s == s[..|s| - 1] + [last];
    }
  }

  lemma MovedIntoGap<T>(a: seq<T>, x: T, b: seq<T>, last: T)
    ensures multiset(a + [last] + b) == multiset(a + [x] + b + [last]) - multiset{x}
  {}

  /** The last element is moved into the gap; all the others stay where they are. */
  lemma RemoveAtMovesLast<T>(s: seq<T>, i: nat, k: nat)
    requires i < |s| && k < |s| - 1
    ensures |RemoveAt(s, i)| == |s| - 1 && RemoveAt(s, i)[k] == if k == i then s[|s| - 1] else s[k]
  {}

  lemma RemoveFirstTakesOne<T>(s: seq<T>, v: T)
    ensures multiset(RemoveFirst(s, v)) == multiset(s) - multiset{v}
    ensures v in s ==> |RemoveFirst(s, v)| == |s| - 1
  {
    if v in s { RemoveAtTakesOne(s, Find(s, v)); }
  }

  class UnorderedVector<T(==,!new)> {
    var data: seq<T>

    constructor ()
      ensures data == []
    {
      data := [];
    }

    method IndexOf(item: T) returns (i: nat)
      ensures i == Find(data, item)
    {
      i := 0;
      while i < |data|
        invariant 0 <= i <= |data|
        invariant item !in data[..i]
      {
        if data[i] == item {
          assert item in data[..Find(data, item) + 1];
          return;
        }
        i := i + 1;
      }
    }

    /** Append, unless the item is there already and the caller asks to check that. */
    method Push(item: T, checkIfExists: bool) returns (added: bool)
      modifies this
      ensures added <==> !(checkIfExists && item in old(data))
      ensures data == if checkIfExists then PushNew(old(data), item) else old(data) + [item]
      ensures NoDuplicates(old(data)) && (checkIfExists || item !in old(data)) ==> NoDuplicates(data)
    {
      if checkIfExists {
        var i := IndexOf(item);
        if i != |data| {
          return false;
        }
      }
      data := data + [item];
      return true;
    }

    method Remove(index: nat)
      requires index < |data|
      modifies this
      ensures data == RemoveAt(old(data), index)
    {
      if index < |data| - 1 {
        data := data[index := data[|data| - 1]];
      }
      data := data[..|data| - 1];
    }

    method RemoveFirstOf(value: T) returns (removed: bool)
      modifies this
      ensures removed <==> value in old(data)
      ensures data == RemoveFirst(old(data), value)
    {
      var i := 0;
      while i < |data|
        invariant 0 <= i <= |data| && data == old(data)
        invariant value !in data[..i]
      {
        if data[i] == value {
          assert value in data[..Find(data, value) + 1];
          Remove(i);
          return true;
        }
        i := i + 1;
      }
      return false;
    }

    /** Every occurrence of the value goes, every other element stays as often as it was there. */
    method RemoveAll(value: T) returns (total: nat)
      modifies this
      ensures total == multiset(old(data))[value]
      ensures multiset(data) == multiset(old(data))[value := 0]
    {
      total := 0;
      var i := 0;
      while i < |data|
        invariant 0 <= i <= |data|
        invariant value !in data[..i]
        invariant multiset(data)[value] + total == multiset(old(data))[value]
        invariant forall v :: v != value ==> multiset(data)[v] == multiset(old(data))[v]
        decreases |data| - i
      {
        if data[i] == value {
          RemoveAtTakesOne(data, i);
          assert RemoveAt(data, i)[..i] == data[..i];
          Remove(i);
          total := total + 1;
        } else {
          i := i + 1;
        }
      }
      assert data[..i] == data;
    }
  }
}
