/** A vector with an index from the key of an item to its position. */
module IndexedVectors {
  import opened Options
  import U = UnorderedVectors

  datatype Vec<Item, Key> = Vec(items: seq<Item>, index: map<Key, nat>)

  /** The index agrees with the items: it gives the position of each item by its key, and holds no other key. */
  ghost predicate Agrees<Item, Key>(v: Vec<Item, Key>, key: Item -> Key) {
    && (forall i: nat :: i < |v.items| ==> key(v.items[i]) in v.index && v.index[key(v.items[i])] == i)
    && (forall k :: k in v.index ==> v.index[k] < |v.items| && key(v.items[v.index[k]]) == k)
  }

  /** What the vector stands for. */
  ghost function Contents<Item, Key>(v: Vec<Item, Key>, key: Item -> Key): map<Key, Item>
    requires Agrees(v, key)
  {
    map k | k in v.index :: v.items[v.index[k]]
  }

  /** The reference for lookups: a linear search. */
  function Search<Item, Key(==)>(items: seq<Item>, key: Item -> Key, k: Key): Option<nat> {
    if items == [] then None
    else if key(items[|items| - 1]) == k then Some(|items| - 1)
    else Search(items[..|items| - 1], key, k)
  }

  function Push<Item, Key>(v: Vec<Item, Key>, key: Item -> Key, item: Item): Vec<Item, Key> {
    Vec(v.items + [item], v.index[key(item) := |v.items|])
  }

  /** The position of a key; the test compares it with the size of the index, not of the items. */
  function Get<Item, Key>(v: Vec<Item, Key>, k: Key): Option<nat> {
    if k in v.index && v.index[k] < |v.index| then Some(v.index[k]) else None
  }

  /** Fill the gap with the last item, and correct the index of the item that moved. */
  function RemoveItem<Item, Key>(v: Vec<Item, Key>, key: Item -> Key, id: nat): Vec<Item, Key>
    requires id < |v.items|
  {
    var items := U.RemoveAt(v.items, id);
    Vec(items, if id < |v.items| - 1 then v.index[key(items[id]) := id] else v.index)
  }

  /** Erase the key of an item, then take the item out. */
  function Take<Item, Key>(v: Vec<Item, Key>, key: Item -> Key, id: nat): (w: Vec<Item, Key>)
    requires id < |v.items|
    ensures |w.items| == |v.items| - 1
  {
    RemoveItem(v.(index := v.index - {key(v.items[id])}), key, id)
  }

  function Pop<Item, Key>(v: Vec<Item, Key>, key: Item -> Key, k: Key): (Vec<Item, Key>, Option<Item>) {
    if k in v.index && v.index[k] < |v.items|
    then (RemoveItem(v.(index := v.index - {k}), key, v.index[k]), Some(v.items[v.index[k]]))
    else (v, None)
  }

  function RemoveKey<Item, Key>(v: Vec<Item, Key>, key: Item -> Key, k: Key): (Vec<Item, Key>, bool)
    requires k in v.index ==> v.index[k] < |v.items|
  {
    if k in v.index
    then var w := RemoveItem(v, key, v.index[k]); (w.(index := w.index - {k}), true)
    else (v, false)
  }

  datatype Outcome<Item, Key> = Outcome(v: Vec<Item, Key>, removed: nat, tested: seq<Item>)

  /** Remove the matching items among the first `n`, from the last of them backwards. */
  function RemoveWhere<Item, Key>(v: Vec<Item, Key>, key: Item -> Key, matches: Item -> bool, n: nat): Outcome<Item, Key>
    requires n <= |v.items|
    decreases n
  {
    if n == 0 then Outcome(v, 0, [])
    else
      var item := v.items[n - 1];
      var r := RemoveWhere(if matches(item) then Take(v, key, n - 1) else v, key, matches, n - 1);
      Outcome(r.v, r.removed + if matches(item) then 1 else 0, [item] + r.tested)
  }

  /* Lookups. */

  lemma {:induction false} IndexSize<Item, Key>(v: Vec<Item, Key>, key: Item -> Key)
    requires Agrees(v, key)
    ensures |v.index| == |v.items|
    decreases |v.items|
  {
    assert |v.index| == |v.index.Keys|;
    if v.items == [] {
      assert v.index.Keys == {};
    } else {
      var n := |v.items| - 1;
      var k := key(v.items[n]);
      var w := Vec(v.items[..n], v.index - {k});
      assert v.index.Keys == w.index.Keys + {k};
      IndexSize(w, key);
    }
  }

  lemma {:induction false} SearchFinds<Item, Key>(items: seq<Item>, key: Item -> Key, k: Key)
    ensures Search(items, key, k).Some? <==> exists i :: 0 <= i < |items| && key(items[i]) == k
    ensures Search(items, key, k).Some? ==>
      Search(items, key, k).value < |items| && key(items[Search(items, key, k).value]) == k
  {
    if items != [] {
      var n := |items| - 1;
      SearchFinds(items[..n], key, k);
      if i :| 0 <= i < n && key(items[i]) == k { assert items[..n][i] == items[i]; }
    }
  }

  /** A lookup finds exactly what a linear search finds, and never meets the inconsistent state it tests for. */
  lemma GetIsSearch<Item, Key>(v: Vec<Item, Key>, key: Item -> Key, k: Key)
    requires Agrees(v, key)
    ensures Get(v, k) == Search(v.items, key, k)
    ensures k in v.index <==> Get(v, k).Some?
  {
    IndexSize(v, key);
    SearchFinds(v.items, key, k);
  }

  /* Changes. */

  /** Pushing keeps the index right if and only if the key is new. */
  lemma PushAgrees<Item, Key>(v: Vec<Item, Key>, key: Item -> Key, item: Item)
    requires Agrees(v, key)
    ensures Agrees(Push(v, key, item), key) <==> key(item) !in v.index
    ensures key(item) !in v.index ==> Contents(Push(v, key, item), key) == Contents(v, key)[key(item) := item]
  {
    var w := Push(v, key, item);
    if key(item) in v.index {
      var i := v.index[key(item)];
      assert w.items[i] == v.items[i];
      assert w.index[key(w.items[i])] == |v.items|;
    } else {
      assert Agrees(w, key);
    }
  }

  /** Two items with one key: the index no longer agrees, and a lookup of the key meets the inconsistent state. */
  lemma PushOfPresentKey()
    ensures var key := (item: (nat, nat)) => item.0;
      var v := Push(Vec([], map[]), key, (1, 10)); var w := Push(v, key, (1, 20));
      Agrees(v, key) && !Agrees(w, key) && 1 in w.index && Get(w, 1) == None
  {
    var key := (item: (nat, nat)) => item.0;
    var v: Vec<(nat, nat), nat> := Push(Vec([], map[]), key, (1, 10));
    PushAgrees(Vec([], map[]), key, (1, 10));
    PushAgrees(v, key, (1, 20));
    var w := Push(v, key, (1, 20));
    assert w.index == map[1 := 1];
    assert |w.index| == 1;
  }

  lemma TakeAgrees<Item, Key>(v: Vec<Item, Key>, key: Item -> Key, id: nat)
    requires Agrees(v, key) && id < |v.items|
    ensures Agrees(Take(v, key, id), key)
    ensures Contents(Take(v, key, id), key) == Contents(v, key) - {key(v.items[id])}
    ensures Take(v, key, id).items == U.RemoveAt(v.items, id)
  {}

  lemma PopAgrees<Item, Key>(v: Vec<Item, Key>, key: Item -> Key, k: Key)
    requires Agrees(v, key)
    ensures var (w, item) := Pop(v, key, k);
      && Agrees(w, key) && Contents(w, key) == Contents(v, key) - {k}
      && item == if k in Contents(v, key) then Some(Contents(v, key)[k]) else None
  {
    if k in v.index { TakeAgrees(v, key, v.index[k]); }
  }

  lemma RemoveKeyAgrees<Item, Key>(v: Vec<Item, Key>, key: Item -> Key, k: Key)
    requires Agrees(v, key)
    ensures RemoveKey(v, key, k).0 == Pop(v, key, k).0
    ensures RemoveKey(v, key, k).1 <==> k in v.index
  {
    if k in v.index {
      var id := v.index[k];
      var last := v.items[|v.items| - 1];
      if id < |v.items| - 1 {
        assert v.index[key(last)] == |v.items| - 1;
        assert (v.index - {k})[key(last) := id] == v.index[key(last) := id] - {k};
      }
    }
  }

  function Reverse<T>(s: seq<T>): seq<T> { if s == [] then [] else [s[|s| - 1]] + Reverse(s[..|s| - 1]) }

  ghost function Without<Item, Key>(contents: map<Key, Item>, matches: Item -> bool): map<Key, Item> {
    map k | k in contents && !matches(contents[k]) :: contents[k]
  }

  lemma NothingMatches<Item, Key>(v: Vec<Item, Key>, key: Item -> Key, matches: Item -> bool)
    requires Agrees(v, key) && forall i :: 0 <= i < |v.items| ==> !matches(v.items[i])
    ensures Without(Contents(v, key), matches) == Contents(v, key)
  {}

  lemma TakeMatching<Item, Key>(v: Vec<Item, Key>, key: Item -> Key, matches: Item -> bool, n: nat)
    requires Agrees(v, key) && n < |v.items| && matches(v.items[n])
    requires forall i :: n < i < |v.items| ==> !matches(v.items[i])
    ensures var w := Take(v, key, n);
      && Agrees(w, key) && Without(Contents(w, key), matches) == Without(Contents(v, key), matches)
      && |w.items| == |v.items| - 1 && w.items[..n] == v.items[..n]
      && forall i :: n <= i < |w.items| ==> !matches(w.items[i])
  {
    TakeAgrees(v, key, n);
    assert Contents(v, key)[key(v.items[n])] == v.items[n];
  }

  /** Every one of the first `n` items is tested once, last to first; the matching ones of them go, and no other. */
  lemma {:induction false} RemoveWhereExact<Item, Key>(v: Vec<Item, Key>, key: Item -> Key, matches: Item -> bool, n: nat)
    requires Agrees(v, key) && n <= |v.items|
    requires forall i :: n <= i < |v.items| ==> !matches(v.items[i])
    ensures var r := RemoveWhere(v, key, matches, n);
      && Agrees(r.v, key)
      && Contents(r.v, key) == Without(Contents(v, key), matches)
      && r.tested == Reverse(v.items[..n])
      && r.removed + |r.v.items| == |v.items|
    decreases n
  {
    if n == 0 {
      NothingMatches(v, key, matches);
    } else {
      assert v.items[..n][..n - 1] == v.items[..n - 1];
      if matches(v.items[n - 1]) {
        TakeMatching(v, key, matches, n - 1);
        hide Agrees, Contents, Without, Take;
        RemoveWhereExact(Take(v, key, n - 1), key, matches, n - 1);
      } else {
        hide Agrees, Contents, Without, Take;
        RemoveWhereExact(v, key, matches, n - 1);
      }
    }
  }

  /** The removal loop as a whole: what is left is what did not match, and no key is indexed beside it. */
  lemma RemoveAllMatching<Item, Key>(v: Vec<Item, Key>, key: Item -> Key, matches: Item -> bool)
    requires Agrees(v, key)
    ensures var r := RemoveWhere(v, key, matches, |v.items|);
      && Agrees(r.v, key) && r.tested == Reverse(v.items)
      && (forall k :: k in r.v.index <==> k in v.index && !matches(v.items[v.index[k]]))
      && (forall k :: k in r.v.index ==> r.v.items[r.v.index[k]] == v.items[v.index[k]])
      && r.removed == |set k | k in v.index && matches(v.items[v.index[k]])|
  {
    assert v.items[..|v.items|] == v.items;
    RemoveWhereExact(v, key, matches, |v.items|);
    var r := RemoveWhere(v, key, matches, |v.items|);
    var gone := set k | k in v.index && matches(v.items[v.index[k]]);
    forall k ensures k in r.v.index <==> k in v.index && !matches(v.items[v.index[k]]) {
      assert k in Contents(r.v, key) <==> k in Without(Contents(v, key), matches);
    }
    forall k | k in r.v.index ensures k in v.index && r.v.items[r.v.index[k]] == v.items[v.index[k]] {
      assert Contents(r.v, key)[k] == Without(Contents(v, key), matches)[k];
    }
    IndexSize(v, key);
    IndexSize(r.v, key);
    assert v.index.Keys == r.v.index.Keys + gone;
    assert |v.index| == |v.index.Keys| && |r.v.index| == |r.v.index.Keys|;
  }

  /* Runs of operations; pushed keys are new. */

  datatype Operation<!Item, Key> =
    | PushItem(item: Item) | PopKey(k: Key) | EraseKey(k: Key) | EraseWhere(matches: Item -> bool)

  function Apply<Item, Key>(v: Vec<Item, Key>, key: Item -> Key, op: Operation<Item, Key>): Vec<Item, Key>
    requires forall k :: k in v.index ==> v.index[k] < |v.items|
  {
    match op
    case PushItem(item) => Push(v, key, item)
    case PopKey(k) => Pop(v, key, k).0
    case EraseKey(k) => RemoveKey(v, key, k).0
    case EraseWhere(matches) => RemoveWhere(v, key, matches, |v.items|).v
  }

  /** What the operation means for the map of items by key. */
  ghost function ApplyTo<Item, Key>(contents: map<Key, Item>, key: Item -> Key, op: Operation<Item, Key>): map<Key, Item> {
    match op
    case PushItem(item) => contents[key(item) := item]
    case PopKey(k) => contents - {k}
    case EraseKey(k) => contents - {k}
    case EraseWhere(matches) => Without(contents, matches)
  }

  lemma ApplyRefines<Item, Key>(v: Vec<Item, Key>, key: Item -> Key, op: Operation<Item, Key>)
    requires Agrees(v, key) && (op.PushItem? ==> key(op.item) !in v.index)
    ensures Agrees(Apply(v, key, op), key)
    ensures Contents(Apply(v, key, op), key) == ApplyTo(Contents(v, key), key, op)
  {
    match op
    case PushItem(item) => PushAgrees(v, key, item);
    case PopKey(k) => PopAgrees(v, key, k);
    case EraseKey(k) => PopAgrees(v, key, k); RemoveKeyAgrees(v, key, k);
    case EraseWhere(matches) => RemoveWhereExact(v, key, matches, |v.items|);
  }

  ghost function RunTo<Item, Key>(contents: map<Key, Item>, key: Item -> Key, ops: seq<Operation<Item, Key>>): map<Key, Item>
    decreases |ops|
  {
    if ops == [] then contents else RunTo(ApplyTo(contents, key, ops[0]), key, ops[1..])
  }

  ghost predicate NewKeys<Item, Key>(contents: map<Key, Item>, key: Item -> Key, ops: seq<Operation<Item, Key>>)
    decreases |ops|
  {
    ops != [] ==>
      && (ops[0].PushItem? ==> key(ops[0].item) !in contents)
      && NewKeys(ApplyTo(contents, key, ops[0]), key, ops[1..])
  }

  ghost function Run<Item, Key>(v: Vec<Item, Key>, key: Item -> Key, ops: seq<Operation<Item, Key>>): Vec<Item, Key>
    requires Agrees(v, key) && NewKeys(Contents(v, key), key, ops)
    decreases |ops|
  {
    if ops == [] then v
    else
      ApplyRefines(v, key, ops[0]);
      Run(Apply(v, key, ops[0]), key, ops[1..])
  }

  /** Over any run the index agrees with the items, and together they are the map that the run describes. */
  lemma {:induction false} RunRefinesMap<Item, Key>(v: Vec<Item, Key>, key: Item -> Key, ops: seq<Operation<Item, Key>>)
    requires Agrees(v, key) && NewKeys(Contents(v, key), key, ops)
    ensures var w := Run(v, key, ops); Agrees(w, key) && Contents(w, key) == RunTo(Contents(v, key), key, ops)
    decreases |ops|
  {
    if ops != [] {
      ApplyRefines(v, key, ops[0]);
      hide ApplyTo, Contents, Apply;
      RunRefinesMap(Apply(v, key, ops[0]), key, ops[1..]);
    }
  }

  lemma RemoveWhereAgrees<Item, Key>(v: Vec<Item, Key>, key: Item -> Key, matches: Item -> bool)
    requires Agrees(v, key)
    ensures Agrees(RemoveWhere(v, key, matches, |v.items|).v, key)
  {
    RemoveWhereExact(v, key, matches, |v.items|);
  }

  lemma TestedInOrder<Item>(a: seq<Item>, item: Item, b: seq<Item>)
    ensures a + ([item] + b) == a + [item] + b
  {}

  lemma RemoveWhereTurn<Item, Key>(v: Vec<Item, Key>, key: Item -> Key, matches: Item -> bool, n: nat)
    requires n <= |v.items|
    ensures n == 0 ==> RemoveWhere(v, key, matches, n) == Outcome(v, 0, [])
    ensures n > 0 ==>
      var item := v.items[n - 1];
      var r := RemoveWhere(if matches(item) then Take(v, key, n - 1) else v, key, matches, n - 1);
      RemoveWhere(v, key, matches, n) == Outcome(r.v, r.removed + if matches(item) then 1 else 0, [item] + r.tested)
  {}

  class IndexedVector<Item, Key(==)> {
    const key: Item -> Key
    var items: seq<Item>
    var index: map<Key, nat>

    function State(): Vec<Item, Key>
      reads this
    {
      Vec(items, index)
    }

    ghost predicate Valid()
      reads this
    {
      Agrees(State(), key)
    }

    constructor (key: Item -> Key)
      ensures Valid() && this.key == key && State() == Vec([], map[])
    {
      this.key := key;
      items, index := [], map[];
    }

    method Append(item: Item)
      requires Valid()
      modifies this
      ensures State() == Push(old(State()), key, item)
      ensures Valid() <==> key(item) !in old(index)
    {
      PushAgrees(State(), key, item);
      index := index[key(item) := |items|];
      items := items + [item];
    }

    method Lookup(k: Key) returns (position: Option<nat>)
      requires Valid()
      ensures position == Search(items, key, k)
    {
      GetIsSearch(State(), key, k);
      if k in index {
        var id := index[k];
        if id < |index| {
          return Some(id);
        }
      }
      return None;
    }

    method RemoveAt(id: nat)
      requires id < |items|
      modifies this
      ensures State() == RemoveItem(old(State()), key, id)
    {
      if id < |items| - 1 {
        items := items[id := items[|items| - 1]][|items| - 1 := items[id]];
        index := index[key(items[id]) := id];
      }
      items := items[..|items| - 1];
    }

    method TakeAt(id: nat)
      requires id < |items|
      modifies this
      ensures Vec(items, index) == Take(Vec(old(items), old(index)), key, id) && |items| == |old(items)| - 1
    {
      index := index - {key(items[id])};
      RemoveAt(id);
    }

    method PopItem(k: Key) returns (item: Option<Item>)
      requires Valid()
      modifies this
      ensures (State(), item) == Pop(old(State()), key, k) && Valid()
    {
      PopAgrees(State(), key, k);
      if k in index {
        var id := index[k];
        item := Some(items[id]);
        index := index - {k};
        RemoveAt(id);
      } else {
        item := None;
      }
    }

    method Remove(k: Key) returns (found: bool)
      requires Valid()
      modifies this
      ensures (State(), found) == RemoveKey(old(State()), key, k) && Valid()
    {
      PopAgrees(State(), key, k);
      RemoveKeyAgrees(State(), key, k);
      if k in index {
        RemoveAt(index[k]);
        index := index - {k};
        found := true;
      } else {
        found := false;
      }
    }

    method RemoveMatching(matches: Item -> bool) returns (removed: nat, ghost tested: seq<Item>)
      requires Valid()
      modifies this
      ensures Outcome(State(), removed, tested) == RemoveWhere(old(State()), key, matches, |old(items)|) && Valid()
    {
      hide Agrees, RemoveWhere, Take, RemoveItem;
      RemoveWhereAgrees(State(), key, matches);
      ghost var goal := RemoveWhere(State(), key, matches, |items|);
      ghost var rest := goal;
      removed, tested := 0, [];
      var id := |items| - 1;
      while id >= 0
        invariant -1 <= id < |items| && rest == RemoveWhere(Vec(items, index), key, matches, id + 1)
        invariant goal.v == rest.v && goal.removed == removed + rest.removed && goal.tested == tested + rest.tested
      {
        var item := items[id];
        RemoveWhereTurn(Vec(items, index), key, matches, id + 1);
        ghost var v := Vec(items, index);
        ghost var next := RemoveWhere(if matches(item) then Take(v, key, id) else v, key, matches, id);
        TestedInOrder(tested, item, next.tested);
        tested := tested + [item];
        if matches(item) {
          TakeAt(id);
          removed := removed + 1;
        }
        rest := next;
        id := id - 1;
      }
      RemoveWhereTurn(Vec(items, index), key, matches, 0);
    }
  }
}
