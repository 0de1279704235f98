/** A pool of memory chunks of three sizes, cut from one arena; other requests are served by the heap. */
module ChunksPools {
  import opened Options

  datatype Class = Small | Medium | Huge

  /** Where the arena begins, and the size and the number of the chunks of each class. */
  datatype Layout = Layout(arena: int, small: nat, smalls: nat, medium: nat, mediums: nat, huge: nat, huges: nat)

  predicate Sized(l: Layout) { l.small > 0 && l.medium > 0 && l.huge > 0 }

  function Size(l: Layout, c: Class): nat { match c case Small => l.small case Medium => l.medium case Huge => l.huge }

  function Count(l: Layout, c: Class): nat { match c case Small => l.smalls case Medium => l.mediums case Huge => l.huges }

  /** The room that chunks laid one after the other take. */
  function Area(size: nat, count: nat): nat { if count == 0 then 0 else Area(size, count - 1) + size }

  lemma {:induction false} AreaIsProduct(size: nat, count: nat)
    ensures Area(size, count) == size * count
  {
    if count > 0 {
      AreaIsProduct(size, count - 1);
      assert size * count == size * (count - 1) + size;
    }
  }

  function Begin(l: Layout, c: Class): int {
    match c
    case Small => l.arena
    case Medium => l.arena + Area(l.small, l.smalls)
    case Huge => l.arena + Area(l.small, l.smalls) + Area(l.medium, l.mediums)
  }

  function End(l: Layout, c: Class): int { Begin(l, c) + Area(Size(l, c), Count(l, c)) }

  /** The addresses of the first `n` chunks of a class. */
  function Chunks(begin: int, size: nat, n: nat): (s: seq<int>)
    ensures |s| == n
    ensures forall i :: 0 <= i < n ==> s[i] == begin + Area(size, i)
  {
    if n == 0 then [] else Chunks(begin, size, n - 1) + [begin + Area(size, n - 1)]
  }

  function ChunksOf(l: Layout, c: Class): seq<int> { Chunks(Begin(l, c), Size(l, c), Count(l, c)) }

  datatype Pool = Pool(layout: Layout, small: seq<int>, medium: seq<int>, huge: seq<int>)

  function Free(p: Pool, c: Class): seq<int> { match c case Small => p.small case Medium => p.medium case Huge => p.huge }

  function SetFree(p: Pool, c: Class, free: seq<int>): Pool {
    match c
    case Small => p.(small := free)
    case Medium => p.(medium := free)
    case Huge => p.(huge := free)
  }

  function Fresh(l: Layout): Pool { Pool(l, ChunksOf(l, Small), ChunksOf(l, Medium), ChunksOf(l, Huge)) }

  predicate Serves(p: Pool, c: Class, size: nat) { size <= Size(p.layout, c) && |Free(p, c)| > 0 }

  /** The class that serves a request: the first that is large enough and not exhausted. */
  function Serving(p: Pool, size: nat): Option<Class> {
    if Serves(p, Small, size) then Some(Small)
    else if Serves(p, Medium, size) then Some(Medium)
    else if Serves(p, Huge, size) then Some(Huge)
    else None
  }

  /** `heap` is the block the heap would return. */
  function Get(p: Pool, size: nat, heap: int): (Pool, int) {
    match Serving(p, size)
    case Some(c) =>
      var free := Free(p, c);
      (SetFree(p, c, free[..|free| - 1]), free[|free| - 1])
    case None => (p, heap)
  }

  /** The class whose part of the arena holds an address. */
  function Owner(l: Layout, chunk: int): Option<Class> {
    if chunk < l.arena then None
    else if chunk < End(l, Small) then Some(Small)
    else if chunk < End(l, Medium) then Some(Medium)
    else if chunk < End(l, Huge) then Some(Huge)
    else None
  }

  function Release(p: Pool, chunk: int): Pool {
    match Owner(p.layout, chunk)
    case Some(c) => SetFree(p, c, Free(p, c) + [chunk])
    case None => p
  }

  /* What is outstanding: the requested size of every block that was returned and not released yet. */

  type Blocks = map<int, nat>

  /** The memory that belongs to a block. A heap block occupies at least one byte. */
  function Extent(l: Layout, chunk: int, size: nat): nat {
    match Owner(l, chunk)
    case Some(c) => Size(l, c)
    case None => if size == 0 then 1 else size
  }

  predicate Apart(l: Layout, a: int, m: nat, b: int, n: nat) { a + Extent(l, a, m) <= b || b + Extent(l, b, n) <= a }

  /** Each chunk of a class is either in the free list, once, or outstanding. */
  ghost predicate Partition(p: Pool, blocks: Blocks, c: Class) {
    forall a :: multiset(Free(p, c))[a] ==
      if a in ChunksOf(p.layout, c) && a !in blocks then 1 else 0
  }

  ghost predicate Partitioned(p: Pool, blocks: Blocks) { forall c :: Partition(p, blocks, c) }

  /** An outstanding block is a chunk of its class that is large enough, or lies outside the arena. */
  predicate Proper(l: Layout, a: int, size: nat) {
    match Owner(l, a)
    case Some(c) => a in ChunksOf(l, c) && size <= Size(l, c)
    case None => a + Extent(l, a, size) <= l.arena || End(l, Huge) <= a
  }

  ghost predicate Inv(p: Pool, blocks: Blocks) {
    && Sized(p.layout)
    && Partitioned(p, blocks)
    && (forall a :: a in blocks ==> Proper(p.layout, a, blocks[a]))
    && (forall a, b :: a in blocks && b in blocks && a != b ==> Apart(p.layout, a, blocks[a], b, blocks[b]))
  }

  /** What the heap promises: a block outside the arena that overlaps no other one. */
  ghost predicate HeapBlock(l: Layout, blocks: Blocks, a: int, size: nat) {
    && Owner(l, a).None? && Proper(l, a, size) && a !in blocks
    && (forall b :: b in blocks ==> Apart(l, a, size, b, blocks[b]))
  }

  lemma {:induction false} AreaGrows(size: nat, i: nat, n: nat)
    requires i < n
    ensures Area(size, i) + size <= Area(size, n)
  {
    if i < n - 1 { AreaGrows(size, i, n - 1); }
  }

  lemma ChunkBounds(l: Layout, c: Class, a: int)
    requires Sized(l) && a in ChunksOf(l, c)
    ensures Begin(l, c) <= a && a + Size(l, c) <= End(l, c)
    ensures Owner(l, a) == Some(c)
  {
    var i :| 0 <= i < Count(l, c) && ChunksOf(l, c)[i] == a;
    AreaGrows(Size(l, c), i, Count(l, c));
  }

  lemma ChunksApart(l: Layout, c: Class, a: int, b: int)
    requires Sized(l) && a in ChunksOf(l, c) && b in ChunksOf(l, c) && a != b
    ensures a + Size(l, c) <= b || b + Size(l, c) <= a
  {
    var i :| 0 <= i < Count(l, c) && ChunksOf(l, c)[i] == a;
    var j :| 0 <= j < Count(l, c) && ChunksOf(l, c)[j] == b;
    if i < j { AreaGrows(Size(l, c), i, j); } else { AreaGrows(Size(l, c), j, i); }
  }

  /** Different chunks, of any classes, do not overlap. */
  lemma PoolBlocksApart(l: Layout, c: Class, a: int, m: nat, d: Class, b: int, n: nat)
    requires Sized(l) && a in ChunksOf(l, c) && b in ChunksOf(l, d) && a != b
    ensures Apart(l, a, m, b, n)
  {
    ChunkBounds(l, c, a);
    ChunkBounds(l, d, b);
    if c == d { ChunksApart(l, c, a, b); }
  }

  lemma LastChunkIsNew(begin: int, size: nat, n: nat)
    requires size > 0 && n > 0
    ensures Chunks(begin, size, n) == Chunks(begin, size, n - 1) + [begin + Area(size, n - 1)]
    ensures begin + Area(size, n - 1) !in Chunks(begin, size, n - 1)
  {
    var rest := Chunks(begin, size, n - 1);
    forall i | 0 <= i < n - 1 ensures rest[i] != begin + Area(size, n - 1) {
      AreaGrows(size, i, n - 1);
    }
  }

  lemma {:induction false} ChunksOnce(begin: int, size: nat, n: nat, a: int)
    requires size > 0
    ensures multiset(Chunks(begin, size, n))[a] == if a in Chunks(begin, size, n) then 1 else 0
  {
    if n > 0 {
      LastChunkIsNew(begin, size, n);
      hide Area, Chunks;
      ChunksOnce(begin, size, n - 1, a);
    }
  }

  lemma FreshInv(l: Layout)
    requires Sized(l)
    ensures Inv(Fresh(l), map[])
  {
    forall c ensures Partition(Fresh(l), map[], c) {
      forall a ensures multiset(ChunksOf(l, c))[a] == if a in ChunksOf(l, c) then 1 else 0 {
        ChunksOnce(Begin(l, c), Size(l, c), Count(l, c), a);
      }
    }
  }

  lemma NotAChunk(p: Pool, c: Class, a: int)
    requires Sized(p.layout) && Owner(p.layout, a).None?
    ensures a !in ChunksOf(p.layout, c)
  {
    if a in ChunksOf(p.layout, c) { ChunkBounds(p.layout, c, a); }
  }

  /** A chunk belongs to one class only. */
  lemma OneClass(l: Layout, c: Class, d: Class, a: int)
    requires Sized(l) && a in ChunksOf(l, c) && c != d
    ensures a !in ChunksOf(l, d)
  {
    ChunkBounds(l, c, a);
    if a in ChunksOf(l, d) { ChunkBounds(l, d, a); }
  }

  lemma TakeKeepsPartition(p: Pool, blocks: Blocks, c: Class, size: nat)
    requires Sized(p.layout) && |Free(p, c)| > 0 && Partitioned(p, blocks)
    ensures var free := Free(p, c); var a := free[|free| - 1];
      && a in ChunksOf(p.layout, c) && a !in blocks
      && Partitioned(SetFree(p, c, free[..|free| - 1]), blocks[a := size])
  {
    var free := Free(p, c);
    var a := free[|free| - 1];
    var q := SetFree(p, c, free[..|free| - 1]);
    assert free == free[..|free| - 1] + [a];
    assert Partition(p, blocks, c) && multiset(free)[a] > 0;
    var after := blocks[a := size];
    forall d ensures Partition(q, after, d) {
      assert Partition(p, blocks, d);
      if d != c { OneClass(p.layout, c, d, a); }
    }
  }

  lemma TakenApart(l: Layout, blocks: Blocks, c: Class, a: int, size: nat, b: int)
    requires Sized(l) && a in ChunksOf(l, c) && b in blocks && a != b && Proper(l, b, blocks[b])
    ensures Apart(l, a, size, b, blocks[b])
  {
    ChunkBounds(l, c, a);
    match Owner(l, b)
    case Some(d) => PoolBlocksApart(l, c, a, size, d, b, blocks[b]);
    case None =>
  }

  /** A block of at least the requested size that overlaps none of the outstanding ones. */
  lemma GetKeepsInv(p: Pool, blocks: Blocks, size: nat, heap: int)
    requires Inv(p, blocks)
    requires Serving(p, size).None? ==> HeapBlock(p.layout, blocks, heap, size)
    ensures var (q, a) := Get(p, size, heap);
      && q.layout == p.layout && a !in blocks && Inv(q, blocks[a := size]) && size <= Extent(p.layout, a, size)
      && Owner(p.layout, a) == Serving(p, size)
  {
    var (q, a) := Get(p, size, heap);
    if Serving(p, size).Some? {
      var c := Serving(p, size).value;
      TakeKeepsPartition(p, blocks, c, size);
      ChunkBounds(p.layout, c, a);
      forall b | b in blocks ensures Apart(p.layout, a, size, b, blocks[b]) {
        TakenApart(p.layout, blocks, c, a, size, b);
      }
    } else {
      var after := blocks[a := size];
      forall c ensures Partition(q, after, c) {
        assert Partition(p, blocks, c);
        NotAChunk(p, c, heap);
      }
    }
  }

  /** A chunk returns to the free list of its own class and to no other; a heap block to none. */
  lemma ReleaseKeepsInv(p: Pool, blocks: Blocks, a: int)
    requires Inv(p, blocks) && a in blocks
    ensures Inv(Release(p, a), blocks - {a})
    ensures forall c :: Free(Release(p, a), c) == (if a in ChunksOf(p.layout, c) then Free(p, c) + [a] else Free(p, c))
  {
    var q, left := Release(p, a), blocks - {a};
    assert Proper(p.layout, a, blocks[a]);
    forall c
      ensures Partition(q, left, c)
      ensures Free(q, c) == if a in ChunksOf(p.layout, c) then Free(p, c) + [a] else Free(p, c)
    {
      assert Partition(p, blocks, c);
      match Owner(p.layout, a)
      case Some(d) => if c != d { OneClass(p.layout, d, c, a); }
      case None => NotAChunk(p, c, a);
    }
  }

  function Rank(c: Class): nat { match c case Small => 0 case Medium => 1 case Huge => 2 }

  /** The last free chunk of class `d` serves the request. */
  ghost predicate ServedFrom(p: Pool, size: nat, heap: int, d: Class) {
    && size <= Size(p.layout, d) && Free(p, d) != []
    && Get(p, size, heap) == (SetFree(p, d, Free(p, d)[..|Free(p, d)| - 1]), Free(p, d)[|Free(p, d)| - 1])
  }

  /** One class serves before all others that could; if the classes are in the order of their sizes, that is the class
      with the smallest chunks that are large enough. Only when no class can serve is the heap asked. */
  lemma FirstClassServes(p: Pool, size: nat, heap: int)
    ensures (forall c :: size > Size(p.layout, c) || Free(p, c) == []) ==> Get(p, size, heap) == (p, heap)
    ensures (exists c :: size <= Size(p.layout, c) && Free(p, c) != []) ==>
      exists d :: ServedFrom(p, size, heap, d) && forall c :: size <= Size(p.layout, c) && Free(p, c) != [] ==>
        && Rank(d) <= Rank(c)
        && (p.layout.small <= p.layout.medium <= p.layout.huge ==> Size(p.layout, d) <= Size(p.layout, c))
  {
    if c :| size <= Size(p.layout, c) && Free(p, c) != [] {
      assert Serves(p, c, size);
      assert ServedFrom(p, size, heap, Serving(p, size).value);
    }
  }

  /** A chunk that is given back at once leaves the pool as it was. */
  lemma GivenBack(p: Pool, blocks: Blocks, size: nat, heap: int)
    requires Inv(p, blocks) && (Serving(p, size).None? ==> HeapBlock(p.layout, blocks, heap, size))
    ensures var (q, a) := Get(p, size, heap); Release(q, a) == p
  {
    GetKeepsInv(p, blocks, size, heap);
    var (q, a) := Get(p, size, heap);
    if Serving(p, size).Some? {
      var free := Free(p, Serving(p, size).value);
      assert free == free[..|free| - 1] + [free[|free| - 1]];
    }
  }

  /* Runs of requests and releases. */

  datatype Event = Request(size: nat, heap: int) | GiveBack(chunk: int)

  ghost predicate Allowed(p: Pool, blocks: Blocks, e: Event) {
    match e
    case Request(size, heap) => Serving(p, size).None? ==> HeapBlock(p.layout, blocks, heap, size)
    case GiveBack(chunk) => chunk in blocks
  }

  function Step(p: Pool, blocks: Blocks, e: Event): (Pool, Blocks) {
    match e
    case Request(size, heap) => var (q, a) := Get(p, size, heap); (q, blocks[a := size])
    case GiveBack(chunk) => (Release(p, chunk), blocks - {chunk})
  }

  function Run(p: Pool, blocks: Blocks, events: seq<Event>): (Pool, Blocks)
    decreases events
  {
    if events == [] then (p, blocks)
    else var (q, left) := Step(p, blocks, events[0]); Run(q, left, events[1..])
  }

  ghost predicate AllowedRun(p: Pool, blocks: Blocks, events: seq<Event>)
    decreases events
  {
    events == [] ||
    (Allowed(p, blocks, events[0]) && var (q, left) := Step(p, blocks, events[0]); AllowedRun(q, left, events[1..]))
  }

  /** Over any run the free lists and the outstanding chunks partition the arena, and outstanding blocks never overlap. */
  lemma {:induction false} RunKeepsInv(p: Pool, blocks: Blocks, events: seq<Event>)
    requires Inv(p, blocks) && AllowedRun(p, blocks, events)
    ensures var (q, left) := Run(p, blocks, events); q.layout == p.layout && Inv(q, left)
    decreases events
  {
    if events != [] {
      match events[0] {
        case Request(size, heap) => GetKeepsInv(p, blocks, size, heap);
        case GiveBack(chunk) => ReleaseKeepsInv(p, blocks, chunk);
      }
      var (q, left) := Step(p, blocks, events[0]);
      hide Inv;
      RunKeepsInv(q, left, events[1..]);
    }
  }

  /** From a new pool: when everything has been given back, every chunk is in the free list of its class again, once. */
  lemma AllReturned(l: Layout, events: seq<Event>, c: Class, a: int)
    requires Sized(l) && AllowedRun(Fresh(l), map[], events) && Run(Fresh(l), map[], events).1 == map[]
    ensures multiset(Free(Run(Fresh(l), map[], events).0, c))[a] == if a in ChunksOf(l, c) then 1 else 0
  {
    FreshInv(l);
    RunKeepsInv(Fresh(l), map[], events);
    assert Partition(Run(Fresh(l), map[], events).0, map[], c);
  }

  /** Cut `count` chunks, one after the other, from `begin` on. */
  method Cut(begin: int, size: nat, count: nat) returns (chunks: seq<int>, next: int)
    ensures chunks == Chunks(begin, size, count) && next == begin + size * count
  {
    chunks, next := [], begin;
    for i := 0 to count
      invariant chunks == Chunks(begin, size, i) && next == begin + Area(size, i)
    {
      chunks := chunks + [next];
      next := next + size;
    }
    AreaIsProduct(size, count);
  }

  class ChunksPool {
    const layout: Layout
    var small: seq<int>
    var medium: seq<int>
    var huge: seq<int>

    function State(): Pool
      reads this
    {
      Pool(layout, small, medium, huge)
    }

    constructor (layout: Layout)
      requires Sized(layout)
      ensures State() == Fresh(layout) && Inv(State(), map[])
    {
      this.layout := layout;
      small, medium, huge := [], [], [];
      new;
      var next;
      small, next := Cut(layout.arena, layout.small, layout.smalls);
      AreaIsProduct(layout.small, layout.smalls);
      medium, next := Cut(next, layout.medium, layout.mediums);
      AreaIsProduct(layout.medium, layout.mediums);
      huge, next := Cut(next, layout.huge, layout.huges);
      FreshInv(layout);
    }

    /** `heap` is the block that the heap returns if it is asked. */
    method Take(size: nat, heap: int, ghost blocks: Blocks) returns (chunk: int)
      requires Inv(State(), blocks)
      requires Serving(State(), size).None? ==> HeapBlock(layout, blocks, heap, size)
      modifies this
      ensures (State(), chunk) == Get(old(State()), size, heap)
      ensures chunk !in blocks && Inv(State(), blocks[chunk := size])
    {
      GetKeepsInv(State(), blocks, size, heap);
      if size <= layout.small && |small| > 0 {
        chunk := small[|small| - 1];
        small := small[..|small| - 1];
      } else if size <= layout.medium && |medium| > 0 {
        chunk := medium[|medium| - 1];
        medium := medium[..|medium| - 1];
      } else if size <= layout.huge && |huge| > 0 {
        chunk := huge[|huge| - 1];
        huge := huge[..|huge| - 1];
      } else {
        chunk := heap;
      }
    }

    method PutBack(chunk: int, ghost blocks: Blocks)
      requires Inv(State(), blocks) && chunk in blocks
      modifies this
      ensures State() == Release(old(State()), chunk) && Inv(State(), blocks - {chunk})
    {
      ReleaseKeepsInv(State(), blocks, chunk);
      AreaIsProduct(layout.small, layout.smalls);
      AreaIsProduct(layout.medium, layout.mediums);
      AreaIsProduct(layout.huge, layout.huges);
      if chunk < layout.arena {
        return;
      }
      var offset := chunk - layout.arena;
      if offset < layout.small * layout.smalls {
        small := small + [chunk];
      } else if offset < layout.small * layout.smalls + layout.medium * layout.mediums {
        medium := medium + [chunk];
      } else if offset < layout.small * layout.smalls + layout.medium * layout.mediums + layout.huge * layout.huges {
        huge := huge + [chunk];
      }
    }
  }
}
