/** The global container of objects, indexed by the ids of the pool, and a second container that mirrors it. */
module GlobalContainers {
  import opened Options
  import P = IdPool

  datatype State<T> = State(pool: P.Pool, instances: seq<Option<T>>, counter: int, mirror: Option<seq<Option<T>>>)

  /** What the container stands for: the live objects by id, and the ids of objects still being constructed. */
  datatype Population<T> = Population(live: map<nat, T>, pending: set<nat>)

  function Put<T>(s: seq<Option<T>>, id: nat, p: Option<T>): seq<Option<T>>
    requires id <= |s|
  {
    if id == |s| then s + [p] else s[id := p]
  }

  function Register<T>(s: State<T>, id: nat, p: Option<T>): State<T>
    requires id <= |s.instances| && (s.mirror.Some? ==> id <= |s.mirror.value|)
  {
    s.(instances := Put(s.instances, id, p),
       counter := s.counter + if p.Some? then 1 else 0,
       mirror := if s.mirror.Some? then Some(Put(s.mirror.value, id, p)) else None)
  }

  function Remove<T>(s: State<T>, id: nat): State<T>
    requires id < |s.instances| && s.pool.next > 0 && (s.mirror.Some? ==> id < |s.mirror.value|)
  {
    s.(instances := s.instances[id := None],
       counter := s.counter - 1,
       pool := P.Release(s.pool, id),
       mirror := if s.mirror.Some? then Some(s.mirror.value[id := None]) else None)
  }

  ghost predicate Inv<T>(s: State<T>, w: Population<T>) {
    && P.Valid(s.pool) && s.pool.first == 0 && s.pool.next <= |s.instances|
    && w.live.Keys !! w.pending
    && (forall id :: P.InUse(s.pool, id) <==> id in w.live || id in w.pending)
    && (forall id: nat :: id < |s.instances| ==> s.instances[id] == if id in w.live then Some(w.live[id]) else None)
    && s.counter == |w.live|
    && (s.mirror.Some? ==> s.mirror.value == s.instances)
  }

  /** The counter is the number of slots that are not null. */
  lemma CounterIsOccupied<T>(s: State<T>, w: Population<T>)
    requires Inv(s, w)
    ensures s.counter == |set id | 0 <= id < |s.instances| && s.instances[id].Some?|
  {
    var occupied := set id | 0 <= id < |s.instances| && s.instances[id].Some?;
    forall id | id in w.live ensures id in occupied {
      assert P.InUse(s.pool, id);
    }
    assert occupied == w.live.Keys;
    assert |w.live| == |w.live.Keys|;
  }

  /* Events: an object gets its id, then writes itself into its slot, and is destroyed later. */

  datatype Event<T> = Allocate | RegisterSelf(id: nat, self: T) | Destroy(id: nat) | Attach

  ghost predicate Allowed<T>(s: State<T>, w: Population<T>, e: Event<T>) {
    match e
    case Allocate => exists i :: 0 <= i <= s.pool.last && !P.InUse(s.pool, i)
    case RegisterSelf(id, _) => id in w.pending
    case Destroy(id) => id in w.live
    case Attach => s.mirror.None?
  }

  ghost function Step<T>(s: State<T>, e: Event<T>, w: Population<T>): (r: (State<T>, Population<T>))
    requires Inv(s, w) && Allowed(s, w, e)
  {
    match e
    case Allocate =>
      P.GetNextIsSmallestFree(s.pool);
      var (pool, id) := P.GetNext(s.pool);
      (Register(s.(pool := pool), id, None), w.(pending := w.pending + {id}))
    case RegisterSelf(id, self) =>
      assert P.InUse(s.pool, id);
      (Register(s, id, Some(self)), Population(w.live[id := self], w.pending - {id}))
    case Destroy(id) =>
      assert P.InUse(s.pool, id);
      (Remove(s, id), w.(live := w.live - {id}))
    case Attach => (s.(mirror := Some(s.instances)), w)
  }

  /** The id of a new object is at most the number of slots, so that it names a free slot or the next new one. */
  lemma AllocateKeepsInv<T>(s: State<T>, w: Population<T>)
    requires Inv(s, w) && Allowed(s, w, Allocate)
    ensures var (t, v) := Step(s, Allocate, w); Inv(t, v)
    ensures var id := P.GetNext(s.pool).1; id <= |s.instances| && id !in w.live && id !in w.pending
    ensures var id := P.GetNext(s.pool).1; forall i :: 0 <= i < id ==> i in w.live || i in w.pending
  {
    P.GetNextIsSmallestFree(s.pool);
    var (pool, id) := P.GetNext(s.pool);
    assert P.InUse(pool, id) && forall i :: 0 <= i < id ==> P.InUse(s.pool, i);
  }

  lemma RegisterKeepsInv<T>(s: State<T>, w: Population<T>, id: nat, self: T)
    requires Inv(s, w) && id in w.pending
    ensures var (t, v) := Step(s, RegisterSelf(id, self), w); Inv(t, v)
  {
    assert P.InUse(s.pool, id);
  }

  lemma DestroyKeepsInv<T>(s: State<T>, w: Population<T>, id: nat)
    requires Inv(s, w) && id in w.live
    ensures var (t, v) := Step(s, Destroy(id), w); Inv(t, v)
  {
    assert P.InUse(s.pool, id);
    P.ReleaseFrees(s.pool, id);
    assert w.live.Keys == (w.live - {id}).Keys + {id};
  }

  lemma StepKeepsInv<T>(s: State<T>, w: Population<T>, e: Event<T>)
    requires Inv(s, w) && Allowed(s, w, e)
    ensures var (t, v) := Step(s, e, w); Inv(t, v)
  {
    match e
    case Allocate => AllocateKeepsInv(s, w);
    case RegisterSelf(id, self) => RegisterKeepsInv(s, w, id, self);
    case Destroy(id) => DestroyKeepsInv(s, w, id);
    case Attach =>
  }

  /** The states after each event; the population only records what the events asked for. */
  ghost predicate AllowedRun<T>(s: State<T>, w: Population<T>, events: seq<Event<T>>)
    requires Inv(s, w)
    decreases events
  {
    events == [] ||
    (&& Allowed(s, w, events[0])
     && (StepKeepsInv(s, w, events[0]);
         var (t, v) := Step(s, events[0], w);
         AllowedRun(t, v, events[1..])))
  }

  ghost function Run<T>(s: State<T>, w: Population<T>, events: seq<Event<T>>): (r: (State<T>, Population<T>))
    requires Inv(s, w) && AllowedRun(s, w, events)
    ensures Inv(r.0, r.1)
    decreases events
  {
    if events == [] then (s, w)
    else
      StepKeepsInv(s, w, events[0]);
      var (t, v) := Step(s, events[0], w);
      Run(t, v, events[1..])
  }

  function Start<T>(last: nat): State<T> { State(P.Pool(0, last, 0, []), [], 0, None) }

  /** Over any run from the empty container, the slots, the counter and the mirror show exactly the live objects. */
  lemma RunShowsLiveObjects<T>(last: nat, events: seq<Event<T>>)
    requires last + 1 <= P.INVALID
    ensures Inv(Start<T>(last), Population(map[], {}))
    ensures AllowedRun(Start<T>(last), Population(map[], {}), events) ==>
      var (s, w) := Run(Start<T>(last), Population(map[], {}), events);
      && (forall id: nat :: id < |s.instances| ==> (s.instances[id].Some? <==> id in w.live))
      && (forall id :: id in w.live ==> id < |s.instances| && s.instances[id] == Some(w.live[id]))
      && s.counter == |set id | 0 <= id < |s.instances| && s.instances[id].Some?|
      && (s.mirror.Some? ==> s.mirror.value == s.instances)
  {
    var empty := Population(map[], {});
    assert Inv(Start<T>(last), empty);
    if AllowedRun(Start<T>(last), empty, events) {
      var (s, w) := Run(Start<T>(last), empty, events);
      CounterIsOccupied(s, w);
      forall id | id in w.live ensures id < |s.instances| {
        assert P.InUse(s.pool, id);
      }
    }
  }

  class ConcreteObjectsContainer<T> {
    var baseObjects: seq<Option<T>>

    constructor (allObjects: seq<Option<T>>)
      ensures baseObjects == allObjects
    {
      baseObjects := allObjects;
    }

    method OnRegistered(id: nat, p: Option<T>)
      requires id <= |baseObjects|
      modifies this
      ensures baseObjects == Put(old(baseObjects), id, p)
    {
      if id == |baseObjects| {
        baseObjects := baseObjects + [p];
      } else {
        baseObjects := baseObjects[id := p];
      }
    }

    method OnRemoved(id: nat)
      requires id < |baseObjects|
      modifies this
      ensures baseObjects == old(baseObjects)[id := None]
    {
      baseObjects := baseObjects[id := None];
    }
  }

  class GlobalContainer<T> {
    const pool: P.SimpleIdPool
    var instances: seq<Option<T>>
    var counter: int
    var observer: ConcreteObjectsContainer?<T>

    function Current(): State<T>
      reads this, pool, observer
    {
      State(pool.State(), instances, counter, if observer == null then None else Some(observer.baseObjects))
    }

    constructor (last: nat)
      requires last + 1 <= P.INVALID
      ensures fresh(pool) && observer == null && Current() == Start<T>(last)
      ensures Inv(Current(), Population(map[], {}))
    {
      pool := new P.SimpleIdPool(0, last);
      instances, counter, observer := [], 0, null;
    }

    method RegisterSelf(id: nat, p: Option<T>)
      requires id <= |instances| && (observer != null ==> id <= |observer.baseObjects|)
      modifies this`instances, this`counter, observer
      ensures Current() == Register(old(Current()), id, p)
    {
      if id == |instances| {
        instances := instances + [p];
      } else {
        instances := instances[id := p];
      }
      if p.Some? {
        counter := counter + 1;
      }
      if observer != null {
        observer.OnRegistered(id, p);
      }
    }

    /** The constructor of an object: it takes an id and holds its slot with a null pointer. */
    method NewObject(ghost w: Population<T>) returns (id: nat)
      requires Inv(Current(), w) && Allowed(Current(), w, Allocate)
      modifies this, pool, observer
      ensures Current() == Step(old(Current()), Allocate, w).0 && id == P.GetNext(old(Current()).pool).1
      ensures observer == old(observer) && Inv(Current(), Step(old(Current()), Allocate, w).1)
    {
      AllocateKeepsInv(Current(), w);
      id := pool.TakeNext();
      RegisterSelf(id, None);
    }

    /** The destructor of an object. */
    method DestroyObject(id: nat, ghost w: Population<T>)
      requires Inv(Current(), w) && id in w.live
      modifies this, pool, observer
      ensures Current() == Step(old(Current()), Destroy(id), w).0
      ensures observer == old(observer) && Inv(Current(), Step(old(Current()), Destroy(id), w).1)
    {
      DestroyKeepsInv(Current(), w, id);
      assert P.InUse(Current().pool, id);
      assert w.live != map[];
      assert counter > 0;
      instances := instances[id := None];
      counter := counter - 1;
      pool.PutBack(id);
      if observer != null {
        observer.OnRemoved(id);
      }
    }

    method AttachObserver()
      requires observer == null
      modifies this`observer
      ensures observer != null && fresh(observer)
      ensures Current() == old(Current()).(mirror := Some(instances))
    {
      observer := new ConcreteObjectsContainer(instances);
    }
  }
}
