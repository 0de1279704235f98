/** Messages that wait in a terminal: handled in the order of arrival, or delayed until the time they carry. */
module DelayedQueue {
  const LIMIT: nat := 1024

  datatype Message = Message(session: nat, timestamp: nat, body: string)

  datatype State = State(messages: seq<Message>, delayed: seq<Message>)

  /** Later timestamps come first, so that the earliest one is at the end. */
  predicate Descending(d: seq<Message>) { forall i, j :: 0 <= i < j < |d| ==> d[i].timestamp >= d[j].timestamp }

  function Draw(d: seq<Message>, m: Message): seq<Message> {
    var n := |d|;
    if n == 0 || d[n - 1].timestamp >= m.timestamp then d + [m] else Draw(d[..n - 1], m) + [d[n - 1]]
  }

  /** What is left of a message that was moved away: the session it came from, and an empty body. */
  function Husk(m: Message): Message { Message(m.session, 0, "") }

  /** The outcome of a pass over the new messages; `left` is what it leaves of them if they are not cleared afterwards. */
  datatype Sorting = Sorting(delayed: seq<Message>, handled: seq<Message>, left: seq<Message>, complete: bool)

  /** One pass over the new messages: handle those that are due, delay the others, and give up when the queue is full. */
  function Receive(messages: seq<Message>, d: seq<Message>, now: nat): Sorting {
    if messages == [] then Sorting(d, [], [], true)
    else if now < messages[0].timestamp then
      if |d| == LIMIT then Sorting(d, [], messages, false)
      else
        var r := Receive(messages[1..], Draw(d, messages[0]), now);
        r.(left := [Husk(messages[0])] + r.left)
    else
      var r := Receive(messages[1..], d, now);
      r.(handled := [messages[0]] + r.handled, left := [messages[0]] + r.left)
  }

  function Release(d: seq<Message>, now: nat): (seq<Message>, seq<Message>) {
    if d != [] && d[|d| - 1].timestamp <= now
    then var (rest, handled) := Release(d[..|d| - 1], now); (rest, [d[|d| - 1]] + handled)
    else (d, [])
  }

  /** The state after `handleBufferedMessages`, and the messages it handled. */
  function Handle(s: State, now: nat): (State, seq<Message>) {
    var r := Receive(s.messages, s.delayed, now);
    if !r.complete then (State(r.left, r.delayed), r.handled)
    else
      var (rest, handled) := Release(r.delayed, now);
      (State([], rest), r.handled + handled)
  }

  /* The order and the contents. */

  function Reached(ms: seq<Message>, now: nat): seq<Message> {
    if ms == [] then [] else (if ms[0].timestamp <= now then [ms[0]] else []) + Reached(ms[1..], now)
  }

  function Future(ms: seq<Message>, now: nat): seq<Message> {
    if ms == [] then [] else (if ms[0].timestamp <= now then [] else [ms[0]]) + Future(ms[1..], now)
  }

  lemma {:induction false} DrawKeepsAll(d: seq<Message>, m: Message)
    ensures multiset(Draw(d, m)) == multiset(d) + multiset{m} && |Draw(d, m)| == |d| + 1
  {
    var n := |d|;
    if n > 0 && d[n - 1].timestamp < m.timestamp {
      DrawKeepsAll(d[..n - 1], m);
      assert d == d[..n - 1] + [d[n - 1]];
    }
  }

  lemma {:induction false} DrawKeepsOrder(d: seq<Message>, m: Message)
    requires Descending(d)
    ensures Descending(Draw(d, m)) && multiset(Draw(d, m)) == multiset(d) + multiset{m} && |Draw(d, m)| == |d| + 1
  {
    var n := |d|;
    DrawKeepsAll(d, m);
    if n > 0 && d[n - 1].timestamp < m.timestamp {
      var front, t := d[..n - 1], Draw(d[..n - 1], m);
      DrawKeepsOrder(front, m);
      assert Draw(d, m) == t + [d[n - 1]];
      forall i | 0 <= i < |t| ensures t[i].timestamp >= d[n - 1].timestamp {
        assert t[i] in multiset(t);
        assert t[i] == m || t[i] in front;
      }
      hide Draw;
    }
  }

  /** The new message goes behind those that are due later or at the same time, and before those that are due earlier;
      the others keep their order. */
  lemma {:induction false} DrawPlaces(d: seq<Message>, m: Message) returns (i: nat)
    requires Descending(d)
    ensures i <= |d| && Draw(d, m) == d[..i] + [m] + d[i..]
    ensures forall k :: 0 <= k < i ==> d[k].timestamp >= m.timestamp
    ensures forall k :: i <= k < |d| ==> d[k].timestamp < m.timestamp
  {
    var n := |d|;
    if n == 0 || d[n - 1].timestamp >= m.timestamp {
      i := n;
      assert d[..n] == d && d[n..] == [];
    } else {
      i := DrawPlaces(d[..n - 1], m);
      assert d[..n - 1][..i] == d[..i] && d[..n - 1][i..] + [d[n - 1]] == d[i..];
    }
  }

  /** The pass completes exactly when the delayed messages, old and new, stay within the limit. */
  lemma {:induction false} ReceiveCompletes(ms: seq<Message>, d: seq<Message>, now: nat)
    requires |d| <= LIMIT && Descending(d)
    ensures Receive(ms, d, now).complete <==> |d| + |Future(ms, now)| <= LIMIT
  {
    if ms != [] {
      if now < ms[0].timestamp {
        if |d| < LIMIT {
          DrawKeepsOrder(d, ms[0]);
          ReceiveCompletes(ms[1..], Draw(d, ms[0]), now);
        }
      } else {
        ReceiveCompletes(ms[1..], d, now);
      }
    }
  }

  lemma ReceiveOne(ms: seq<Message>, d: seq<Message>, now: nat)
    requires ms != []
    ensures var r := Receive(ms, d, now);
      if now < ms[0].timestamp
      then
        if |d| == LIMIT then r == Sorting(d, [], ms, false)
        else
          var q := Receive(ms[1..], Draw(d, ms[0]), now);
          r == Sorting(q.delayed, q.handled, [Husk(ms[0])] + q.left, q.complete)
      else
        var q := Receive(ms[1..], d, now);
        r == Sorting(q.delayed, [ms[0]] + q.handled, [ms[0]] + q.left, q.complete)
  {}

  lemma ReceiveNone(d: seq<Message>, now: nat)
    ensures Receive([], d, now) == Sorting(d, [], [], true)
  {}

  lemma FilterOne(ms: seq<Message>, now: nat)
    requires ms != []
    ensures Reached(ms, now) == (if ms[0].timestamp <= now then [ms[0]] else []) + Reached(ms[1..], now)
    ensures multiset(Future(ms, now)) ==
      (if ms[0].timestamp <= now then multiset{} else multiset{ms[0]}) + multiset(Future(ms[1..], now))
  {}

  /** A complete pass handles the due messages in the order of arrival and adds the others to the queue. */
  lemma {:induction false} ReceiveSorts(ms: seq<Message>, d: seq<Message>, now: nat)
    requires Descending(d) && Receive(ms, d, now).complete
    ensures var r := Receive(ms, d, now);
      && r.handled == Reached(ms, now) && Descending(r.delayed)
      && multiset(r.delayed) == multiset(d) + multiset(Future(ms, now))
  {
    if ms != [] {
      ReceiveOne(ms, d, now);
      FilterOne(ms, now);
      hide Draw, Descending, Receive, Reached, Future;
      if now < ms[0].timestamp {
        DrawKeepsOrder(d, ms[0]);
        ReceiveSorts(ms[1..], Draw(d, ms[0]), now);
      } else {
        ReceiveSorts(ms[1..], d, now);
      }
    }
  }

  predicate NonDecreasing(ms: seq<Message>) { forall i, j :: 0 <= i < j < |ms| ==> ms[i].timestamp <= ms[j].timestamp }

  lemma {:induction false} ReleaseKeepsAll(d: seq<Message>, now: nat)
    ensures var (rest, handled) := Release(d, now);
      multiset(d) == multiset(rest) + multiset(handled) && |rest| <= |d| && rest == d[..|rest|]
  {
    var n := |d|;
    if n > 0 && d[n - 1].timestamp <= now {
      var front, last := d[..n - 1], d[n - 1];
      ReleaseKeepsAll(front, now);
      var (rest, handled) := Release(front, now);
      assert Release(d, now) == (rest, [last] + handled);
      hide Release;
      assert d == front + [last];
      assert rest == d[..|rest|];
    } else {
      assert d[..n] == d;
    }
  }

  /** They are released from the end of the queue on. */
  lemma {:induction false} ReleaseFromEnd(d: seq<Message>, now: nat, k: nat)
    ensures var (rest, handled) := Release(d, now);
      |rest| + |handled| == |d| && (k < |handled| ==> handled[k] == d[|d| - 1 - k])
    decreases |d|
  {
    var n := |d|;
    if n > 0 && d[n - 1].timestamp <= now {
      ReleaseFromEnd(d[..n - 1], now, if k > 0 then k - 1 else 0);
    }
  }

  /** The delayed messages that are due go in the order of their timestamps; what remains is in the future. */
  lemma {:induction false} ReleaseSplits(d: seq<Message>, now: nat)
    requires Descending(d)
    ensures var (rest, handled) := Release(d, now);
      && (forall i :: 0 <= i < |rest| ==> rest[i].timestamp > now)
      && NonDecreasing(handled) && (forall i :: 0 <= i < |handled| ==> handled[i].timestamp <= now)
      && (|d| > 0 ==> forall i :: 0 <= i < |handled| ==> d[|d| - 1].timestamp <= handled[i].timestamp)
  {
    var n := |d|;
    if n > 0 && d[n - 1].timestamp <= now {
      ReleaseSplits(d[..n - 1], now);
    }
  }

  lemma {:induction false} FilterCounts(ms: seq<Message>, now: nat, m: Message)
    ensures multiset(Reached(ms, now))[m] == if m.timestamp <= now then multiset(ms)[m] else 0
    ensures multiset(Future(ms, now))[m] == if m.timestamp <= now then 0 else multiset(ms)[m]
  {
    if ms != [] {
      assert ms == [ms[0]] + ms[1..];
      FilterCounts(ms[1..], now, m);
    }
  }

  predicate Valid(s: State) { |s.delayed| <= LIMIT && Descending(s.delayed) }

  predicate Fits(s: State, now: nat) { |s.delayed| + |Future(s.messages, now)| <= LIMIT }

  function Waiting(s: State): multiset<Message> { multiset(s.messages) + multiset(s.delayed) }

  lemma QueueLength(all: seq<Message>, a: seq<Message>, b: seq<Message>)
    requires multiset(all) == multiset(a) + multiset(b)
    ensures |all| == |a| + |b|
  {
    assert |multiset(all)| == |multiset(a)| + |multiset(b)|;
  }

  lemma HandleParts(s: State, now: nat)
    requires Valid(s) && Fits(s, now)
    ensures var d := Receive(s.messages, s.delayed, now).delayed;
      && Descending(d) && |d| <= LIMIT
      && multiset(d) == multiset(s.delayed) + multiset(Future(s.messages, now))
      && Handle(s, now) == (State([], Release(d, now).0), Reached(s.messages, now) + Release(d, now).1)
  {
    ReceiveCompletes(s.messages, s.delayed, now);
    ReceiveSorts(s.messages, s.delayed, now);
    QueueLength(Receive(s.messages, s.delayed, now).delayed, s.delayed, Future(s.messages, now));
  }

  /**
   * While the queue has room, the new messages that are due are handled first, in the order of arrival, and then
   * the delayed ones in the order of their timestamps. What remains is sorted and strictly in the future.
   */
  lemma HandleOrder(s: State, now: nat)
    requires Valid(s) && Fits(s, now)
    ensures var (t, handled) := Handle(s, now); var n := |Reached(s.messages, now)|;
      && Valid(t) && t.messages == [] && (forall i :: 0 <= i < |t.delayed| ==> t.delayed[i].timestamp > now)
      && n <= |handled| && handled[..n] == Reached(s.messages, now) && NonDecreasing(handled[n..])
  {
    var d, first := Receive(s.messages, s.delayed, now).delayed, Reached(s.messages, now);
    HandleParts(s, now);
    ReleaseKeepsAll(d, now);
    ReleaseSplits(d, now);
    var late := Release(d, now).1;
    assert (first + late)[..|first|] == first && (first + late)[|first|..] == late;
  }

  lemma ReleaseCounts(d: seq<Message>, now: nat, m: Message)
    requires Descending(d)
    ensures multiset(Release(d, now).1)[m] == if m.timestamp <= now then multiset(d)[m] else 0
    ensures multiset(Release(d, now).0)[m] == if m.timestamp <= now then 0 else multiset(d)[m]
  {
    ReleaseKeepsAll(d, now);
    ReleaseSplits(d, now);
    hide Release, NonDecreasing, Descending;
    var (rest, late) := Release(d, now);
    if m.timestamp > now { assert m !in late; } else { assert m !in rest; }
  }

  /** A call handles exactly the waiting messages whose time has come, each as often as it waits. */
  lemma HandleServesDue(s: State, now: nat, m: Message)
    requires Valid(s) && Fits(s, now)
    ensures multiset(Handle(s, now).1)[m] == if m.timestamp <= now then Waiting(s)[m] else 0
    ensures Waiting(Handle(s, now).0)[m] == if m.timestamp <= now then 0 else Waiting(s)[m]
  {
    HandleParts(s, now);
    ReleaseCounts(Receive(s.messages, s.delayed, now).delayed, now, m);
    FilterCounts(s.messages, now, m);
    hide Receive, Release, Reached, Future, Handle, Descending;
  }

  /* A call that finds the queue without room. */

  /** What a pass has handled is still there if the new messages are not cleared, and what it moved away is a husk. */
  lemma {:induction false} HandledIsLeft(ms: seq<Message>, d: seq<Message>, now: nat, m: Message)
    ensures multiset(Receive(ms, d, now).handled)[m] <= multiset(Receive(ms, d, now).left)[m]
    ensures |Receive(ms, d, now).left| == |ms|
    ensures m in Receive(ms, d, now).handled ==> m.timestamp <= now
    decreases |ms|
  {
    if ms != [] {
      ReceiveOne(ms, d, now);
      hide Receive, Draw;
      HandledIsLeft(ms[1..], if now < ms[0].timestamp then Draw(d, ms[0]) else d, now, m);
    }
  }

  /** Each of the new messages is left in its place as it was, unless it was in the future and moved to the queue. */
  lemma {:induction false} LeftInPlace(ms: seq<Message>, d: seq<Message>, now: nat, i: nat)
    requires i < |ms|
    ensures var left := Receive(ms, d, now).left;
      |left| == |ms| && (left[i] == ms[i] || (ms[i].timestamp > now && left[i] == Husk(ms[i])))
    decreases |ms|
  {
    ReceiveOne(ms, d, now);
    HandledIsLeft(ms, d, now, ms[i]);
    hide Receive, Draw;
    if i > 0 { LeftInPlace(ms[1..], if now < ms[0].timestamp then Draw(d, ms[0]) else d, now, i - 1); }
  }

  /** A second pass over what the first one left, at a time no earlier, handles all that the first one handled. */
  lemma {:induction false} LeftIsHandledAgain(
    ms: seq<Message>, d: seq<Message>, now: nat, queue: seq<Message>, later: nat, m: Message)
    requires now <= later
    ensures multiset(Receive(ms, d, now).handled)[m] <=
      multiset(Receive(Receive(ms, d, now).left, queue, later).handled)[m]
    decreases |ms|
  {
    if ms != [] {
      ReceiveOne(ms, d, now);
      var left := Receive(ms, d, now).left;
      if now >= ms[0].timestamp || |d| != LIMIT {
        ReceiveOne(left, queue, later);
        hide Receive, Draw;
        LeftIsHandledAgain(ms[1..], if now < ms[0].timestamp then Draw(d, ms[0]) else d, now, queue, later, m);
      }
    }
  }

  /**
   * When the queue has no room the call stops without clearing the new messages: those that it handled are still
   * among them, and the next call at a time no earlier handles each of them again.
   */
  lemma OverflowKeepsHandled(s: State, now: nat, later: nat, m: Message)
    requires Valid(s) && !Fits(s, now) && now <= later
    ensures var (t, handled) := Handle(s, now);
      && |t.messages| == |s.messages| && multiset(handled)[m] <= multiset(t.messages)[m]
      && multiset(handled)[m] <= multiset(Handle(t, later).1)[m]
  {
    ReceiveCompletes(s.messages, s.delayed, now);
    HandledIsLeft(s.messages, s.delayed, now, m);
    var r := Receive(s.messages, s.delayed, now);
    LeftIsHandledAgain(s.messages, s.delayed, now, r.delayed, later, m);
    HandleExtendsPass(State(r.left, r.delayed), later);
  }

  /** Such a call releases no delayed message either, not even those whose time has come. */
  lemma {:induction false} OverflowReleasesNothing(s: State, now: nat, m: Message)
    requires Valid(s) && !Fits(s, now)
    ensures multiset(s.delayed)[m] <= multiset(Handle(s, now).0.delayed)[m]
  {
    ReceiveCompletes(s.messages, s.delayed, now);
    PassKeepsDelayed(s.messages, s.delayed, now, m);
  }

  lemma {:induction false} PassKeepsDelayed(ms: seq<Message>, d: seq<Message>, now: nat, m: Message)
    ensures multiset(d)[m] <= multiset(Receive(ms, d, now).delayed)[m]
    decreases |ms|
  {
    if ms != [] {
      ReceiveOne(ms, d, now);
      DrawKeepsAll(d, ms[0]);
      hide Receive, Draw;
      PassKeepsDelayed(ms[1..], if now < ms[0].timestamp then Draw(d, ms[0]) else d, now, m);
    }
  }

  lemma HandleExtendsPass(s: State, now: nat)
    ensures Receive(s.messages, s.delayed, now).handled <= Handle(s, now).1
  {}

  /** A call that finds the queue full and cannot delay anything leaves the new messages as they are. */
  lemma {:induction false} FullQueueLeavesAll(ms: seq<Message>, d: seq<Message>, now: nat)
    requires |d| == LIMIT && Future(ms, now) != []
    ensures var r := Receive(ms, d, now); r.left == ms && r.delayed == d && !r.complete
  {
    ReceiveOne(ms, d, now);
    if ms[0].timestamp <= now {
      FullQueueLeavesAll(ms[1..], d, now);
    }
  }

  /** A call leaves nothing waiting that it has handled if and only if the queue had room or nothing was handled. */
  lemma HandledOnceIffRoom(s: State, now: nat)
    requires Valid(s)
    ensures var (t, handled) := Handle(s, now);
      (forall m :: m in handled ==> Waiting(t)[m] == 0) <==> Fits(s, now) || handled == []
  {
    var (t, handled) := Handle(s, now);
    if Fits(s, now) {
      forall m | m in handled ensures Waiting(t)[m] == 0 {
        HandleServesDue(s, now, m);
        assert multiset(handled)[m] > 0;
      }
    } else if handled != [] {
      OverflowKeepsHandled(s, now, now, handled[0]);
      assert multiset(handled)[handled[0]] > 0;
      assert Waiting(t)[handled[0]] >= multiset(t.messages)[handled[0]] > 0;
    }
  }

  const NOISE := Message(1, 100, "later")
  const DUE := Message(2, 50, "now")

  /** With the queue full, a message that is due and one that is not: the first is handled in this call and in the next. */
  lemma FullQueueHandlesTwice()
    ensures var s := State([DUE, NOISE], seq(LIMIT, _ => NOISE));
      && Valid(s) && !Fits(s, 50)
      && Handle(s, 50) == (s, [DUE]) && Handle(Handle(s, 50).0, 60) == (s, [DUE])
  {
    var d := seq(LIMIT, _ => NOISE);
    var ms := [DUE, NOISE];
    assert ms[1..] == [NOISE];
    assert Future([NOISE], 50) == [NOISE] && Future(ms, 50) == [NOISE];
    forall now | 50 <= now < 100 ensures Receive(ms, d, now) == Sorting(d, [DUE], ms, false) {
      ReceiveOne(ms, d, now);
      ReceiveOne([NOISE], d, now);
      assert [DUE] + [NOISE] == ms;
    }
  }

  /* Runs: messages arrive, and the buffered ones are handled from time to time. */

  datatype Event = Arrive(m: Message) | Call(now: nat)

  function Step(s: State, e: Event): (State, seq<Message>) {
    match e
    case Arrive(m) => (s.(messages := s.messages + [m]), [])
    case Call(now) => Handle(s, now)
  }

  /** The state after the first `n` events. */
  function After(events: seq<Event>, n: nat): State
    requires n <= |events|
  {
    if n == 0 then State([], []) else Step(After(events, n - 1), events[n - 1]).0
  }

  /** The messages handled by event `k`. */
  function HandledBy(events: seq<Event>, k: nat): seq<Message>
    requires k < |events|
  {
    Step(After(events, k), events[k]).1
  }

  /** No call within the first `n` events finds the queue without room. */
  ghost predicate NoOverflow(events: seq<Event>, n: nat)
    requires n <= |events|
  {
    forall k :: 0 <= k < n && events[k].Call? ==> Fits(After(events, k), events[k].now)
  }

  predicate Reaches(e: Event, m: Message) { e.Call? && m.timestamp <= e.now }

  /** Message `m` arrived as event `a`, and no call since then, up to event `n`, has reached its timestamp. */
  predicate StillWaits(events: seq<Event>, a: nat, n: nat, m: Message)
    requires a < n <= |events|
  {
    events[a] == Arrive(m) && forall j :: a < j < n ==> !Reaches(events[j], m)
  }

  ghost function Unreached(events: seq<Event>, n: nat, m: Message): set<nat>
    requires n <= |events|
  {
    set a: nat | a < n && StillWaits(events, a, n, m)
  }

  lemma UnreachedStep(events: seq<Event>, n: nat, m: Message)
    requires n < |events|
    ensures Unreached(events, n + 1, m) ==
      if events[n] == Arrive(m) then Unreached(events, n, m) + {n}
      else if Reaches(events[n], m) then {}
      else Unreached(events, n, m)
  {
    forall a: nat | a < n
      ensures StillWaits(events, a, n + 1, m) <==> StillWaits(events, a, n, m) && !Reaches(events[n], m)
    {}
  }

  lemma {:induction false} AfterIsValid(events: seq<Event>, n: nat)
    requires n <= |events| && NoOverflow(events, n)
    ensures Valid(After(events, n))
  {
    if n > 0 {
      AfterIsValid(events, n - 1);
      match events[n - 1]
      case Arrive(_) =>
      case Call(now) =>
        assert Fits(After(events, n - 1), events[n - 1].now);
        HandleOrder(After(events, n - 1), now);
    }
  }

  lemma UnreachedCount(events: seq<Event>, n: nat, m: Message)
    requires n < |events|
    ensures |Unreached(events, n + 1, m)| ==
      if events[n] == Arrive(m) then |Unreached(events, n, m)| + 1
      else if Reaches(events[n], m) then 0
      else |Unreached(events, n, m)|
  {
    UnreachedStep(events, n, m);
    assert n !in Unreached(events, n, m);
    hide Unreached;
  }

  lemma WaitingStep(s: State, e: Event, m: Message)
    requires Valid(s) && (e.Call? ==> Fits(s, e.now))
    ensures Waiting(Step(s, e).0)[m] ==
      if e == Arrive(m) then Waiting(s)[m] + 1 else if Reaches(e, m) then 0 else Waiting(s)[m]
  {
    if e.Call? { HandleServesDue(s, e.now, m); }
    hide Handle;
  }

  lemma AfterStep(events: seq<Event>, n: nat)
    requires 0 < n <= |events| && NoOverflow(events, n)
    ensures After(events, n) == Step(After(events, n - 1), events[n - 1]).0
    ensures NoOverflow(events, n - 1)
    ensures events[n - 1].Call? ==> Fits(After(events, n - 1), events[n - 1].now)
  {}

  lemma NothingWaits(events: seq<Event>, m: Message)
    ensures Waiting(After(events, 0))[m] == 0 && |Unreached(events, 0, m)| == 0
  {
    assert Unreached(events, 0, m) == {};
  }

  /** What waits in the terminal are the messages that no call has reached since they arrived. */
  lemma {:induction false} WaitingIsUnreached(events: seq<Event>, n: nat, m: Message)
    requires n <= |events| && NoOverflow(events, n)
    ensures Waiting(After(events, n))[m] == |Unreached(events, n, m)|
  {
    hide *;
    if n == 0 {
      NothingWaits(events, m);
    } else {
      AfterStep(events, n);
      AfterIsValid(events, n - 1);
      WaitingIsUnreached(events, n - 1, m);
      WaitingStep(After(events, n - 1), events[n - 1], m);
      UnreachedCount(events, n - 1, m);
    }
  }

  /**
   * While the queue never overflows, a call handles a message exactly as often as it arrived before the call
   * without an earlier call reaching its timestamp: every message is handled once, in the first call that
   * reaches it, and in no other.
   */
  lemma HandledWhenFirstReached(events: seq<Event>, k: nat, m: Message)
    requires k < |events| && NoOverflow(events, k + 1)
    ensures multiset(HandledBy(events, k))[m] == if Reaches(events[k], m) then |Unreached(events, k, m)| else 0
  {
    if events[k].Call? {
      assert Fits(After(events, k), events[k].now);
      AfterIsValid(events, k);
      WaitingIsUnreached(events, k, m);
      HandleServesDue(After(events, k), events[k].now, m);
    }
  }

  /* The order of arrival. */

  /** Where the arrivals since the last call begin. */
  function SinceCall(events: seq<Event>, n: nat): (a: nat)
    requires n <= |events|
    ensures a <= n && forall j :: a <= j < n ==> events[j].Arrive?
    ensures a > 0 ==> events[a - 1].Call?
  {
    if n == 0 then 0 else if events[n - 1].Call? then n else SinceCall(events, n - 1)
  }

  /** From event `a` on, `ms` arrive one after the other. */
  predicate Arriving(events: seq<Event>, a: nat, ms: seq<Message>) {
    a + |ms| <= |events| && forall i :: 0 <= i < |ms| ==> events[a + i] == Arrive(ms[i])
  }

  lemma ArrivalAppends(events: seq<Event>, n: nat)
    requires 0 < n <= |events| && events[n - 1].Arrive?
    ensures SinceCall(events, n) == SinceCall(events, n - 1)
    ensures After(events, n).messages == After(events, n - 1).messages + [events[n - 1].m]
  {}

  lemma CallClears(events: seq<Event>, n: nat)
    requires 0 < n <= |events| && events[n - 1].Call? && NoOverflow(events, n)
    ensures SinceCall(events, n) == n && After(events, n).messages == []
  {
    AfterIsValid(events, n - 1);
    assert Fits(After(events, n - 1), events[n - 1].now);
    HandleOrder(After(events, n - 1), events[n - 1].now);
  }

  lemma NothingArrived(events: seq<Event>)
    ensures SinceCall(events, 0) == 0 && After(events, 0).messages == [] && Arriving(events, 0, [])
  {}

  lemma NothingSince(events: seq<Event>, n: nat)
    requires n <= |events|
    ensures Arriving(events, n, [])
  {}

  lemma OneMoreArrives(events: seq<Event>, a: nat, ms: seq<Message>, m: Message)
    requires Arriving(events, a, ms) && a + |ms| < |events| && events[a + |ms|] == Arrive(m)
    ensures Arriving(events, a, ms + [m])
  {}

  /** The new messages are those that arrived since the last call, in the order in which they arrived. */
  lemma {:induction false} NewMessagesAre(events: seq<Event>, n: nat)
    requires n <= |events| && NoOverflow(events, n)
    ensures SinceCall(events, n) + |After(events, n).messages| == n
    ensures Arriving(events, SinceCall(events, n), After(events, n).messages)
  {
    hide *;
    if n == 0 {
      NothingArrived(events);
    } else if events[n - 1].Call? {
      CallClears(events, n);
      NothingSince(events, n);
    } else {
      AfterStep(events, n);
      NewMessagesAre(events, n - 1);
      ArrivalAppends(events, n);
      OneMoreArrives(events, SinceCall(events, n), After(events, n - 1).messages, events[n - 1].m);
    }
  }

  /** The positions of the messages that are due. */
  lemma {:induction false} ReachedAt(ms: seq<Message>, now: nat) returns (at: seq<nat>)
    ensures |at| == |Reached(ms, now)| && Ascending(at)
    ensures forall j :: 0 <= j < |at| ==> at[j] < |ms| && ms[at[j]] == Reached(ms, now)[j]
    ensures forall i: nat :: i < |ms| ==> (i in at <==> ms[i].timestamp <= now)
    decreases |ms|
  {
    at := [];
    if ms != [] {
      var n := |ms| - 1;
      at := ReachedAt(ms[..n], now);
      ReachedOneMore(ms, now);
      if ms[n].timestamp <= now { at := at + [n]; }
    }
  }

  predicate Ascending(at: seq<nat>) { forall i, j :: 0 <= i < j < |at| ==> at[i] < at[j] }

  lemma {:induction false} ReachedOneMore(ms: seq<Message>, now: nat)
    requires ms != []
    ensures Reached(ms, now) ==
      Reached(ms[..|ms| - 1], now) + if ms[|ms| - 1].timestamp <= now then [ms[|ms| - 1]] else []
    decreases |ms|
  {
    var n := |ms| - 1;
    if n > 0 {
      ReachedOneMore(ms[1..], now);
      assert ms[1..][..n - 1] == ms[..n][1..];
    }
  }

  /**
   * A call begins with the messages that arrived since the last call and are due, each once and in the order in which
   * they arrived, which is that of the events `at`; then come the delayed ones, in the order of their timestamps.
   */
  lemma HandledInOrderOfArrival(events: seq<Event>, k: nat) returns (at: seq<nat>)
    requires k < |events| && NoOverflow(events, k + 1) && events[k].Call?
    ensures Ascending(at) && |at| <= |HandledBy(events, k)|
    ensures forall j :: 0 <= j < |at| ==> SinceCall(events, k) <= at[j] < k && events[at[j]] == Arrive(HandledBy(events, k)[j])
    ensures forall e: nat :: SinceCall(events, k) <= e < k ==> (e in at <==> events[e].m.timestamp <= events[k].now)
    ensures NonDecreasing(HandledBy(events, k)[|at|..])
  {
    var s, now, a := After(events, k), events[k].now, SinceCall(events, k);
    CallHandles(events, k);
    NewMessagesAre(events, k);
    HandleOrder(s, now);
    var places := ReachedAt(s.messages, now);
    var handled := HandledBy(events, k);
    hide *;
    at := Shifted(events, a, s.messages, places, now);
    PrefixAt(handled, Reached(s.messages, now), |at|);
    forall j | 0 <= j < |at| ensures a <= at[j] < k && events[at[j]] == Arrive(handled[j]) {
      assert events[at[j]] == Arrive(s.messages[places[j]]);
    }
  }

  lemma CallHandles(events: seq<Event>, k: nat)
    requires k < |events| && NoOverflow(events, k + 1) && events[k].Call?
    ensures NoOverflow(events, k) && Valid(After(events, k)) && Fits(After(events, k), events[k].now)
    ensures HandledBy(events, k) == Handle(After(events, k), events[k].now).1
  {
    AfterIsValid(events, k);
    assert Fits(After(events, k), events[k].now);
    hide Handle;
  }

  lemma PrefixAt(all: seq<Message>, first: seq<Message>, n: nat)
    requires n == |first| <= |all| && all[..n] == first
    ensures forall j :: 0 <= j < n ==> all[j] == first[j]
  {
    forall j | 0 <= j < n ensures all[j] == first[j] { assert all[..n][j] == all[j]; }
  }

  /** From positions among the new messages to the events by which they arrived. */
  lemma Shifted(events: seq<Event>, a: nat, ms: seq<Message>, places: seq<nat>, now: nat) returns (at: seq<nat>)
    requires Arriving(events, a, ms) && Ascending(places)
    requires forall j :: 0 <= j < |places| ==> places[j] < |ms|
    requires forall i: nat :: i < |ms| ==> (i in places <==> ms[i].timestamp <= now)
    ensures |at| == |places| && Ascending(at)
    ensures forall j :: 0 <= j < |at| ==> a <= at[j] < a + |ms| && events[at[j]] == Arrive(ms[places[j]])
    ensures forall e: nat :: a <= e < a + |ms| ==> events[e].Arrive? && (e in at <==> events[e].m.timestamp <= now)
  {
    at := seq(|places|, j requires 0 <= j < |places| => a + places[j]);
    forall e: nat | a <= e < a + |ms| ensures events[e].Arrive? && (e in at <==> events[e].m.timestamp <= now) {
      var i: nat := e - a;
      assert events[a + i] == Arrive(ms[i]);
      if i in places {
        var j :| 0 <= j < |places| && places[j] == i;
        assert at[j] == e;
      }
    }
  }

  class BufferedTerminal {
    var messages: seq<Message>
    var delayed: seq<Message>
    ghost var handled: seq<Message>

    function Queues(): State
      reads this
    {
      State(messages, delayed)
    }

    constructor ()
      ensures Queues() == State([], []) && handled == []
    {
      messages, delayed, handled := [], [], [];
    }

    method OnMessageReceived(m: Message)
      modifies this
      ensures Queues() == Step(old(Queues()), Arrive(m)).0 && handled == old(handled)
    {
      messages := messages + [m];
    }

    /** The log of handled messages stands for the calls of the module's own handler. */
    method HandleMessage(m: Message)
      modifies this`handled
      ensures handled == old(handled) + [m]
    {
      handled := handled + [m];
    }

    method HandleBufferedMessages(now: nat)
      modifies this
      ensures (Queues(), handled) == (Handle(old(Queues()), now).0, old(handled) + Handle(old(Queues()), now).1)
    {
      hide Draw, Release;
      var complete := ReceiveAll(now);
      if !complete {
        return;
      }
      messages := [];
      ghost var early, d := handled, delayed;
      ReleaseDue(now);
      ghost var first, late := Receive(old(messages), old(delayed), now).handled, Release(d, now).1;
      assert old(handled) + (first + late) == early + late;
    }

    method ReceiveAll(now: nat) returns (complete: bool)
      modifies this
      ensures var r := Receive(old(messages), old(delayed), now);
        messages == r.left && delayed == r.delayed && handled == old(handled) + r.handled && complete == r.complete
    {
      hide Draw, Receive;
      ghost var r := Receive(messages, delayed, now);
      var i := 0;
      assert messages[0..] == messages;
      while i < |messages|
        invariant 0 <= i <= |messages|
        invariant var rest := Receive(messages[i..], delayed, now);
          && r.delayed == rest.delayed && r.complete == rest.complete
          && old(handled) + r.handled == handled + rest.handled && r.left == messages[..i] + rest.left
      {
        ReceiveOne(messages[i..], delayed, now);
        assert messages[i..][1..] == messages[i + 1..];
        if now < messages[i].timestamp {
          if |delayed| == LIMIT {
            assert messages[..i] + messages[i..] == messages;
            return false;
          }
          delayed := delayed + [messages[i]];
          messages := messages[i := Husk(messages[i])];
          DrawLast();
        } else {
          HandleMessage(messages[i]);
        }
        i := i + 1;
      }
      ReceiveNone(delayed, now);
      assert messages[i..] == [] && messages[..i] + [] == messages;
      return true;
    }

    /** Swap the last message leftwards to its place. */
    method DrawLast()
      requires |delayed| > 0
      modifies this`delayed
      ensures var n := |old(delayed)| - 1; delayed == Draw(old(delayed)[..n], old(delayed)[n])
    {
      ghost var d, m := delayed[..|delayed| - 1], delayed[|delayed| - 1];
      hide Draw;
      var i := |delayed| - 1;
      DrawStep(d, m, i);
      while i > 0
        invariant 0 <= i <= |d|
        invariant delayed == d[..i] + [m] + d[i..]
        invariant Draw(d, m) == Draw(d[..i], m) + d[i..]
      {
        DrawStep(d, m, i);
        SwapWithPrevious(d, m, i);
        if delayed[i - 1].timestamp < delayed[i].timestamp {
          delayed := delayed[i - 1 := delayed[i]][i := delayed[i - 1]];
        } else {
          return;
        }
        i := i - 1;
      }
      DrawStep(d, m, 0);
    }

    method ReleaseDue(now: nat)
      modifies this
      ensures messages == old(messages)
      ensures var (rest, late) := Release(old(delayed), now); delayed == rest && handled == old(handled) + late
    {
      while delayed != []
        invariant messages == old(messages)
        invariant Release(old(delayed), now).0 == Release(delayed, now).0
        invariant old(handled) + Release(old(delayed), now).1 == handled + Release(delayed, now).1
        decreases |delayed|
      {
        var m := delayed[|delayed| - 1];
        if m.timestamp <= now {
          HandleMessage(m);
          delayed := delayed[..|delayed| - 1];
        } else {
          break;
        }
      }
    }
  }

  lemma DrawStep(d: seq<Message>, m: Message, i: nat)
    requires i <= |d|
    ensures i == |d| ==> d[..i] == d && d[i..] == []
    ensures i == 0 ==> Draw(d[..i], m) == [m]
    ensures i > 0 && d[i - 1].timestamp >= m.timestamp ==> Draw(d[..i], m) == d[..i] + [m]
    ensures i > 0 && d[i - 1].timestamp < m.timestamp ==> Draw(d[..i], m) + d[i..] == Draw(d[..i - 1], m) + d[i - 1..]
  {
    if i > 0 {
      assert d[..i][..i - 1] == d[..i - 1];
      assert d[i - 1..] == [d[i - 1]] + d[i..];
    }
  }

  lemma SwapWithPrevious(d: seq<Message>, m: Message, i: nat)
    requires 0 < i <= |d|
    ensures (d[..i] + [m] + d[i..])[i - 1 := m][i := d[i - 1]] == d[..i - 1] + [m] + d[i - 1..]
  {}
}
