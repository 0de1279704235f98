/** Subscriptions that come due periodically, kept in a vector sorted by the time of their next update. */
module Subscriptions {
  import opened Options

  datatype Subscription = Subscription(session: nat, period: nat, next: nat)

  /** The period in microseconds: the product of two 32-bit numbers wraps around. */
  function PeriodUs(ms: nat): nat { ms * 1000 % 0x1_0000_0000 }

  /** The period is what the caller asked for exactly up to this many milliseconds; it is zero for some larger ones. */
  lemma PeriodIsExact(ms: nat)
    requires ms < 0x1_0000_0000
    ensures PeriodUs(ms) == ms * 1000 <==> ms <= 4_294_967
    ensures PeriodUs(ms) == 0 <==> ms % 0x2000_0000 == 0
  {
    var q := ms / 0x2000_0000;
    var r := ms % 0x2000_0000;
    assert ms * 1000 == 125 * q * 0x1_0000_0000 + 1000 * r;
    assert ms * 1000 % 0x1_0000_0000 == 1000 * r % 0x1_0000_0000;
    if PeriodUs(ms) == 0 {
      var k := 1000 * r / 0x1_0000_0000;
      assert 125 * r == k * 0x2000_0000;
      assert 125 * r % 0x2000_0000 == 0;
    }
  }

  /** A period of 4294968 ms is taken for 704 us, and one of 2^29 ms for none at all. */
  lemma PeriodsThatWrap()
    ensures PeriodUs(4_294_968) == 704 && PeriodUs(0x2000_0000) == 0
  {
    assert 4_294_968 * 1000 == 0x1_0000_0000 + 704;
    assert 0x2000_0000 * 1000 == 125 * 0x1_0000_0000;
  }

  predicate Sorted(s: seq<Subscription>) { forall i, j :: 0 <= i < j < |s| ==> s[i].next <= s[j].next }

  predicate Distinct(s: seq<Subscription>) { forall i, j :: 0 <= i < j < |s| ==> s[i].session != s[j].session }

  /** What the box stands for: at most one subscription for each session. */
  type Table = map<nat, Subscription>

  ghost predicate Shows(s: seq<Subscription>, t: Table) {
    && (forall i :: 0 <= i < |s| ==> s[i].session in t && t[s[i].session] == s[i])
    && (forall id :: id in t ==> t[id].session == id && t[id] in s)
  }

  ghost predicate Represents(s: seq<Subscription>, t: Table) { Sorted(s) && Distinct(s) && Shows(s, t) }

  ghost predicate Periodic(t: Table) { forall id :: id in t ==> t[id].period > 0 }

  /* Moving an item to its place. */

  function Removed(s: seq<Subscription>, i: nat): seq<Subscription>
    requires i < |s|
  {
    s[..i] + s[i + 1..]
  }

  function Inserted(s: seq<Subscription>, j: nat, x: Subscription): seq<Subscription>
    requires j <= |s|
  {
    s[..j] + [x] + s[j..]
  }

  function LeftSlot(s: seq<Subscription>, i: nat, x: Subscription): (j: nat)
    requires i < |s|
    ensures j <= i
  {
    if i > 0 && s[i - 1].next > x.next then LeftSlot(s, i - 1, x) else i
  }

  function RightSlot(s: seq<Subscription>, i: nat, x: Subscription): (j: nat)
    requires i < |s|
    ensures i <= j < |s|
    decreases |s| - i
  {
    if i + 1 < |s| && x.next > s[i + 1].next then RightSlot(s, i + 1, x) else i
  }

  /** Put `x`, which takes the place of item `i`, where the order of updates wants it. */
  function Place(s: seq<Subscription>, i: nat, x: Subscription): seq<Subscription>
    requires i < |s|
  {
    var j := if i > 0 && s[i - 1].next > x.next then LeftSlot(s, i, x) else RightSlot(s, i, x);
    Inserted(Removed(s, i), j, x)
  }

  function Find(s: seq<Subscription>, session: nat): (i: nat)
    ensures i <= |s| && (i < |s| ==> s[i].session == session)
    ensures forall k :: 0 <= k < i ==> s[k].session != session
  {
    if s == [] || s[0].session == session then 0 else 1 + Find(s[1..], session)
  }

  function Add(s: seq<Subscription>, session: nat, ms: nat, now: nat): seq<Subscription> {
    var x := Subscription(session, PeriodUs(ms), now + PeriodUs(ms));
    var i := Find(s, session);
    if i < |s| then Place(s, i, x) else Place(s + [x], |s|, x)
  }

  function Remove(s: seq<Subscription>, session: nat): (seq<Subscription>, bool) {
    var i := Find(s, session);
    if i < |s| then (Removed(s, i), true) else (s, false)
  }

  /** Add the period, at least once, until the time is past `now`. */
  function FirstAfter(next: nat, period: nat, now: nat): (r: nat)
    requires period > 0
    ensures r > now && r > next
    decreases now - next
  {
    if next + period <= now then FirstAfter(next + period, period, now) else next + period
  }

  function NextUpdate(s: seq<Subscription>, now: nat): (seq<Subscription>, Option<nat>)
    requires forall i :: 0 <= i < |s| ==> s[i].period > 0
  {
    if s == [] || s[0].next > now then (s, None)
    else
      var x := s[0].(next := FirstAfter(s[0].next, s[0].period, now));
      (Inserted(s[1..], RightSlot(s, 0, x), x), Some(s[0].session))
  }

  /* The box refines the table. */

  lemma RemovedAt(s: seq<Subscription>, i: nat)
    requires i < |s|
    ensures |Removed(s, i)| == |s| - 1
    ensures forall k :: 0 <= k < |s| - 1 ==> Removed(s, i)[k] == s[if k < i then k else k + 1]
  {}

  lemma InsertedAt(s: seq<Subscription>, j: nat, x: Subscription)
    requires j <= |s|
    ensures |Inserted(s, j, x)| == |s| + 1
    ensures forall k :: 0 <= k <= |s| ==> Inserted(s, j, x)[k] == if k < j then s[k] else if k == j then x else s[k - 1]
  {}

  lemma RemovedShows(s: seq<Subscription>, t: Table, i: nat)
    requires Shows(s, t) && Distinct(s) && i < |s|
    ensures Shows(Removed(s, i), t - {s[i].session})
  {
    RemovedAt(s, i);
    hide Removed;
    var r := Removed(s, i);
    forall id | id in t && id != s[i].session ensures t[id] in r {
      var k :| 0 <= k < |s| && s[k] == t[id];
      assert r[if k < i then k else k - 1] == t[id];
    }
  }

  lemma RemovedRepresents(s: seq<Subscription>, t: Table, i: nat)
    requires Represents(s, t) && i < |s|
    ensures Represents(Removed(s, i), t - {s[i].session})
  {
    RemovedShows(s, t, i);
    RemovedAt(s, i);
    hide Shows, Removed;
  }

  lemma InsertedShows(s: seq<Subscription>, t: Table, j: nat, x: Subscription)
    requires Shows(s, t) && j <= |s| && x.session !in t
    ensures Shows(Inserted(s, j, x), t[x.session := x])
  {
    InsertedAt(s, j, x);
    hide Inserted;
    var r, u := Inserted(s, j, x), t[x.session := x];
    forall id | id in u ensures u[id] in r {
      if id == x.session {
        assert r[j] == x;
      } else {
        var k :| 0 <= k < |s| && s[k] == t[id];
        assert r[if k < j then k else k + 1] == t[id];
      }
    }
  }

  lemma InsertedSorted(s: seq<Subscription>, j: nat, x: Subscription)
    requires Sorted(s) && j <= |s|
    requires j > 0 ==> s[j - 1].next <= x.next
    requires j < |s| ==> x.next <= s[j].next
    ensures Sorted(Inserted(s, j, x))
  {
    InsertedAt(s, j, x);
    hide Inserted;
    assert forall k :: 0 <= k < j ==> s[k].next <= x.next;
    assert forall k :: j <= k < |s| ==> x.next <= s[k].next;
  }

  lemma InsertedDistinct(s: seq<Subscription>, j: nat, x: Subscription)
    requires Distinct(s) && j <= |s| && forall k :: 0 <= k < |s| ==> s[k].session != x.session
    ensures Distinct(Inserted(s, j, x))
  {
    InsertedAt(s, j, x);
    hide Inserted;
  }

  lemma InsertedRepresents(s: seq<Subscription>, t: Table, j: nat, x: Subscription)
    requires Represents(s, t) && j <= |s| && x.session !in t
    requires j > 0 ==> s[j - 1].next <= x.next
    requires j < |s| ==> x.next <= s[j].next
    ensures Represents(Inserted(s, j, x), t[x.session := x])
  {
    InsertedShows(s, t, j, x);
    InsertedSorted(s, j, x);
    InsertedDistinct(s, j, x);
    hide Shows, Sorted, Distinct, Inserted;
  }

  lemma {:induction false} LeftSlotFits(s: seq<Subscription>, i: nat, x: Subscription)
    requires i < |s|
    ensures var j := LeftSlot(s, i, x);
      (j > 0 ==> s[j - 1].next <= x.next) && forall k :: j <= k < i ==> x.next < s[k].next
  {
    if i > 0 && s[i - 1].next > x.next { LeftSlotFits(s, i - 1, x); }
  }

  lemma {:induction false} RightSlotFits(s: seq<Subscription>, i: nat, x: Subscription)
    requires i < |s|
    ensures var j := RightSlot(s, i, x);
      (j + 1 < |s| ==> x.next <= s[j + 1].next) && forall k :: i < k <= j ==> s[k].next < x.next
    decreases |s| - i
  {
    if i + 1 < |s| && x.next > s[i + 1].next { RightSlotFits(s, i + 1, x); }
  }

  /** Wherever an item is put back, the others being sorted, the vector is sorted again and nothing else changes. */
  lemma PlaceRepresents(s: seq<Subscription>, t: Table, i: nat, x: Subscription)
    requires i < |s| && Represents(Removed(s, i), t) && x.session !in t
    ensures Represents(Place(s, i, x), t[x.session := x])
  {
    var rest := Removed(s, i);
    if i > 0 && s[i - 1].next > x.next {
      LeftSlotFits(s, i, x);
      InsertedRepresents(rest, t, LeftSlot(s, i, x), x);
    } else {
      RightSlotFits(s, i, x);
      var j := RightSlot(s, i, x);
      assert j > 0 ==> rest[j - 1] == if j == i then s[j - 1] else s[j];
      InsertedRepresents(rest, t, j, x);
    }
  }

  /** Behind which of the others a new subscription comes: behind those that are due no later, and before all the rest. */
  lemma NewComesBehindEqual(s: seq<Subscription>, t: Table, session: nat, ms: nat, now: nat) returns (j: nat)
    requires Represents(s, t) && session !in t
    ensures j <= |s|
    ensures var x := Subscription(session, PeriodUs(ms), now + PeriodUs(ms));
      && Add(s, session, ms, now) == s[..j] + [x] + s[j..]
      && (forall k :: 0 <= k < j ==> s[k].next <= x.next) && (forall k :: j <= k < |s| ==> s[k].next > x.next)
  {
    FindInTable(s, t, session);
    hide PeriodUs;
    j := PlaceOfLast(s, Subscription(session, PeriodUs(ms), now + PeriodUs(ms)));
    hide Place, Represents;
  }

  lemma PlaceOfLast(s: seq<Subscription>, x: Subscription) returns (j: nat)
    requires Sorted(s)
    ensures j <= |s| && Place(s + [x], |s|, x) == s[..j] + [x] + s[j..]
    ensures (forall k :: 0 <= k < j ==> s[k].next <= x.next) && (forall k :: j <= k < |s| ==> s[k].next > x.next)
  {
    var all := s + [x];
    assert Removed(all, |s|) == s;
    j := |s|;
    if |s| > 0 && all[|s| - 1].next > x.next {
      LeftSlotFits(all, |s|, x);
      j := LeftSlot(all, |s|, x);
    }
    assert RightSlot(all, |s|, x) == |s|;
    hide LeftSlot, RightSlot, Removed;
    forall k | 0 <= k < j ensures s[k].next <= x.next { assert s[k].next <= s[j - 1].next; }
    forall k | j <= k < |s| ensures s[k].next > x.next { assert all[k] == s[k]; }
  }

  /** A served subscription comes before those that are due no sooner than its next time, and behind all the rest. */
  lemma ServedComesBeforeEqual(s: seq<Subscription>, now: nat) returns (j: nat)
    requires s != [] && s[0].next <= now && Sorted(s) && forall i :: 0 <= i < |s| ==> s[i].period > 0
    ensures 1 <= j <= |s|
    ensures var x := s[0].(next := FirstAfter(s[0].next, s[0].period, now));
      && NextUpdate(s, now).0 == s[1..j] + [x] + s[j..]
      && (forall k :: 1 <= k < j ==> s[k].next < x.next) && (forall k :: j <= k < |s| ==> s[k].next >= x.next)
  {
    var x := s[0].(next := FirstAfter(s[0].next, s[0].period, now));
    RightSlotFits(s, 0, x);
    j := RightSlot(s, 0, x) + 1;
    assert s[1..][..j - 1] == s[1..j] && s[1..][j - 1..] == s[j..];
    hide RightSlot, FirstAfter;
    forall k | j <= k < |s| ensures s[k].next >= x.next { assert s[j].next <= s[k].next; }
  }

  lemma FindInTable(s: seq<Subscription>, t: Table, session: nat)
    requires Represents(s, t)
    ensures Find(s, session) < |s| <==> session in t
  {
    if session in t {
      var k :| 0 <= k < |s| && s[k] == t[session];
    }
  }

  /** Adding replaces the subscription of the session, or makes it, and touches no other one. */
  lemma AddRefines(s: seq<Subscription>, t: Table, session: nat, ms: nat, now: nat)
    requires Represents(s, t)
    ensures Represents(Add(s, session, ms, now), t[session := Subscription(session, PeriodUs(ms), now + PeriodUs(ms))])
  {
    var x := Subscription(session, PeriodUs(ms), now + PeriodUs(ms));
    var i := Find(s, session);
    FindInTable(s, t, session);
    if i < |s| {
      RemovedRepresents(s, t, i);
      PlaceRepresents(s, t - {session}, i, x);
      assert (t - {session})[session := x] == t[session := x];
    } else {
      assert Removed(s + [x], |s|) == s;
      PlaceRepresents(s + [x], t, |s|, x);
    }
  }

  lemma RemoveRefines(s: seq<Subscription>, t: Table, session: nat)
    requires Represents(s, t)
    ensures Represents(Remove(s, session).0, t - {session})
    ensures Remove(s, session).1 <==> session in t
  {
    FindInTable(s, t, session);
    var i := Find(s, session);
    if i < |s| {
      RemovedRepresents(s, t, i);
    } else {
      assert t - {session} == t;
    }
  }

  /** What an update leaves behind for its session. */
  function Advanced(x: Subscription, now: nat): Subscription
    requires x.period > 0
  {
    x.(next := FirstAfter(x.next, x.period, now))
  }

  /** The first time past `now` that is some periods, at least one, after `next`. */
  lemma {:induction false} FirstAfterIsMultiple(next: nat, period: nat, now: nat) returns (k: nat)
    requires period > 0
    ensures k > 0 && FirstAfter(next, period, now) == next + k * period
    ensures k > 1 ==> next + (k - 1) * period <= now
    decreases now - next
  {
    if next + period <= now {
      var j := FirstAfterIsMultiple(next + period, period, now);
      k := j + 1;
      assert k * period == j * period + period;
      assert (k - 1) * period == (j - 1) * period + period;
    } else {
      k := 1;
    }
  }

  /** The time after the `n`-th turn of the loop that adds the period. */
  function Iterate(next: nat, period: nat, n: nat): nat { if n == 0 then next else Iterate(next, period, n - 1) + period }

  /** The loop ends after its `n`-th turn: that is the first one to pass `now`. */
  ghost predicate EndsAfter(next: nat, period: nat, now: nat, n: nat) {
    n > 0 && Iterate(next, period, n) > now && forall k :: 0 < k < n ==> Iterate(next, period, k) <= now
  }

  ghost predicate LoopEnds(next: nat, period: nat, now: nat) { exists n :: EndsAfter(next, period, now, n) }

  lemma {:induction false} IterateShifts(next: nat, period: nat, n: nat)
    ensures Iterate(next + period, period, n) == Iterate(next, period, n + 1)
  {
    if n > 0 { IterateShifts(next, period, n - 1); }
  }

  lemma {:induction false} IterateOfNothing(next: nat, n: nat)
    ensures Iterate(next, 0, n) == next
  {
    if n > 0 { IterateOfNothing(next, n - 1); }
  }

  /** With a period the loop ends, with the time that an update leaves. */
  lemma {:induction false} TurnsOfLoop(next: nat, period: nat, now: nat) returns (n: nat)
    requires period > 0
    ensures EndsAfter(next, period, now, n) && Iterate(next, period, n) == FirstAfter(next, period, now)
    decreases now - next
  {
    assert Iterate(next, period, 1) == Iterate(next, period, 0) + period;
    if next + period <= now {
      var m := TurnsOfLoop(next + period, period, now);
      n := m + 1;
      IterateShifts(next, period, m);
      forall k | 0 < k < n ensures Iterate(next, period, k) <= now {
        if k > 1 { IterateShifts(next, period, k - 1); }
      }
    } else {
      n := 1;
    }
  }

  /** The loop ends if and only if there is a period, or the time was past `now` before it began. */
  lemma LoopEndsIff(next: nat, period: nat, now: nat)
    ensures LoopEnds(next, period, now) <==> period > 0 || next > now
  {
    if period > 0 {
      var n := TurnsOfLoop(next, period, now);
    } else if next > now {
      IterateOfNothing(next, 1);
      assert EndsAfter(next, period, now, 1);
    } else {
      forall n ensures !EndsAfter(next, period, now, n) {
        if n > 0 { IterateOfNothing(next, n); }
      }
    }
  }

  /**
   * A subscription made with a period of `ms`: once it is due, the loop of the update that serves it ends if and only
   * if `ms` is no multiple of 2^29, zero included.
   */
  lemma UpdateEndsIff(session: nat, ms: nat, added: nat, now: nat)
    requires ms < 0x1_0000_0000 && added + PeriodUs(ms) <= now
    ensures LoopEnds(added + PeriodUs(ms), PeriodUs(ms), now) <==> ms % 0x2000_0000 != 0
  {
    PeriodIsExact(ms);
    LoopEndsIff(added + PeriodUs(ms), PeriodUs(ms), now);
    hide PeriodUs;
  }

  /** So adding keeps every later update ending if and only if the period asked for is no such multiple. */
  lemma AddKeepsPeriodic(t: Table, session: nat, ms: nat, now: nat)
    requires Periodic(t) && ms < 0x1_0000_0000
    ensures Periodic(t[session := Subscription(session, PeriodUs(ms), now + PeriodUs(ms))]) <==> ms % 0x2000_0000 != 0
  {
    PeriodIsExact(ms);
    var u := t[session := Subscription(session, PeriodUs(ms), now + PeriodUs(ms))];
    hide PeriodUs;
    assert session in u && u[session].period == PeriodUs(ms);
  }

  lemma PeriodsPositive(s: seq<Subscription>, t: Table)
    requires Represents(s, t) && Periodic(t)
    ensures forall i :: 0 <= i < |s| ==> s[i].period > 0
  {}

  lemma FrontIsSoonest(s: seq<Subscription>, t: Table)
    requires Represents(s, t) && s != []
    ensures s[0].session in t && t[s[0].session] == s[0]
    ensures forall id :: id in t ==> s[0].next <= t[id].next
  {
    forall id | id in t ensures s[0].next <= t[id].next {
      var k :| 0 <= k < |s| && s[k] == t[id];
    }
  }

  lemma PlaceFront(s: seq<Subscription>, x: Subscription)
    requires s != []
    ensures Place(s, 0, x) == Inserted(s[1..], RightSlot(s, 0, x), x)
  {
    assert Removed(s, 0) == s[1..];
  }

  lemma ServeFront(s: seq<Subscription>, t: Table, x: Subscription)
    requires Represents(s, t) && s != [] && x.session == s[0].session
    ensures Represents(Inserted(s[1..], RightSlot(s, 0, x), x), t[x.session := x])
  {
    hide Represents, Inserted, Removed, RightSlot, Place;
    RemovedRepresents(s, t, 0);
    PlaceRepresents(s, t - {x.session}, 0, x);
    PlaceFront(s, x);
    assert (t - {x.session})[x.session := x] == t[x.session := x];
  }

  /** An update serves a session that is due soonest, when there is one, and moves only its next time. */
  lemma NextUpdateRefines(s: seq<Subscription>, t: Table, now: nat)
    requires Represents(s, t) && Periodic(t)
    ensures forall i :: 0 <= i < |s| ==> s[i].period > 0
    ensures var (r, session) := NextUpdate(s, now);
      && (session.None? <==> forall id :: id in t ==> t[id].next > now)
      && (session.None? ==> r == s)
      && (session.Some? ==>
        && session.value in t && t[session.value].next <= now
        && (forall id :: id in t ==> t[session.value].next <= t[id].next)
        && Represents(r, t[session.value := Advanced(t[session.value], now)]))
  {
    PeriodsPositive(s, t);
    if s == [] {
      assert t == map[];
    } else {
      FrontIsSoonest(s, t);
      ServeFront(s, t, Advanced(s[0], now));
      hide Represents, Inserted, RightSlot, FirstAfter;
    }
  }

  /* Draining: asking for updates at one time until there is none. */

  /** How many of the first subscriptions are due. */
  function Due(s: seq<Subscription>, now: nat): (n: nat)
    ensures n <= |s|
    ensures forall i :: 0 <= i < n ==> s[i].next <= now
    ensures n < |s| ==> s[n].next > now
  {
    if s == [] || s[0].next > now then 0 else 1 + Due(s[1..], now)
  }

  function Sessions(s: seq<Subscription>): seq<nat> { seq(|s|, i requires 0 <= i < |s| => s[i].session) }

  ghost function Settled(t: Table, now: nat): Table
    requires Periodic(t)
  {
    map id | id in t :: if t[id].next <= now then Advanced(t[id], now) else t[id]
  }

  lemma SlotBehindDue(s: seq<Subscription>, now: nat, x: Subscription)
    requires s != [] && x.next > now
    ensures RightSlot(s, 0, x) + 1 >= Due(s, now)
  {
    RightSlotFits(s, 0, x);
  }

  /** A served subscription goes behind all that are still due. */
  lemma ServedGoesBehind(s: seq<Subscription>, now: nat)
    requires s != [] && s[0].next <= now && forall i :: 0 <= i < |s| ==> s[i].period > 0
    ensures var r := NextUpdate(s, now).0; var n := Due(s, now);
      n > 0 && |r| == |s| && Due(r, now) == n - 1 && r[..n - 1] == s[1..n]
  {
    var x := s[0].(next := FirstAfter(s[0].next, s[0].period, now));
    SlotBehindDue(s, now, x);
    var r, n, j := NextUpdate(s, now).0, Due(s, now), RightSlot(s, 0, x);
    assert r == Inserted(s[1..], j, x) && n > 0;
    InsertedAt(s[1..], j, x);
    hide Inserted, NextUpdate, FirstAfter, RightSlot, Due;
    assert forall k :: 0 <= k < n - 1 ==> r[k] == s[k + 1];
    assert r[n - 1].next > now by {
      if j + 1 != n { assert r[n - 1] == s[n]; }
    }
    DueIsPrefix(r, now, n - 1);
  }

  lemma {:induction false} DueIsPrefix(s: seq<Subscription>, now: nat, n: nat)
    requires n < |s| && s[n].next > now && forall i :: 0 <= i < n ==> s[i].next <= now
    ensures Due(s, now) == n
  {}

  lemma NextUpdateCases(s: seq<Subscription>, t: Table, now: nat)
    requires Represents(s, t) && Periodic(t)
    ensures forall i :: 0 <= i < |s| ==> s[i].period > 0
    ensures NextUpdate(s, now).1.None? <==> Due(s, now) == 0
    ensures NextUpdate(s, now).1.Some? ==>
      Sorted(s) && s != [] && s[0].next <= now && NextUpdate(s, now).1 == Some(s[0].session)
  {}

  lemma NothingToSettle(s: seq<Subscription>, t: Table, now: nat)
    requires Periodic(t) && forall id :: id in t ==> t[id].next > now
    ensures Settled(t, now) == t && Sessions(s[..0]) == []
  {}

  lemma SettleOneFirst(t: Table, id: nat, now: nat)
    requires Periodic(t) && id in t && t[id].next <= now
    ensures Periodic(t[id := Advanced(t[id], now)])
    ensures Settled(t[id := Advanced(t[id], now)], now) == Settled(t, now)
  {}

  ghost function Drain(s: seq<Subscription>, t: Table, now: nat): (r: (seq<Subscription>, seq<nat>))
    requires Represents(s, t) && Periodic(t)
    decreases Due(s, now)
  {
    NextUpdateRefines(s, t, now);
    var (q, session) := NextUpdate(s, now);
    if session.None? then (s, [])
    else
      ServedGoesBehind(s, now);
      var rest := Drain(q, t[session.value := Advanced(t[session.value], now)], now);
      (rest.0, [session.value] + rest.1)
  }

  lemma DrainNothing(s: seq<Subscription>, t: Table, now: nat)
    requires Represents(s, t) && Periodic(t) && Due(s, now) == 0
    ensures Drain(s, t, now) == (s, []) && Settled(t, now) == t && Sessions(s[..0]) == []
  {
    NextUpdateCases(s, t, now);
    NextUpdateRefines(s, t, now);
  }

  lemma DrainFront(s: seq<Subscription>, t: Table, now: nat) returns (r: seq<Subscription>, u: Table)
    requires Represents(s, t) && Periodic(t) && Due(s, now) > 0
    ensures Represents(r, u) && Periodic(u) && Settled(u, now) == Settled(t, now)
    ensures Due(r, now) == Due(s, now) - 1 && |r| == |s| && r[..Due(r, now)] == s[1..Due(s, now)]
    ensures Drain(s, t, now) == (Drain(r, u, now).0, [s[0].session] + Drain(r, u, now).1)
  {
    NextUpdateCases(s, t, now);
    hide Represents, Due, Settled, Sessions, NextUpdate, FirstAfter, Periodic;
    NextUpdateRefines(s, t, now);
    ServedGoesBehind(s, now);
    var id := s[0].session;
    SettleOneFirst(t, id, now);
    r, u := NextUpdate(s, now).0, t[id := Advanced(t[id], now)];
  }

  /**
   * Draining returns the sessions that were due, each once and in the order of their due times, and leaves
   * each of them at its first multiple of the period after `now`, and the other ones where they were.
   */
  lemma {:induction false} DrainServesDue(s: seq<Subscription>, t: Table, now: nat)
    requires Represents(s, t) && Periodic(t)
    ensures Drain(s, t, now).1 == Sessions(s[..Due(s, now)])
    ensures Represents(Drain(s, t, now).0, Settled(t, now))
    ensures Due(Drain(s, t, now).0, now) == 0
    decreases Due(s, now)
  {
    hide *;
    if Due(s, now) == 0 {
      DrainNothing(s, t, now);
    } else {
      var r, u := DrainFront(s, t, now);
      DrainServesDue(r, u, now);
      SessionsOfPrefix(s, Due(s, now));
    }
  }

  lemma SessionsOfPrefix(s: seq<Subscription>, n: nat)
    requires 0 < n <= |s|
    ensures Sessions(s[..n]) == [s[0].session] + Sessions(s[1..n])
  {}
}
