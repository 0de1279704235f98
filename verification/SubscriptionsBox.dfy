/** The operations of the box, which move items in place. */
module SubscriptionsBoxes {
  import opened Options
  import opened Subscriptions

  /* While an item is moved, the slot it will leave or take holds a stale copy of a neighbour. */

  function MovingLeft(s: seq<Subscription>, from: nat, i: nat): seq<Subscription>
    requires i <= from < |s|
  {
    s[..i] + [s[i]] + s[i..from] + s[from + 1..]
  }

  function MovingRight(s: seq<Subscription>, from: nat, i: nat): seq<Subscription>
    requires from <= i < |s|
  {
    s[..from] + s[from + 1..i + 1] + [s[i]] + s[i + 1..]
  }

  lemma MovingLeftStep(s: seq<Subscription>, from: nat, i: nat, x: Subscription)
    requires i <= from < |s|
    ensures |MovingLeft(s, from, i)| == |s| && MovingLeft(s, from, from) == s
    ensures i > 0 ==> MovingLeft(s, from, i)[i := s[i - 1]] == MovingLeft(s, from, i - 1)
    ensures i > 0 ==> MovingLeft(s, from, i)[i - 1] == s[i - 1]
    ensures MovingLeft(s, from, i)[i := x] == Inserted(Removed(s, from), i, x)
  {}

  lemma MovingRightStep(s: seq<Subscription>, from: nat, i: nat, x: Subscription)
    requires from <= i < |s|
    ensures |MovingRight(s, from, i)| == |s| && MovingRight(s, from, from) == s
    ensures i + 1 < |s| ==> MovingRight(s, from, i)[i := s[i + 1]] == MovingRight(s, from, i + 1)
    ensures i + 1 < |s| ==> MovingRight(s, from, i)[i + 1] == s[i + 1]
    ensures MovingRight(s, from, i)[i := x] == Inserted(Removed(s, from), i, x)
  {}

  /** An item on its way out, swapped step by step with the next one. */
  function MovingOut(s: seq<Subscription>, from: nat, i: nat): seq<Subscription>
    requires from <= i < |s|
  {
    s[..from] + s[from + 1..i + 1] + [s[from]] + s[i + 1..]
  }

  lemma MovedOut(s: seq<Subscription>, from: nat, i: nat)
    requires from <= i < |s|
    ensures MovingOut(s, from, from) == s && |MovingOut(s, from, i)| == |s|
    ensures var m := MovingOut(s, from, i);
      i + 1 < |s| ==> m[i := m[i + 1]][i + 1 := m[i]] == MovingOut(s, from, i + 1)
    ensures i + 1 == |s| ==> MovingOut(s, from, i)[..|s| - 1] == Removed(s, from)
  {}

  /** Where an item is placed does not depend on what its old slot holds. */
  lemma PlaceIgnores(s: seq<Subscription>, i: nat, x: Subscription)
    requires i < |s|
    ensures Place(s[i := x], i, x) == Place(s, i, x)
  {
    var u := s[i := x];
    assert Removed(u, i) == Removed(s, i);
    LeftIgnores(s, i, i, x);
    RightIgnores(s, i, i, x);
  }

  lemma {:induction false} LeftIgnores(s: seq<Subscription>, i: nat, j: nat, x: Subscription)
    requires j <= i < |s|
    ensures LeftSlot(s[i := x], j, x) == LeftSlot(s, j, x)
    decreases j
  {
    if j > 0 { LeftIgnores(s, i, j - 1, x); }
  }

  lemma {:induction false} RightIgnores(s: seq<Subscription>, i: nat, j: nat, x: Subscription)
    requires i <= j < |s|
    ensures RightSlot(s[i := x], j, x) == RightSlot(s, j, x)
    decreases |s| - j
  {
    if j + 1 < |s| { RightIgnores(s, i, j + 1, x); }
  }

  class SubscriptionsBox {
    var subscriptions: seq<Subscription>

    constructor ()
      ensures subscriptions == [] && Represents(subscriptions, map[])
    {
      subscriptions := [];
    }

    method IndexOf(session: nat) returns (i: nat)
      ensures i == Find(subscriptions, session)
    {
      i := 0;
      while i < |subscriptions|
        invariant 0 <= i <= |subscriptions|
        invariant Find(subscriptions, session) == i + Find(subscriptions[i..], session)
      {
        if subscriptions[i].session == session {
          return;
        }
        assert subscriptions[i..][1..] == subscriptions[i + 1..];
        i := i + 1;
      }
    }

    method AddSubscription(session: nat, ms: nat, now: nat, ghost t: Table)
      requires Represents(subscriptions, t)
      modifies this
      ensures subscriptions == Add(old(subscriptions), session, ms, now)
      ensures Represents(subscriptions, t[session := Subscription(session, PeriodUs(ms), now + PeriodUs(ms))])
    {
      AddRefines(subscriptions, t, session, ms, now);
      hide Represents;
      var period := PeriodUs(ms);
      var i := IndexOf(session);
      if i < |subscriptions| {
        var x := Subscription(session, period, now + period);
        PlaceIgnores(subscriptions, i, x);
        subscriptions := subscriptions[i := x];
      } else {
        subscriptions := subscriptions + [Subscription(session, period, now + period)];
      }
      PlaceItem(i);
    }

    method RemoveSubscription(session: nat, ghost t: Table) returns (removed: bool)
      requires Represents(subscriptions, t)
      modifies this
      ensures (subscriptions, removed) == Remove(old(subscriptions), session)
      ensures Represents(subscriptions, t - {session})
    {
      RemoveRefines(subscriptions, t, session);
      hide Represents, MovingOut, Removed;
      var i := IndexOf(session);
      if i == |subscriptions| {
        return false;
      }
      SwapOut(i);
      return true;
    }

    /** Swap an item to the end of the vector, and drop it there. */
    method SwapOut(from: nat)
      requires from < |subscriptions|
      modifies this
      ensures subscriptions == Removed(old(subscriptions), from)
    {
      ghost var s := subscriptions;
      hide MovingOut, Removed;
      var i := from;
      MovedOut(s, from, from);
      while i < |subscriptions| - 1
        invariant from <= i < |subscriptions| == |s|
        invariant subscriptions == MovingOut(s, from, i)
      {
        MovedOut(s, from, i);
        subscriptions := subscriptions[i := subscriptions[i + 1]][i + 1 := subscriptions[i]];
        i := i + 1;
      }
      MovedOut(s, from, i);
      subscriptions := subscriptions[..|subscriptions| - 1];
    }

    method TakeUpdate(now: nat, ghost t: Table) returns (session: Option<nat>)
      requires Represents(subscriptions, t) && Periodic(t)
      modifies this
      ensures forall i :: 0 <= i < |old(subscriptions)| ==> old(subscriptions)[i].period > 0
      ensures (subscriptions, session) == NextUpdate(old(subscriptions), now)
    {
      NextUpdateRefines(subscriptions, t, now);
      hide Represents;
      if subscriptions == [] {
        return None;
      }
      if subscriptions[0].next > now {
        return None;
      }
      var x := subscriptions[0];
      var next := x.next + x.period;
      while next <= now
        invariant next > now ==> FirstAfter(x.next, x.period, now) == next
        invariant next <= now ==> FirstAfter(x.next, x.period, now) == FirstAfter(next, x.period, now)
        decreases now - next
      {
        next := next + x.period;
      }
      x := x.(next := next);
      session := Some(x.session);
      SetFront(x);
    }

    /** Take the front out and put `x` in its place further back. */
    method SetFront(x: Subscription)
      requires subscriptions != []
      modifies this
      ensures subscriptions == Inserted(old(subscriptions)[1..], RightSlot(old(subscriptions), 0, x), x)
    {
      ghost var s := subscriptions;
      assert Removed(s, 0) == s[1..];
      hide Inserted, Removed, MovingRight;
      MovingRightStep(s, 0, 0, x);
      var i := 1;
      while i < |subscriptions|
        invariant 1 <= i <= |s| == |subscriptions|
        invariant subscriptions == MovingRight(s, 0, i - 1)
        invariant RightSlot(s, 0, x) == RightSlot(s, i - 1, x)
      {
        MovingRightStep(s, 0, i - 1, x);
        if x.next > subscriptions[i].next {
          subscriptions := subscriptions[i - 1 := subscriptions[i]];
        } else {
          subscriptions := subscriptions[i - 1 := x];
          return;
        }
        i := i + 1;
      }
      MovingRightStep(s, 0, i - 1, x);
      subscriptions := subscriptions[|subscriptions| - 1 := x];
    }

    method PlaceItem(i: nat)
      requires i < |subscriptions|
      modifies this
      ensures subscriptions == Place(old(subscriptions), i, old(subscriptions)[i])
    {
      var item := subscriptions[i];
      if i > 0 && subscriptions[i - 1].next > item.next {
        MoveLeft(i, item);
      } else {
        MoveRight(i, item);
      }
    }

    method MoveLeft(from: nat, item: Subscription)
      requires from < |subscriptions|
      modifies this
      ensures subscriptions == Inserted(Removed(old(subscriptions), from), LeftSlot(old(subscriptions), from, item), item)
    {
      ghost var s := subscriptions;
      hide Inserted, Removed, MovingLeft;
      var i := from;
      MovingLeftStep(s, from, from, item);
      while i > 0
        invariant 0 <= i <= from && subscriptions == MovingLeft(s, from, i)
        invariant LeftSlot(s, from, item) == LeftSlot(s, i, item)
      {
        MovingLeftStep(s, from, i, item);
        if subscriptions[i - 1].next > item.next {
          subscriptions := subscriptions[i := subscriptions[i - 1]];
          i := i - 1;
        } else {
          subscriptions := subscriptions[i := item];
          return;
        }
      }
      MovingLeftStep(s, from, i, item);
      subscriptions := subscriptions[i := item];
    }

    method MoveRight(from: nat, item: Subscription)
      requires from < |subscriptions|
      modifies this
      ensures subscriptions == Inserted(Removed(old(subscriptions), from), RightSlot(old(subscriptions), from, item), item)
    {
      ghost var s := subscriptions;
      hide Inserted, Removed, MovingRight;
      var i := from;
      MovingRightStep(s, from, from, item);
      while i < |subscriptions| - 1
        invariant from <= i < |subscriptions| == |s| && subscriptions == MovingRight(s, from, i)
        invariant RightSlot(s, from, item) == RightSlot(s, i, item)
      {
        MovingRightStep(s, from, i, item);
        if item.next > subscriptions[i + 1].next {
          subscriptions := subscriptions[i := subscriptions[i + 1]];
          i := i + 1;
        } else {
          subscriptions := subscriptions[i := item];
          return;
        }
      }
      MovingRightStep(s, from, i, item);
      subscriptions := subscriptions[i := item];
    }
  }
}
