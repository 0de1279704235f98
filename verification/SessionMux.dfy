/** The session multiplexer as the server runs it: mutable tables, updated in place by each call.
    Every method is proved to do to the tables what the function of SessionTable.dfy of the same name does to
    the value, so what SessionRuns.dfy proves of runs holds of this class. */
module SessionMultiplexer {
  import opened Options
  import opened SessionTable
  import opened SessionRuns

  class SessionMux {
    var connections: seq<Connection>
    var sessions: seq<Session>
    var indexesToReuse: seq<nat>
    var outbox: seq<Signal>
    ghost var issued: multiset<Ticket>
    ghost var reported: multiset<Ticket>

    ghost function State(): Table
      reads this
    {
      Table(connections, sessions, indexesToReuse, outbox, issued, reported)
    }

    ghost predicate Valid()
      reads this
    {
      Inv(State())
    }

    constructor (connectionsLimit: nat)
      requires connectionsLimit < 0x100
      ensures State() == Start(connectionsLimit) && Valid()
    {
      connections := seq(connectionsLimit, _ => CLOSED_LINK);
      sessions := [DEAD_SLOT];
      indexesToReuse := [];
      outbox := [];
      issued := multiset{};
      reported := multiset{};
      new;
      StartInv(connectionsLimit);
    }

    /** Any token but zero and the one last used on the slot. */
    method GenerateToken(last: nat) returns (token: nat)
      ensures IsToken(token, last)
    {
      assert IsToken(if last == 1 then 2 else 1, last);
      token :| 0 < token < SLOTS && IsToken(token, last);
    }

    method AddConnection(c: nat, handler: Handler, now: nat) returns (id: nat)
      requires Valid()
      requires c < |connections| ==> !connections[c].up
      modifies this
      ensures c >= |old(connections)| ==> id == 0 && State() == old(State())
      ensures c < |old(connections)| ==>
        && IsToken(id % SLOTS, 0)
        && State() == SessionTable.AddConnection(old(State()), c, handler, id % SLOTS, now)
        && |sessions| == |old(sessions)| + 1 && id == sessions[|old(sessions)|].Id()
        && (Valid() <==> |old(sessions)| <= 0xFFFF)
    {
      if c < |connections| {
        var token := GenerateToken(0);
        AddConnectionEffect(State(), c, handler, token, now);
        var session := Session(|sessions| % SLOTS, token, c, Some(handler));
        IdParts(session);
        id := session.Id();
        sessions := sessions + [session];
        connections := connections[c := Connection(true, connections[c].sessions + [id], now, now)];
        issued := issued + multiset{Ticket(handler, id)};
        return;
      }
      id := 0;
    }

    /** Take a slot from the free list, or grow the table; 0 when neither is possible. */
    method OccupyIndex() returns (index: nat)
      modifies this
      ensures State() == Occupy(old(State())) && index == NextSlot(old(State()))
    {
      if indexesToReuse != [] {
        index := indexesToReuse[|indexesToReuse| - 1];
        indexesToReuse := indexesToReuse[..|indexesToReuse| - 1];
      } else if |sessions| < 0xFFFF {
        index := |sessions|;
        sessions := sessions + [Session(index, 0, 0, None)];
      } else {
        index := 0;
      }
    }

    /** The token the next session will get, chosen to differ from the last one used on its slot. */
    method TokenForNextSlot() returns (token: nat)
      requires Valid()
      ensures IsToken(token, OldToken(State()))
    {
      var last := if indexesToReuse != [] then sessions[indexesToReuse[|indexesToReuse| - 1]].token else 0;
      token := GenerateToken(last);
    }

    method CreateSession(parent: nat, handler: Handler) returns (id: nat)
      requires Valid()
      modifies this
      ensures Valid()
      ensures id == 0 <==> !CanCreate(old(State()), parent)
      ensures id == 0 ==> State() == old(State())
      ensures id != 0 ==>
        && IndexOf(id) == NextSlot(old(State())) && IsToken(id % SLOTS, OldToken(old(State())))
        && State() == SessionTable.CreateSession(old(State()), parent, handler, id % SLOTS)
    {
      id := 0;
      if parent / SLOTS >= |sessions| {
        return;
      }
      var parentSession := sessions[parent / SLOTS];
      if !parentSession.IsValid() || parentSession.Id() != parent {
        return;
      }
      var c := parentSession.connection;
      ghost var before := State();
      hide Inv, SessionTable.CreateSession, OldToken;
      var token := TokenForNextSlot();
      CreateSessionEffect(before, parent, handler, token);
      var index := OccupyIndex();
      CreateByParts(before, parent, handler, token);
      if index != 0 {
        var session := sessions[index].(token := token, connection := c, handler := Some(handler));
        IdParts(session);
        sessions := sessions[index := session];
        id := session.Id();
        connections := connections[c := connections[c].(sessions := connections[c].sessions + [id])];
        issued := issued + multiset{Ticket(handler, id)};
      }
    }

    /** Close one session; `notify` says whether its client is told. */
    method CloseSessionLocked(id: nat, notify: bool) returns (done: bool)
      modifies this
      ensures done == Matches(old(State()), id)
      ensures State() == CloseOne(old(State()), id, notify)
    {
      var index := id / SLOTS;
      if index == 0 || index >= |sessions| {
        return false;
      }
      var session := sessions[index];
      if session.IsValid() && session.Id() == id {
        if notify {
          outbox := outbox + [ClosedInd(session.connection, id)];
        }
        reported := reported + multiset{Ticket(session.handler.value, id)};
        sessions := sessions[index := session.(connection := 0, handler := None)];
        indexesToReuse := indexesToReuse + [session.index];
        return true;
      }
      return false;
    }

    method CloseConnectionLocked(c: nat, notify: bool) returns (done: bool)
      requires Valid()
      modifies this
      ensures Valid() && done == (c < |old(connections)|)
      ensures State() == CloseConnection(old(State()), c, notify)
    {
      if c >= |connections| {
        return false;
      }
      ghost var before := State();
      var ids := connections[c].sessions;
      var k := 0;
      while k < |ids|
        invariant 0 <= k <= |ids|
        invariant connections == before.connections
        invariant CloseIds(State(), ids[k..], notify) == CloseIds(before, ids, notify)
      {
        assert ids[k..][1..] == ids[k + 1..];
        var _ := CloseSessionLocked(ids[k], notify);
        k := k + 1;
      }
      connections := connections[c := CLOSED_LINK];
      if notify {
        outbox := outbox + [Disconnect(c)];
      }
      CloseConnectionEffect(before, c, notify);
      return true;
    }

    method CloseSession(id: nat) returns (done: bool)
      requires Valid()
      modifies this
      ensures Valid() && State() == SessionTable.CloseSession(old(State()), id)
      ensures done <==>
        Matches(old(State()), id)
        || (IndexOf(id) < |old(sessions)| && IsRoot(old(State()), old(sessions)[IndexOf(id)]))
    {
      if id / SLOTS >= |sessions| {
        return false;
      }
      CloseSessionEffect(State(), id);
      var session := sessions[id / SLOTS];
      if session.connection < |connections| && connections[session.connection].up
         && connections[session.connection].sessions != []
         && connections[session.connection].sessions[0] == session.Id() {
        done := CloseConnectionLocked(session.connection, true);
      } else {
        done := CloseSessionLocked(id, true);
      }
    }

    method MarkAllConnectionsAsClosed()
      requires Valid()
      modifies this
      ensures Valid() && State() == MarkAllClosed(old(State()))
      ensures forall i :: 0 <= i < |sessions| ==> !sessions[i].IsValid()
      ensures reported == issued == old(issued)
    {
      ghost var before := State();
      MarkAllClosedEffect(before);
      hide Inv, CloseConnection, CloseFirst;
      CloseFirstStep(before, 0);
      var c := 0;
      while c < |connections|
        invariant 0 <= c <= |connections| == |before.connections|
        invariant Valid() && State() == CloseFirst(before, c)
      {
        CloseFirstStep(before, c + 1);
        if connections[c].up {
          var _ := CloseConnectionLocked(c, false);
        }
        c := c + 1;
      }
    }

    /** Send a heartbeat on each silent connection, and close those that have been silent for too long. */
    method CheckConnectionsActivity(now: nat)
      requires Valid()
      modifies this
      ensures Valid() && State() == CheckFirst(old(State()), |old(connections)|, now)
      ensures |connections| == |old(connections)|
      ensures forall c :: 0 <= c < |connections| ==> connections[c] == CheckLink(old(connections)[c], now)
    {
      hide Inv, CheckOne, CloseConnection;
      ghost var before := State();
      var c := 0;
      while c < |connections|
        invariant 0 <= c <= |connections| == |before.connections|
        invariant Valid() && State() == CheckFirst(before, c, now)
      {
        CheckByParts(State(), c, now);
        var link := connections[c];
        CheckOneEffect(State(), c, now);
        if link.up && TimeToBeat(link, now) {
          if Since(now, link.lastMessageAt) < DISCONNECT_US {
            var root := link.sessions[0];
            var session := sessions[root / SLOTS];
            if session.IsValid() && session.Id() == root {
              outbox := outbox + [Heartbeat(session.connection, root)];
            }
            connections := connections[c := link.(lastHeartbeatAt := now)];
          } else {
            var _ := CloseConnectionLocked(c, true);
          }
        }
        c := c + 1;
      }
      CheckFirstEffect(before, |before.connections|, now);
    }

    method OnMessageReceived(c: nat, id: nat, kind: Kind, now: nat) returns (delivery: Delivery)
      requires Valid() && c < |connections|
      modifies this
      ensures Valid() && State() == Receive(old(State()), c, id, kind, now)
      ensures delivery == if kind == Payload then Deliver(old(State()), c, id) else Dropped
    {
      ReceiveEffect(State(), c, id, kind, now);
      delivery := Dropped;
      match kind {
      case Payload =>
        if id != 0 && id / SLOTS < |sessions| {
          var session := sessions[id / SLOTS];
          if session.connection == c && session.Id() == id {
            delivery := Handed(session.handler);
          }
        }
      case CloseRequest => var _ := CloseSession(id);
      case OtherControl =>
      }
      connections := connections[c := connections[c].(lastMessageAt := now)];
    }
  }
}
