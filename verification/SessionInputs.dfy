/** Runs of a multiplexer that end where the code does not do what it promises, and how far one client's message reaches. */
module SessionInputs {
  import opened Options
  import opened SessionTable
  import opened SessionRuns

  // ------------------------------------------------------------------ too many connections

  /** A client that connects and disconnects `n` times. */
  function Rounds(n: nat): seq<Op> { if n == 0 then [] else Rounds(n - 1) + [Add(0, 0, 1, 0)] + [Shut(0)] }

  lemma RunOneMore(t: Table, ops: seq<Op>, op: Op)
    ensures Run(t, ops + [op]) == Apply(Run(t, ops), op)
    ensures AllowedRun(t, ops + [op]) <==> AllowedRun(t, ops) && Allowed(Run(t, ops), op)
  {
    assert (ops + [op])[..|ops|] == ops;
  }

  lemma OneRound(t: Table)
    requires Inv(t) && t.connections == [CLOSED_LINK] && |t.sessions| <= 0xFFFF
    ensures var u := CloseConnection(AddConnection(t, 0, 0, 1, 0), 0, true);
      Inv(u) && |u.sessions| == |t.sessions| + 1 && u.connections == [CLOSED_LINK]
  {
    AddConnectionEffect(t, 0, 0, 1, 0);
    var u := AddConnection(t, 0, 0, 1, 0);
    assert |u.sessions| == |t.sessions| + 1 && |u.connections| == 1;
    hide Inv, AddConnection, CloseConnection;
    CloseConnectionEffect(u, 0, true);
  }

  lemma NoRounds()
    ensures AllowedRun(Start(1), []) && Run(Start(1), []) == Start(1) && Inv(Start(1))
    ensures Start(1).connections == [CLOSED_LINK] && |Start(1).sessions| == 1
  {
    StartInv(1);
  }

  lemma RoundIsAllowed(t: Table)
    requires t.connections == [CLOSED_LINK] && |t.sessions| <= 0xFFFF
    ensures Allowed(t, Add(0, 0, 1, 0)) && Apply(t, Add(0, 0, 1, 0)) == AddConnection(t, 0, 0, 1, 0)
    ensures var u := AddConnection(t, 0, 0, 1, 0);
      Allowed(u, Shut(0)) && Apply(u, Shut(0)) == CloseConnection(u, 0, true)
  {
    hide AddConnection, CloseConnection;
  }

  /** Each round leaves a slot behind that no connection uses again. */
  lemma {:induction false} RoundsFillTable(n: nat)
    requires n <= 0xFFFF
    ensures AllowedRun(Start(1), Rounds(n))
    ensures var t := Run(Start(1), Rounds(n)); Inv(t) && |t.sessions| == n + 1 && t.connections == [CLOSED_LINK]
  {
    hide *;
    RoundsAre(n);
    if n == 0 {
      NoRounds();
    } else {
      RoundsFillTable(n - 1);
      var t, ops := Run(Start(1), Rounds(n - 1)), Rounds(n - 1);
      RoundIsAllowed(t);
      RunOneMore(Start(1), ops, Add(0, 0, 1, 0));
      RunOneMore(Start(1), ops + [Add(0, 0, 1, 0)], Shut(0));
      OneRound(t);
    }
  }

  lemma RoundsAre(n: nat)
    ensures Rounds(n) == if n == 0 then [] else Rounds(n - 1) + [Add(0, 0, 1, 0)] + [Shut(0)]
  {}

  lemma LastSlot(t: Table)
    requires |t.connections| == 1 && |t.sessions| == 0x1_0000
    ensures var u := AddConnection(t, 0, 0, 1, 0); |u.sessions| == 0x1_0001 && u.sessions[0x1_0000].Id() == 1
  {}

  /** After 65535 connections, all closed again, the next one breaks the table: its root has the id of slot 0. */
  lemma OneConnectionTooMany()
    ensures AllowedRun(Start(1), Rounds(0xFFFF))
    ensures var t := Run(Start(1), Rounds(0xFFFF)); var u := AddConnection(t, 0, 0, 1, 0);
      && |t.sessions| == 0x1_0000 && Inv(t) && !Inv(u)
      && |u.sessions| == 0x1_0001 && u.sessions[0x1_0000].Id() == 1
  {
    hide *;
    RoundsFillTable(0xFFFF);
    var t := Run(Start(1), Rounds(0xFFFF));
    LastSlot(t);
    AddingToClosed(t);
  }

  lemma AddingToClosed(t: Table)
    requires Inv(t) && t.connections == [CLOSED_LINK]
    ensures Inv(AddConnection(t, 0, 0, 1, 0)) <==> |t.sessions| <= 0xFFFF
  {
    hide Inv, AddConnection;
    AddConnectionEffect(t, 0, 0, 1, 0);
  }

  // ------------------------------------------------------------------ a payload without a handler

  /** A client opens a session besides its root, closes it, and goes on sending to it. */
  const ORPHAN_RUN: seq<Op> := [Add(0, 7, 1, 0), Create(0x1_0001, 8, 5), Close(0x2_0005)]

  const OPENED := Table(
    [Connection(true, [0x1_0001], 0, 0)], [DEAD_SLOT, Session(1, 1, 0, Some(7))], [], [],
    multiset{Ticket(7, 0x1_0001)}, multiset{})

  const TWO_SESSIONS := Table(
    [Connection(true, [0x1_0001, 0x2_0005], 0, 0)],
    [DEAD_SLOT, Session(1, 1, 0, Some(7)), Session(2, 5, 0, Some(8))], [], [],
    multiset{Ticket(7, 0x1_0001), Ticket(8, 0x2_0005)}, multiset{})

  const ONE_CLOSED := Table(
    [Connection(true, [0x1_0001, 0x2_0005], 0, 0)],
    [DEAD_SLOT, Session(1, 1, 0, Some(7)), Session(2, 5, 0, None)], [2], [ClosedInd(0, 0x2_0005)],
    multiset{Ticket(7, 0x1_0001), Ticket(8, 0x2_0005)}, multiset{Ticket(8, 0x2_0005)})

  lemma OrphanAdd()
    ensures AddConnection(Start(1), 0, 7, 1, 0) == OPENED
  {
    var u := AddConnection(Start(1), 0, 7, 1, 0);
    assert u.connections[0].sessions == [0x1_0001];
    assert u.connections == OPENED.connections && u.sessions == OPENED.sessions && u.issued == OPENED.issued;
  }

  lemma OrphanCreate()
    ensures CreateSession(OPENED, 0x1_0001, 8, 5) == TWO_SESSIONS && IsToken(5, OldToken(OPENED))
  {
    var u := CreateSession(OPENED, 0x1_0001, 8, 5);
    assert u.connections[0].sessions == [0x1_0001, 0x2_0005];
    assert u.connections == TWO_SESSIONS.connections && u.sessions == TWO_SESSIONS.sessions;
  }

  lemma OrphanClose()
    ensures CloseSession(TWO_SESSIONS, 0x2_0005) == ONE_CLOSED
  {}

  /** The payload is handed to a handler that is not there. */
  lemma PayloadWithoutHandler()
    ensures AllowedRun(Start(1), ORPHAN_RUN)
    ensures Run(Start(1), ORPHAN_RUN) == ONE_CLOSED && Deliver(ONE_CLOSED, 0, 0x2_0005) == Handed(None)
  {
    var a, b, c := Add(0, 7, 1, 0), Create(0x1_0001, 8, 5), Close(0x2_0005);
    RunOneMore(Start(1), [], a);
    RunOneMore(Start(1), [a], b);
    RunOneMore(Start(1), [a, b], c);
    assert [] + [a] == [a] && [a] + [b] == [a, b] && [a, b] + [c] == ORPHAN_RUN;
    OrphanAdd();
    OrphanCreate();
    OrphanClose();
    hide AddConnection, CreateSession, CloseSession;
  }

  // ------------------------------------------------------------------ how far one client's message reaches

  /** Connection `d` is not the same in `u` as in `t`: its record has changed, or one of its live sessions. */
  ghost predicate Changed(t: Table, u: Table, d: nat)
    requires d < |t.connections| == |u.connections| && |t.sessions| == |u.sessions|
  {
    || u.connections[d] != t.connections[d]
    || exists i :: 0 <= i < |t.sessions| && t.sessions[i].IsValid() && t.sessions[i].connection == d
                   && u.sessions[i] != t.sessions[i]
  }

  /** When a request to close `id` concerns connection `d`: for a root the slot's number alone decides, and then every live
      session on that root's list goes; for any other slot the exact id decides. */
  ghost predicate Closes(t: Table, id: nat, d: nat) {
    && IndexOf(id) < |t.sessions|
    && var s := t.sessions[IndexOf(id)];
    if IsRoot(t, s) then
      || s.connection == d
      || exists k :: k in t.connections[s.connection].sessions && Matches(t, k) && t.sessions[IndexOf(k)].connection == d
    else Matches(t, id) && s.connection == d
  }

  lemma ClosingChanges(t: Table, id: nat, d: nat)
    requires Inv(t) && d < |t.connections|
    ensures var u := CloseSession(t, id);
      && |u.connections| == |t.connections| && |u.sessions| == |t.sessions|
      && (Changed(t, u, d) <==> Closes(t, id, d))
  {
    CloseSessionEffect(t, id);
    var u := CloseSession(t, id);
    if IndexOf(id) < |t.sessions| && IsRoot(t, t.sessions[IndexOf(id)]) {
      var e := t.sessions[IndexOf(id)].connection;
      CloseConnectionEffect(t, e, true);
      RootClosingChanges(t, u, e, d);
    } else {
      OneClosingChanges(t, u, id, d);
    }
  }

  lemma RootClosingChanges(t: Table, u: Table, e: nat, d: nat)
    requires Indexed(t) && d < |t.connections| && e < |t.connections| && t.connections[e].up
    requires u.connections == t.connections[e := CLOSED_LINK] && |u.sessions| == |t.sessions|
    requires forall i :: 0 <= i < |t.sessions| ==>
      u.sessions[i] == if t.sessions[i].IsValid() && t.sessions[i].Id() in t.connections[e].sessions
                       then Kill(t.sessions[i]) else t.sessions[i]
    ensures Changed(t, u, d) <==>
      e == d || exists k :: k in t.connections[e].sessions && Matches(t, k) && t.sessions[IndexOf(k)].connection == d
  {
    forall i | 0 <= i < |t.sessions| ensures IndexOf(t.sessions[i].Id()) == i { IdParts(t.sessions[i]); }
    if e != d && Changed(t, u, d) {
      var i :| 0 <= i < |t.sessions| && t.sessions[i].IsValid() && t.sessions[i].connection == d
               && u.sessions[i] != t.sessions[i];
      assert Matches(t, t.sessions[i].Id());
    }
    if k :| k in t.connections[e].sessions && Matches(t, k) && t.sessions[IndexOf(k)].connection == d {
      assert u.sessions[IndexOf(k)] != t.sessions[IndexOf(k)];
    }
  }

  lemma OneClosingChanges(t: Table, u: Table, id: nat, d: nat)
    requires Indexed(t) && d < |t.connections| && u.connections == t.connections && |u.sessions| == |t.sessions|
    requires forall i :: 0 <= i < |t.sessions| ==>
      u.sessions[i] == if t.sessions[i].IsValid() && t.sessions[i].Id() == id then Kill(t.sessions[i]) else t.sessions[i]
    ensures Changed(t, u, d) <==>
      IndexOf(id) < |t.sessions| && Matches(t, id) && t.sessions[IndexOf(id)].connection == d
  {
    forall i | 0 <= i < |t.sessions| ensures IndexOf(t.sessions[i].Id()) == i { IdParts(t.sessions[i]); }
    if Matches(t, id) { assert u.sessions[IndexOf(id)] != t.sessions[IndexOf(id)]; }
  }

  /** Exactly when a message from connection `c` changes another connection `d`. */
  lemma MessageReaches(t: Table, c: nat, id: nat, kind: Kind, now: nat, d: nat)
    requires Inv(t) && d < |t.connections| && c != d
    ensures var u := Receive(t, c, id, kind, now);
      && |u.connections| == |t.connections| && |u.sessions| == |t.sessions|
      && (Changed(t, u, d) <==> kind == CloseRequest && Closes(t, id, d))
  {
    ReceiveEffect(t, c, id, kind, now);
    ClosingChanges(t, id, d);
    hide Inv, Receive, CloseSession, Closes;
  }

  /** If no id was ever reissued, that is: exactly when it asks to close, in any slot, the root of `d`, or, by its exact
      id, any other session of `d`. */
  lemma MessageReachesUnshared(t: Table, c: nat, id: nat, kind: Kind, now: nat, d: nat)
    requires Inv(t) && Unshared(t) && d < |t.connections| && c != d
    ensures var u := Receive(t, c, id, kind, now);
      && |u.connections| == |t.connections| && |u.sessions| == |t.sessions|
      && (Changed(t, u, d) <==>
            && kind == CloseRequest && IndexOf(id) < |t.sessions|
            && var s := t.sessions[IndexOf(id)]; s.IsValid() && s.connection == d && (IsRoot(t, s) || s.Id() == id))
  {
    MessageReaches(t, c, id, kind, now, d);
    if IndexOf(id) < |t.sessions| {
      RootBelongs(t, IndexOf(id));
      IdParts(t.sessions[IndexOf(id)]);
    }
  }

  const TWO_CLIENTS := Table(
    [Connection(true, [0x1_0001], 0, 0), Connection(true, [0x2_0009], 0, 0)],
    [DEAD_SLOT, Session(1, 1, 0, Some(7)), Session(2, 9, 1, Some(8))], [], [],
    multiset{Ticket(7, 0x1_0001), Ticket(8, 0x2_0009)}, multiset{})

  lemma FirstClient()
    ensures AddConnection(Start(2), 0, 7, 1, 0) ==
      Table([Connection(true, [0x1_0001], 0, 0), CLOSED_LINK], [DEAD_SLOT, Session(1, 1, 0, Some(7))], [], [],
            multiset{Ticket(7, 0x1_0001)}, multiset{})
  {
    var u := AddConnection(Start(2), 0, 7, 1, 0);
    assert u.connections[0].sessions == [0x1_0001];
    assert u.connections == [Connection(true, [0x1_0001], 0, 0), CLOSED_LINK];
  }

  lemma SecondClient(t: Table)
    requires t == Table([Connection(true, [0x1_0001], 0, 0), CLOSED_LINK], [DEAD_SLOT, Session(1, 1, 0, Some(7))], [], [],
                        multiset{Ticket(7, 0x1_0001)}, multiset{})
    ensures AddConnection(t, 1, 8, 9, 0) == TWO_CLIENTS
  {
    var u := AddConnection(t, 1, 8, 9, 0);
    assert u.connections[1].sessions == [0x2_0009];
    assert u.connections == TWO_CLIENTS.connections && u.sessions == TWO_CLIENTS.sessions;
  }

  /** A request on connection 0 that names the slot of the root of connection 1, with token 0, closes connection 1. */
  lemma RootClosedByNumber()
    ensures AllowedRun(Start(2), [Add(0, 7, 1, 0), Add(1, 8, 9, 0)])
    ensures Run(Start(2), [Add(0, 7, 1, 0), Add(1, 8, 9, 0)]) == TWO_CLIENTS
    ensures var u := Receive(TWO_CLIENTS, 0, 0x2_0000, CloseRequest, 0);
      |u.connections| == 2 && u.connections[0].up && !u.connections[1].up
  {
    var a, b := Add(0, 7, 1, 0), Add(1, 8, 9, 0);
    RunOneMore(Start(2), [], a);
    RunOneMore(Start(2), [a], b);
    assert [] + [a] == [a] && [a] + [b] == [a, b];
    FirstClient();
    SecondClient(AddConnection(Start(2), 0, 7, 1, 0));
    hide AddConnection, CloseIds;
    assert IsRoot(TWO_CLIENTS, TWO_CLIENTS.sessions[2]);
  }
}
