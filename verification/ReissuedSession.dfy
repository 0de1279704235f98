/** A session id that is handed out a second time, to another client: closing one connection then reaches the other. */
module ReissuedSession {
  import opened Options
  import opened SessionTable
  import opened SessionRuns
  import opened SessionInputs

  /** Exactly when closing connection `c` changes another connection `d`: a session of `d` is alive under an id that is
      still on the list of `c`. */
  lemma ClosingReaches(t: Table, c: nat, notify: bool, d: nat)
    requires Inv(t) && c < |t.connections| && d < |t.connections| && c != d
    ensures var u := CloseConnection(t, c, notify);
      && |u.connections| == |t.connections| && |u.sessions| == |t.sessions|
      && (Changed(t, u, d) <==>
            exists k :: k in t.connections[c].sessions && Matches(t, k) && t.sessions[IndexOf(k)].connection == d)
  {
    CloseConnectionEffect(t, c, notify);
    var u := CloseConnection(t, c, notify);
    forall i | 0 <= i < |t.sessions| ensures IndexOf(t.sessions[i].Id()) == i { IdParts(t.sessions[i]); }
    if Changed(t, u, d) {
      var i :| 0 <= i < |t.sessions| && t.sessions[i].IsValid() && t.sessions[i].connection == d
               && u.sessions[i] != t.sessions[i];
      assert Matches(t, t.sessions[i].Id());
    }
    if k :| k in t.connections[c].sessions && Matches(t, k) && t.sessions[IndexOf(k)].connection == d {
      assert u.sessions[IndexOf(k)] != t.sessions[IndexOf(k)];
    }
  }

  // ------------------------------------------------------------------ a run that gets there

  /** Two clients are connected. The first opens a session and closes it; the second one does so in the same slot, and
      opens another. The generator yields the tokens 3, 4 and 3, of which no two in a row are equal. */
  const RUN: seq<Op> := [
    Add(0, 7, 1, 0), Add(1, 8, 9, 0), Create(0x1_0001, 5, 3), Close(0x3_0003), Create(0x2_0009, 6, 4), Close(0x3_0004),
    Create(0x2_0009, 6, 3)]

  const ROOTS: seq<Session> := [DEAD_SLOT, Session(1, 1, 0, Some(7)), Session(2, 9, 1, Some(8))]

  const TICKETS: multiset<Ticket> := multiset{Ticket(7, 0x1_0001), Ticket(8, 0x2_0009)}

  const FIRST_LINK := Connection(true, [0x1_0001, 0x3_0003], 0, 0)

  const FIRST_OPEN := Table(
    [FIRST_LINK, Connection(true, [0x2_0009], 0, 0)], ROOTS + [Session(3, 3, 0, Some(5))], [], [],
    TICKETS + multiset{Ticket(5, 0x3_0003)}, multiset{})

  const FIRST_CLOSED := FIRST_OPEN.(
    sessions := ROOTS + [Session(3, 3, 0, None)], reuse := [3], outbox := [ClosedInd(0, 0x3_0003)],
    reported := multiset{Ticket(5, 0x3_0003)})

  const SECOND_OPEN := FIRST_CLOSED.(
    connections := [FIRST_LINK, Connection(true, [0x2_0009, 0x3_0004], 0, 0)],
    sessions := ROOTS + [Session(3, 4, 1, Some(6))], reuse := [],
    issued := FIRST_OPEN.issued + multiset{Ticket(6, 0x3_0004)})

  const SECOND_CLOSED := SECOND_OPEN.(
    sessions := ROOTS + [Session(3, 4, 0, None)], reuse := [3], outbox := FIRST_CLOSED.outbox + [ClosedInd(1, 0x3_0004)],
    reported := FIRST_CLOSED.reported + multiset{Ticket(6, 0x3_0004)})

  const REISSUED := SECOND_CLOSED.(
    connections := [FIRST_LINK, Connection(true, [0x2_0009, 0x3_0004, 0x3_0003], 0, 0)],
    sessions := ROOTS + [Session(3, 3, 1, Some(6))], reuse := [],
    issued := SECOND_OPEN.issued + multiset{Ticket(6, 0x3_0003)})

  lemma FirstOpens()
    ensures CreateSession(TWO_CLIENTS, 0x1_0001, 5, 3) == FIRST_OPEN && IsToken(3, OldToken(TWO_CLIENTS))
  {
    var u := CreateSession(TWO_CLIENTS, 0x1_0001, 5, 3);
    assert u.connections[0].sessions == FIRST_LINK.sessions;
    assert u.connections == FIRST_OPEN.connections && u.sessions == FIRST_OPEN.sessions;
  }

  lemma FirstCloses()
    ensures CloseSession(FIRST_OPEN, 0x3_0003) == FIRST_CLOSED
  {
    var u := CloseSession(FIRST_OPEN, 0x3_0003);
    assert u.sessions == FIRST_CLOSED.sessions && u.reuse == [3] && u.outbox == FIRST_CLOSED.outbox;
  }

  lemma SecondOpens()
    ensures CreateSession(FIRST_CLOSED, 0x2_0009, 6, 4) == SECOND_OPEN && IsToken(4, OldToken(FIRST_CLOSED))
  {
    var u := CreateSession(FIRST_CLOSED, 0x2_0009, 6, 4);
    assert u.connections[1].sessions == SECOND_OPEN.connections[1].sessions;
    assert u.connections == SECOND_OPEN.connections && u.sessions == SECOND_OPEN.sessions && u.reuse == [];
  }

  lemma SecondCloses()
    ensures CloseSession(SECOND_OPEN, 0x3_0004) == SECOND_CLOSED
  {
    var u := CloseSession(SECOND_OPEN, 0x3_0004);
    assert u.sessions == SECOND_CLOSED.sessions && u.reuse == [3] && u.outbox == SECOND_CLOSED.outbox;
  }

  lemma SecondOpensAgain()
    ensures CreateSession(SECOND_CLOSED, 0x2_0009, 6, 3) == REISSUED && IsToken(3, OldToken(SECOND_CLOSED))
  {
    var u := CreateSession(SECOND_CLOSED, 0x2_0009, 6, 3);
    assert u.connections[1].sessions == REISSUED.connections[1].sessions;
    assert u.connections == REISSUED.connections && u.sessions == REISSUED.sessions && u.reuse == [];
  }

  lemma RunReissues()
    ensures AllowedRun(Start(2), RUN) && Run(Start(2), RUN[..6]) == SECOND_CLOSED && Run(Start(2), RUN) == REISSUED
  {
    RootClosedByNumber();
    FirstOpens();
    FirstCloses();
    SecondOpens();
    SecondCloses();
    SecondOpensAgain();
    hide CreateSession, CloseSession, Run, AllowedRun, OldToken, TWO_CLIENTS, FIRST_OPEN, FIRST_CLOSED, SECOND_OPEN, SECOND_CLOSED;
    var ops := [Add(0, 7, 1, 0), Add(1, 8, 9, 0)];
    RunOneMore(Start(2), ops, RUN[2]);
    RunOneMore(Start(2), ops + [RUN[2]], RUN[3]);
    RunOneMore(Start(2), ops + [RUN[2]] + [RUN[3]], RUN[4]);
    RunOneMore(Start(2), ops + [RUN[2]] + [RUN[3]] + [RUN[4]], RUN[5]);
    RunOneMore(Start(2), ops + [RUN[2]] + [RUN[3]] + [RUN[4]] + [RUN[5]], RUN[6]);
    assert ops + [RUN[2]] + [RUN[3]] + [RUN[4]] + [RUN[5]] == RUN[..6] && RUN[..6] + [RUN[6]] == RUN;
  }

  /** The run is one that callers and generator may bring about, and its last step reissues an id. Closing the first
      client's connection then kills a session of the second one, whose connection stays open. */
  lemma ClosingKillsForeignSession()
    ensures AllowedRun(Start(2), RUN) && Run(Start(2), RUN) == REISSUED && !FreshRun(Start(2), RUN)
    ensures var u := CloseConnection(REISSUED, 0, true);
      && |u.sessions| == |REISSUED.sessions| && |u.connections| == 2
      && REISSUED.sessions[3] == Session(3, 3, 1, Some(6)) && !u.sessions[3].IsValid()
      && u.connections[1] == REISSUED.connections[1] && u.connections[1].up && Changed(REISSUED, u, 1)
  {
    RunReissues();
    RunKeepsInv(2, RUN);
    hide Inv, CloseConnection;
    CloseConnectionEffect(REISSUED, 0, true);
    assert REISSUED.sessions[3].Id() == 0x3_0003;
    NotFresh();
  }

  lemma NotFresh()
    ensures !FreshRun(Start(2), RUN)
  {
    RunReissues();
    hide Run;
    var last := RUN[6];
    assert RUN[|RUN| - 1] == last && RUN[..|RUN| - 1] == RUN[..6];
    assert Ticket(5, 0x3_0003) in SECOND_CLOSED.issued && 0x3_0003 in IssuedIds(SECOND_CLOSED);
    assert !Fresh(SECOND_CLOSED, last);
  }
}
