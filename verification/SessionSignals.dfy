/** What the multiplexer tells the channel below it: which signals each operation sends, how often and in which order. */
module SessionSignals {
  import opened Options
  import opened SessionTable
  import opened SessionRuns

  // ------------------------------------------------------------------ closing a connection

  lemma {:induction false} QuietIds(t: Table, ids: seq<nat>)
    ensures CloseIds(t, ids, false).outbox == t.outbox
    decreases |ids|
  {
    if ids != [] { QuietIds(CloseOne(t, ids[0], false), ids[1..]); }
  }

  lemma {:induction false} CloseIdsConcat(t: Table, a: seq<nat>, b: seq<nat>, notify: bool)
    ensures CloseIds(t, a + b, notify) == CloseIds(CloseIds(t, a, notify), b, notify)
    decreases |a|
  {
    if a == [] {
      assert a + b == b;
    } else {
      assert (a + b)[1..] == a[1..] + b;
      CloseIdsConcat(CloseOne(t, a[0], notify), a[1..], b, notify);
    }
  }

  /** The notices go out in the order of the list: closing a part of it from the beginning sends the first of them. */
  lemma NoticesInOrder(t: Table, ids: seq<nat>, notify: bool, n: nat)
    requires n <= |ids|
    ensures CloseIds(t, ids[..n], notify).outbox <= CloseIds(t, ids, notify).outbox
  {
    assert ids == ids[..n] + ids[n..];
    CloseIdsConcat(t, ids[..n], ids[n..], notify);
    CloseIdsSignals(CloseIds(t, ids[..n], notify), ids[n..], notify, Disconnect(0));
  }

  /** How often closing connection `c` sends `g`: a notice for each session that dies, and one that tells the channel. */
  function Told(t: Table, c: nat, notify: bool, g: Signal): nat
    requires c < |t.connections|
  {
    Notices(t, t.connections[c].sessions, notify, g) + if notify && g == Disconnect(c) then 1 else 0
  }

  /** Exactly these signals are sent, after the old ones, and the one to the channel is the last. A client that has gone
      is told nothing. */
  lemma CloseConnectionSignals(t: Table, c: nat, notify: bool, g: Signal)
    requires c < |t.connections|
    ensures var u := CloseConnection(t, c, notify);
      && multiset(u.outbox)[g] == multiset(t.outbox)[g] + Told(t, c, notify, g)
      && t.outbox <= u.outbox
      && (notify ==> u.outbox != [] && u.outbox[|u.outbox| - 1] == Disconnect(c))
      && (!notify ==> u.outbox == t.outbox)
  {
    CloseIdsSignals(t, t.connections[c].sessions, notify, g);
    if !notify { QuietIds(t, t.connections[c].sessions); }
  }

  /** The first thing that the client hears is that its root is closed. */
  lemma RootIsToldFirst(t: Table, c: nat)
    requires Inv(t) && c < |t.connections| && t.connections[c].up
    ensures t.connections[c].sessions != []
    ensures var u := CloseConnection(t, c, true);
      |t.outbox| < |u.outbox| && u.outbox[|t.outbox|] == ClosedInd(c, Root(t, c))
  {
    assert Listed(t) && Rooted(t, c);
    var ids := t.connections[c].sessions;
    assert ids[..1] == [ids[0]] && [ids[0]][1..] == [];
    var v := CloseOne(t, ids[0], true);
    assert CloseIds(t, ids[..1], true) == CloseIds(v, [], true) == v;
    NoticesInOrder(t, ids, true, 1);
    assert v.outbox[|t.outbox|] == ClosedInd(c, ids[0]);
  }

  // ------------------------------------------------------------------ closing by id

  /** Slot number of `id` is that of the root of connection `c`, which is open. */
  ghost predicate NamesRoot(t: Table, id: nat, c: nat) {
    && c < |t.connections| && t.connections[c].up && t.connections[c].sessions != []
    && IndexOf(id) == IndexOf(Root(t, c))
  }

  /** Closing by id closes the connection whose root has that slot number, and else the one session with that very id. */
  lemma CloseSessionMeans(t: Table, id: nat, c: nat)
    requires Inv(t)
    ensures NamesRoot(t, id, c) ==> CloseSession(t, id) == CloseConnection(t, c, true)
    ensures (forall d :: !NamesRoot(t, id, d)) ==> CloseSession(t, id) == CloseOne(t, id, true)
  {
    if NamesRoot(t, id, c) {
      assert Rooted(t, c);
      IdParts(t.sessions[IndexOf(id)]);
    }
    if (forall d :: !NamesRoot(t, id, d)) && IndexOf(id) < |t.sessions| && IsRoot(t, t.sessions[IndexOf(id)]) {
      var d := t.sessions[IndexOf(id)].connection;
      assert Rooted(t, d);
      IdParts(t.sessions[IndexOf(id)]);
      assert NamesRoot(t, id, d);
      assert false;
    }
  }

  lemma CloseOneSignals(t: Table, id: nat, g: Signal)
    ensures var u := CloseOne(t, id, true);
      && t.outbox <= u.outbox
      && multiset(u.outbox)[g] == multiset(t.outbox)[g] +
         if Matches(t, id) && g == ClosedInd(t.sessions[IndexOf(id)].connection, id) then 1 else 0
  {}

  /** How often closing by id sends `g`. */
  ghost function ToldById(t: Table, id: nat, g: Signal): nat {
    if IndexOf(id) >= |t.sessions| then 0
    else if NamesRoot(t, id, t.sessions[IndexOf(id)].connection) then Told(t, t.sessions[IndexOf(id)].connection, true, g)
    else if Matches(t, id) && g == ClosedInd(t.sessions[IndexOf(id)].connection, id) then 1
    else 0
  }

  lemma CloseSessionSignals(t: Table, id: nat, g: Signal)
    requires Inv(t)
    ensures var u := CloseSession(t, id);
      t.outbox <= u.outbox && multiset(u.outbox)[g] == multiset(t.outbox)[g] + ToldById(t, id, g)
  {
    if IndexOf(id) < |t.sessions| {
      var c := t.sessions[IndexOf(id)].connection;
      CloseSessionMeans(t, id, c);
      CloseOneSignals(t, id, g);
      if NamesRoot(t, id, c) {
        CloseConnectionSignals(t, c, true, g);
      } else {
        forall d ensures !NamesRoot(t, id, d) { if NamesRoot(t, id, d) { assert Rooted(t, d); } }
      }
    }
  }

  // ------------------------------------------------------------------ an activity check

  /** Connection `e` is among the first `n` and has been silent for too long, and `id` is on its list. */
  ghost predicate Expiring(t: Table, n: nat, now: nat, e: nat, id: nat) {
    e < n && e < |t.connections| && Expires(t.connections[e], now) && id in t.connections[e].sessions
  }

  ghost predicate DiesInCheck(t: Table, n: nat, now: nat, id: nat) { exists e :: Expiring(t, n, now, e, id) }

  /** How often a check of the first `n` connections sends `g`: one heartbeat to the root of each connection that has been
      silent for a while, one closing of each that has been silent for too long, and a notice for each session that
      dies with one of those. */
  ghost function CheckTells(t: Table, n: nat, now: nat, g: Signal): nat {
    match g
    case Heartbeat(c, id) =>
      if c < n && c < |t.connections| && Beats(t.connections[c], now)
         && t.connections[c].sessions != [] && id == t.connections[c].sessions[0] then 1 else 0
    case Disconnect(c) => if c < n && c < |t.connections| && Expires(t.connections[c], now) then 1 else 0
    case ClosedInd(c, id) =>
      if Matches(t, id) && t.sessions[IndexOf(id)].connection == c && DiesInCheck(t, n, now, id) then 1 else 0
  }

  lemma CheckOneSignals(t: Table, c: nat, now: nat, g: Signal)
    requires Inv(t) && c < |t.connections|
    ensures var u := CheckOne(t, c, now); var link := t.connections[c];
      && t.outbox <= u.outbox
      && multiset(u.outbox)[g] == multiset(t.outbox)[g] +
         (if Beats(link, now) && link.sessions != [] && g == Heartbeat(c, link.sessions[0]) then 1 else 0) +
         (if Expires(link, now) then Told(t, c, true, g) else 0)
      && forall id :: Matches(u, id) <==> Matches(t, id) && !(Expires(link, now) && id in link.sessions)
  {
    CheckByParts(t, c, now);
    if Expires(t.connections[c], now) {
      CloseConnectionSignals(t, c, true, g);
      CloseConnectionEffect(t, c, true);
      var u := CloseConnection(t, c, true);
      forall id ensures Matches(u, id) <==> Matches(t, id) && id !in t.connections[c].sessions {
        if IndexOf(id) < |t.sessions| { IdParts(t.sessions[IndexOf(id)]); }
      }
    }
    hide Inv, CloseConnection;
  }

  lemma DiesOneMore(t: Table, n: nat, now: nat, id: nat)
    requires n < |t.connections|
    ensures DiesInCheck(t, n + 1, now, id) <==>
      DiesInCheck(t, n, now, id) || (Expires(t.connections[n], now) && id in t.connections[n].sessions)
  {
    if DiesInCheck(t, n, now, id) {
      var e :| Expiring(t, n, now, e, id);
      assert Expiring(t, n + 1, now, e, id);
    }
    if Expires(t.connections[n], now) && id in t.connections[n].sessions { assert Expiring(t, n + 1, now, n, id); }
    if DiesInCheck(t, n + 1, now, id) {
      var e :| Expiring(t, n + 1, now, e, id);
      assert e == n || Expiring(t, n, now, e, id);
    }
  }

  /** What the check of one more connection adds; `v` is the table after the checks before. */
  lemma CheckTellsOneMore(t: Table, v: Table, n: nat, now: nat, g: Signal)
    requires n < |t.connections| == |v.connections| && |v.sessions| == |t.sessions| && v.connections[n] == t.connections[n]
    requires forall i :: 0 <= i < |t.sessions| && v.sessions[i].IsValid() ==> v.sessions[i] == t.sessions[i]
    requires g.ClosedInd? ==> (Matches(v, g.id) <==> Matches(t, g.id) && !DiesInCheck(t, n, now, g.id))
    ensures var link := t.connections[n];
      CheckTells(t, n + 1, now, g) == CheckTells(t, n, now, g) +
        (if Beats(link, now) && link.sessions != [] && g == Heartbeat(n, link.sessions[0]) then 1 else 0) +
        (if Expires(link, now) then Told(v, n, true, g) else 0)
  {
    if g.ClosedInd? { DiesOneMore(t, n, now, g.id); }
    hide DiesInCheck, Beats, Expires;
  }

  lemma CheckStart(t: Table, now: nat, g: Signal, id: nat)
    ensures CheckFirst(t, 0, now) == t && CheckTells(t, 0, now, g) == 0 && !DiesInCheck(t, 0, now, id)
  {
    assert forall e :: !Expiring(t, 0, now, e, id);
  }

  lemma CheckOneMore(t: Table, n: nat, now: nat)
    requires Inv(t) && n < |t.connections|
    ensures var v := CheckFirst(t, n, now);
      && CheckFirst(t, n + 1, now) == CheckOne(v, n, now) && Inv(v)
      && |v.connections| == |t.connections| && v.connections[n] == t.connections[n] && |v.sessions| == |t.sessions|
      && forall i :: 0 <= i < |t.sessions| && v.sessions[i].IsValid() ==> v.sessions[i] == t.sessions[i]
  {
    CheckFirstEffect(t, n, now);
  }

  /** The sessions that survive a check. */
  lemma {:induction false} CheckKills(t: Table, n: nat, now: nat, id: nat)
    requires Inv(t) && n <= |t.connections|
    ensures Matches(CheckFirst(t, n, now), id) <==> Matches(t, id) && !DiesInCheck(t, n, now, id)
  {
    hide *;
    if n == 0 {
      CheckStart(t, now, Disconnect(0), id);
    } else {
      CheckKills(t, n - 1, now, id);
      CheckOneMore(t, n - 1, now);
      CheckOneSignals(CheckFirst(t, n - 1, now), n - 1, now, Disconnect(0));
      DiesOneMore(t, n - 1, now, id);
    }
  }

  lemma {:induction false} CheckSignals(t: Table, n: nat, now: nat, g: Signal)
    requires Inv(t) && n <= |t.connections|
    ensures t.outbox <= CheckFirst(t, n, now).outbox
    ensures multiset(CheckFirst(t, n, now).outbox)[g] == multiset(t.outbox)[g] + CheckTells(t, n, now, g)
  {
    hide *;
    if n == 0 {
      CheckStart(t, now, g, 0);
    } else {
      var v := CheckFirst(t, n - 1, now);
      CheckSignals(t, n - 1, now, g);
      CheckOneMore(t, n - 1, now);
      CheckOneSignals(v, n - 1, now, g);
      if g.ClosedInd? { CheckKills(t, n - 1, now, g.id); }
      CheckTellsOneMore(t, v, n - 1, now, g);
    }
  }

  // ------------------------------------------------------------------ every operation

  lemma {:induction false} MarkingTellsNothing(t: Table, n: nat)
    ensures CloseFirst(t, n).outbox == t.outbox
  {
    if n > 0 {
      MarkingTellsNothing(t, n - 1);
      var u := CloseFirst(t, n - 1);
      if n <= |u.connections| { CloseConnectionSignals(u, n - 1, false, Disconnect(0)); }
    }
  }

  /** How often an operation sends `g`. Opening, marking as closed and a client's own leaving send nothing. */
  ghost function Tells(t: Table, op: Op, g: Signal): nat {
    match op
    case Close(id) => ToldById(t, id, g)
    case Shut(c) => if c < |t.connections| then Told(t, c, true, g) else 0
    case Message(_, id, kind, _) => if kind == CloseRequest then ToldById(t, id, g) else 0
    case Check(now) => CheckTells(t, |t.connections|, now, g)
    case _ => 0
  }

  /** Each operation appends exactly these signals. */
  lemma ApplySignals(t: Table, op: Op, g: Signal)
    requires Inv(t) && Allowed(t, op)
    ensures t.outbox <= Apply(t, op).outbox
    ensures multiset(Apply(t, op).outbox)[g] == multiset(t.outbox)[g] + Tells(t, op, g)
  {
    match op
    case Add(_, _, _, _) =>
    case Create(_, _, _) =>
    case Close(id) => CloseSessionSignals(t, id, g);
    case Shut(c) => if c < |t.connections| { CloseConnectionSignals(t, c, true, g); }
    case ClientGone(c) => if c < |t.connections| { CloseConnectionSignals(t, c, false, g); }
    case Message(_, id, kind, _) => CloseSessionSignals(t, id, g);
    case Check(now) => CheckSignals(t, |t.connections|, now, g);
    case MarkAll => MarkingTellsNothing(t, |t.connections|);
  }

  // ------------------------------------------------------------------ over a run

  /** How often `g` was due over a run. */
  ghost function RunTells(t: Table, ops: seq<Op>, g: Signal): nat {
    if ops == [] then 0
    else RunTells(t, ops[..|ops| - 1], g) + Tells(Run(t, ops[..|ops| - 1]), ops[|ops| - 1], g)
  }

  /** What has been sent over a run is what each of its operations had to send, and nothing is ever taken back. */
  lemma {:induction false} RunSignals(limit: nat, ops: seq<Op>, g: Signal)
    requires AllowedRun(Start(limit), ops)
    ensures multiset(Run(Start(limit), ops).outbox)[g] == RunTells(Start(limit), ops, g)
    ensures ops != [] ==> Run(Start(limit), ops[..|ops| - 1]).outbox <= Run(Start(limit), ops).outbox
    decreases |ops|
  {
    if ops != [] {
      RunSignals(limit, ops[..|ops| - 1], g);
      RunKeepsInv(limit, ops[..|ops| - 1]);
      ApplySignals(Run(Start(limit), ops[..|ops| - 1]), ops[|ops| - 1], g);
    }
  }
}
