/** Whole runs of a session multiplexer: what holds after any sequence of operations. */
module SessionRuns {
  import opened Options
  import opened SessionTable

  // ------------------------------------------------------------------ checks and mass closing

  /** Time stamps and sent signals are no part of the invariant. */
  lemma TouchKeepsInv(v: Table, c: nat, link: Connection, signals: seq<Signal>)
    requires Inv(v) && c < |v.connections|
    requires link.up == v.connections[c].up && link.sessions == v.connections[c].sessions
    ensures Inv(v.(connections := v.connections[c := link], outbox := signals))
  {
    var u := v.(connections := v.connections[c := link], outbox := signals);
    assert Indexed(u) && FreeList(u) && Homed(u) && Listed(u);
    forall k: Ticket ensures Live(u, k) <==> Live(v, k) {}
    forall d | 0 <= d < |u.connections| ensures Rooted(u, d) { assert Rooted(v, d); }
  }

  lemma CheckOneEffect(t: Table, c: nat, now: nat)
    requires Inv(t) && c < |t.connections|
    ensures var u := CheckOne(t, c, now);
      && Inv(u) && u.connections == t.connections[c := CheckLink(t.connections[c], now)]
      && Shrinks(t, u)
      && (Beats(t.connections[c], now) ==>
            t.connections[c].sessions != []
            && u.outbox == t.outbox + [Heartbeat(c, Root(t, c))] && u.sessions == t.sessions)
      && (Expires(t.connections[c], now) ==> u == CloseConnection(t, c, true) && Empty(u, c))
  {
    assert t.connections[c].up ==> t.connections[c].sessions != [];
    assert Rooted(t, c);
    hide Inv;
    if Beats(t.connections[c], now) {
      var u := CheckOne(t, c, now);
      TouchKeepsInv(t, c, CheckLink(t.connections[c], now), u.outbox);
    } else if Expires(t.connections[c], now) {
      CloseConnectionEffect(t, c, true);
    } else {
      assert t.connections[c := t.connections[c]] == t.connections;
    }
  }

  /** What a check of one connection finds and does, field by field. */
  lemma CheckByParts(t: Table, c: nat, now: nat)
    requires Inv(t) && c < |t.connections|
    ensures var link := t.connections[c]; var u := CheckOne(t, c, now);
      && (Beats(link, now) ==>
            && link.sessions != [] && IndexOf(Root(t, c)) < |t.sessions|
            && t.sessions[IndexOf(Root(t, c))].IsValid() && t.sessions[IndexOf(Root(t, c))].Id() == Root(t, c)
            && t.sessions[IndexOf(Root(t, c))].connection == c
            && u == t.(connections := t.connections[c := link.(lastHeartbeatAt := now)],
                       outbox := t.outbox + [Heartbeat(c, Root(t, c))]))
      && (Expires(link, now) ==> u == CloseConnection(t, c, true))
      && (!Beats(link, now) && !Expires(link, now) ==> u == t)
  {
    assert t.connections[c].up ==> t.connections[c].sessions != [];
    assert Rooted(t, c);
  }

  /** A full check treats every connection record by itself. */
  lemma {:induction false} CheckFirstEffect(t: Table, n: nat, now: nat)
    requires Inv(t) && n <= |t.connections|
    ensures var u := CheckFirst(t, n, now);
      && Inv(u) && Shrinks(t, u)
      && forall c :: 0 <= c < |t.connections| ==>
           u.connections[c] == if c < n then CheckLink(t.connections[c], now) else t.connections[c]
  {
    hide Inv, CheckOne, CheckLink;
    if n > 0 {
      CheckFirstEffect(t, n - 1, now);
      CheckOneEffect(CheckFirst(t, n - 1, now), n - 1, now);
    }
  }

  lemma CloseFirstStep(t: Table, n: nat)
    ensures CloseFirst(t, 0) == t
    ensures n > 0 && n <= |CloseFirst(t, n - 1).connections| ==>
      CloseFirst(t, n) ==
      var u := CloseFirst(t, n - 1);
      if u.connections[n - 1].up then CloseConnection(u, n - 1, false) else u
  {}

  lemma {:induction false} CloseFirstEffect(t: Table, n: nat)
    requires Inv(t) && n <= |t.connections|
    ensures var u := CloseFirst(t, n);
      && Inv(u) && Shrinks(t, u)
      && (forall c :: 0 <= c < n ==> !u.connections[c].up)
      && (forall c :: n <= c < |t.connections| ==> u.connections[c] == t.connections[c])
  {
    hide Inv, CloseConnection;
    if n > 0 {
      CloseFirstEffect(t, n - 1);
      var u := CloseFirst(t, n - 1);
      if u.connections[n - 1].up { CloseConnectionEffect(u, n - 1, false); }
    }
  }

  /** After all connections are marked as closed nothing is alive, and every session ever handed out has been
      reported closed as often as it was handed out. */
  lemma MarkAllClosedEffect(t: Table)
    requires Inv(t)
    ensures var u := MarkAllClosed(t);
      && Inv(u)
      && (forall i :: 0 <= i < |u.sessions| ==> !u.sessions[i].IsValid())
      && u.issued == t.issued && u.reported == t.issued
  {
    CloseFirstEffect(t, |t.connections|);
    var u := MarkAllClosed(t);
    forall k: Ticket ensures u.reported[k] == u.issued[k] {
      assert !Live(u, k);
    }
  }

  lemma ReceiveEffect(t: Table, c: nat, id: nat, kind: Kind, now: nat)
    requires Inv(t)
    ensures var u := Receive(t, c, id, kind, now);
      var v := if kind == CloseRequest then CloseSession(t, id) else t;
      && Inv(u) && Shrinks(t, u) && u.sessions == v.sessions
      && u.connections == if c < |v.connections|
                          then v.connections[c := v.connections[c].(lastMessageAt := now)] else v.connections
  {
    CloseSessionEffect(t, id);
    var v := if kind == CloseRequest then CloseSession(t, id) else t;
    if c < |v.connections| { TouchKeepsInv(v, c, v.connections[c].(lastMessageAt := now), v.outbox); }
  }

  /** A payload reaches a handler exactly when its id names a live session of the connection it came from;
      only connection 0, where dead slots are filed, can address a slot that holds no handler. */
  lemma DeliverEffect(t: Table, c: nat, id: nat)
    requires Inv(t)
    ensures var live := Matches(t, id) && t.sessions[IndexOf(id)].connection == c;
      && (live ==> Deliver(t, c, id) == Handed(t.sessions[IndexOf(id)].handler)
                   && Live(t, Ticket(Deliver(t, c, id).handler.value, id)))
      && (!live ==> Deliver(t, c, id) == Dropped || (c == 0 && Deliver(t, c, id) == Handed(None)))
      && (Deliver(t, c, id) == Handed(None) <==>
            c == 0 && id != 0 && IndexOf(id) < |t.sessions| && !t.sessions[IndexOf(id)].IsValid()
            && t.sessions[IndexOf(id)].Id() == id)
  {
    if IndexOf(id) < |t.sessions| { IdParts(t.sessions[IndexOf(id)]); }
  }

  // ------------------------------------------------------------------ operations and runs

  datatype Op =
    | Add(c: nat, h: Handler, token: nat, now: nat)
    | Create(parent: nat, h: Handler, token: nat)
    | Close(id: nat)
    | Shut(c: nat)
    | ClientGone(c: nat)
    | Message(c: nat, id: nat, kind: Kind, now: nat)
    | Check(now: nat)
    | MarkAll

  function Apply(t: Table, op: Op): Table {
    match op
    case Add(c, h, token, now) => AddConnection(t, c, h, token, now)
    case Create(parent, h, token) => CreateSession(t, parent, h, token)
    case Close(id) => CloseSession(t, id)
    case Shut(c) => CloseConnection(t, c, true)
    case ClientGone(c) => CloseConnection(t, c, false)
    case Message(c, id, kind, now) => Receive(t, c, id, kind, now)
    case Check(now) => CheckFirst(t, |t.connections|, now)
    case MarkAll => MarkAllClosed(t)
  }

  /** What the callers and the token generator promise. */
  predicate Allowed(t: Table, op: Op) {
    match op
    case Add(c, _, token, _) =>
      IsToken(token, 0) && |t.sessions| <= 0xFFFF && (c < |t.connections| ==> !t.connections[c].up)
    case Create(_, _, token) => IsToken(token, OldToken(t))
    case _ => true
  }

  function Run(t: Table, ops: seq<Op>): Table {
    if ops == [] then t else Apply(Run(t, ops[..|ops| - 1]), ops[|ops| - 1])
  }

  predicate AllowedRun(t: Table, ops: seq<Op>) {
    ops == [] || (AllowedRun(t, ops[..|ops| - 1]) && Allowed(Run(t, ops[..|ops| - 1]), ops[|ops| - 1]))
  }

  function Start(limit: nat): Table {
    Table(seq(limit, _ => CLOSED_LINK), [DEAD_SLOT], [], [], multiset{}, multiset{})
  }

  lemma StartInv(limit: nat)
    ensures Inv(Start(limit))
  {
    var t := Start(limit);
    forall k: Ticket ensures t.issued[k] == t.reported[k] + (if Live(t, k) then 1 else 0) {}
    forall c | 0 <= c < |t.connections| ensures Rooted(t, c) {}
  }

  lemma ApplyKeepsInv(t: Table, op: Op)
    requires Inv(t) && Allowed(t, op)
    ensures Inv(Apply(t, op)) && |Apply(t, op).connections| == |t.connections|
  {
    match op
    case Add(c, h, token, now) => if c < |t.connections| { AddConnectionEffect(t, c, h, token, now); }
    case Create(parent, h, token) => CreateSessionEffect(t, parent, h, token);
    case Close(id) => CloseSessionEffect(t, id);
    case Shut(c) => if c < |t.connections| { CloseConnectionEffect(t, c, true); }
    case ClientGone(c) => if c < |t.connections| { CloseConnectionEffect(t, c, false); }
    case Message(c, id, kind, now) => ReceiveEffect(t, c, id, kind, now);
    case Check(now) => CheckFirstEffect(t, |t.connections|, now);
    case MarkAll => CloseFirstEffect(t, |t.connections|);
  }

  /** The invariant holds after every run of operations on a new multiplexer. */
  lemma {:induction false} RunKeepsInv(limit: nat, ops: seq<Op>)
    requires AllowedRun(Start(limit), ops)
    ensures Inv(Run(Start(limit), ops)) && |Run(Start(limit), ops).connections| == limit
    decreases |ops|
  {
    if ops == [] {
      StartInv(limit);
    } else {
      RunKeepsInv(limit, ops[..|ops| - 1]);
      ApplyKeepsInv(Run(Start(limit), ops[..|ops| - 1]), ops[|ops| - 1]);
    }
  }

  /** Over any run: no session is reported closed more often than it was handed out, the difference being exactly the
      sessions still alive; and once all connections are marked closed there is no difference and nothing is alive. */
  lemma RunReports(limit: nat, ops: seq<Op>)
    requires AllowedRun(Start(limit), ops)
    ensures var t := Run(Start(limit), ops); var u := MarkAllClosed(t);
      && (forall k: Ticket :: t.issued[k] == t.reported[k] + (if Live(t, k) then 1 else 0))
      && u.reported == t.issued
      && (forall i :: 0 <= i < |u.sessions| ==> !u.sessions[i].IsValid())
  {
    RunKeepsInv(limit, ops);
    MarkAllClosedEffect(Run(Start(limit), ops));
  }

  // ------------------------------------------------------------------ roots

  lemma ShutShrinks(t: Table, c: nat, notify: bool)
    requires Inv(t)
    ensures Shrinks(t, CloseConnection(t, c, notify))
  {
    if c < |t.connections| { CloseConnectionEffect(t, c, notify); }
  }

  /** In one step an open connection either stays open with the list it had, possibly longer, or is closed. */
  lemma LinkStep(t: Table, op: Op, c: nat)
    requires Inv(t) && Allowed(t, op) && c < |t.connections| && t.connections[c].up
    ensures |Apply(t, op).connections| == |t.connections|
    ensures var v := Apply(t, op).connections[c]; !v.up || t.connections[c].sessions <= v.sessions
  {
    hide Inv, CreateSession, CloseSession, CloseConnection, CheckFirst, CloseFirst, Receive;
    match op
    case Add(d, h, token, now) =>
    case Create(parent, h, token) => CreateSessionEffect(t, parent, h, token);
    case Close(id) => CloseSessionEffect(t, id);
    case Shut(d) => ShutShrinks(t, d, true);
    case ClientGone(d) => ShutShrinks(t, d, false);
    case Message(d, id, kind, now) => ReceiveEffect(t, d, id, kind, now);
    case Check(now) => CheckFirstEffect(t, |t.connections|, now);
    case MarkAll => CloseFirstEffect(t, |t.connections|);
  }

  /** A root session dies only together with its connection. */
  lemma RootDiesWithConnection(t: Table, op: Op, c: nat)
    requires Inv(t) && Allowed(t, op) && c < |t.connections| && t.connections[c].up
    ensures |Apply(t, op).connections| == |t.connections|
    ensures var u := Apply(t, op); var r := Root(t, c);
      if u.connections[c].up
      then Matches(u, r) && u.sessions[IndexOf(r)].connection == c && [r] <= u.connections[c].sessions
      else Empty(u, c) && u.connections[c].sessions == []
  {
    LinkStep(t, op, c);
    ApplyKeepsInv(t, op);
    assert Rooted(t, c) && Rooted(Apply(t, op), c);
  }

  // ------------------------------------------------------------------ ids that are never reissued

  function IssuedIds(t: Table): set<nat> { set k: Ticket | k in t.issued :: k.id }

  /** The operation gives out no id that was given out before. Only a reused slot can break this. */
  predicate Fresh(t: Table, op: Op) {
    op.Create? && CanCreate(t, op.parent) ==> NextSlot(t) * SLOTS + op.token !in IssuedIds(t)
  }

  predicate FreshRun(t: Table, ops: seq<Op>) {
    ops == [] || (FreshRun(t, ops[..|ops| - 1]) && Fresh(Run(t, ops[..|ops| - 1]), ops[|ops| - 1]))
  }

  /** Lists hold only ids that were issued, no id was issued twice, and a live id is listed by its own connection only. */
  ghost predicate Unshared(t: Table) {
    && (forall c, id :: 0 <= c < |t.connections| && id in t.connections[c].sessions ==> id in IssuedIds(t))
    && (forall k: Ticket, m: Ticket :: k in t.issued && m in t.issued && k.id == m.id ==> k == m && t.issued[k] == 1)
    && (forall c, id :: 0 <= c < |t.connections| && id in t.connections[c].sessions && Matches(t, id) ==>
          t.sessions[IndexOf(id)].connection == c)
    && (forall k: Ticket :: k in t.issued ==> IndexOf(k.id) < |t.sessions|)
  }

  lemma ShrinksKeepsUnshared(t: Table, u: Table)
    requires Unshared(t) && Shrinks(t, u)
    ensures Unshared(u)
  {
    assert IssuedIds(u) == IssuedIds(t);
  }

  /** The step of `Add` and `Create`: a fresh id is handed out and listed by connection `c`, which its slot names. */
  ghost predicate Grows(t: Table, u: Table, c: nat, k: Ticket) {
    && u.issued == t.issued + multiset{k} && |t.sessions| <= |u.sessions| && IndexOf(k.id) < |u.sessions|
    && c < |t.connections| == |u.connections|
    && u.connections[c].sessions == t.connections[c].sessions + [k.id]
    && (forall d :: 0 <= d < |t.connections| && d != c ==> u.connections[d] == t.connections[d])
    && u.sessions[IndexOf(k.id)].connection == c
    && (forall id :: Matches(u, id) && id != k.id ==> Matches(t, id) && u.sessions[IndexOf(id)] == t.sessions[IndexOf(id)])
  }

  lemma GrowsKeepsUnshared(t: Table, u: Table, c: nat, k: Ticket)
    requires Unshared(t) && Grows(t, u, c, k) && k.id !in IssuedIds(t)
    ensures Unshared(u)
  {
    assert k in u.issued;
    forall m: Ticket ensures m in u.issued <==> m in t.issued || m == k {}
    forall id ensures id in IssuedIds(u) <==> id in IssuedIds(t) || id == k.id {
      if id in IssuedIds(t) { var m: Ticket :| m in t.issued && m.id == id; assert m in u.issued; }
    }
    forall m: Ticket, n: Ticket | m in u.issued && n in u.issued && m.id == n.id
      ensures m == n && u.issued[m] == 1
    {
      if m != k { assert m in t.issued && m.id in IssuedIds(t); }
      if n != k { assert n in t.issued && n.id in IssuedIds(t); }
    }
  }

  lemma AddKeepsUnshared(t: Table, c: nat, h: Handler, token: nat, now: nat)
    requires Inv(t) && Unshared(t) && Allowed(t, Add(c, h, token, now)) && c < |t.connections|
    ensures Unshared(AddConnection(t, c, h, token, now))
  {
    var u := AddConnection(t, c, h, token, now);
    var s := u.sessions[|t.sessions|];
    IdParts(s);
    assert Grows(t, u, c, Ticket(h, s.Id()));
    hide Inv;
    GrowsKeepsUnshared(t, u, c, Ticket(h, s.Id()));
  }

  lemma CreateKeepsUnshared(t: Table, parent: nat, h: Handler, token: nat)
    requires Inv(t) && Unshared(t) && Allowed(t, Create(parent, h, token)) && Fresh(t, Create(parent, h, token))
    ensures Unshared(CreateSession(t, parent, h, token))
  {
    hide Inv, CreateSession;
    CreateSessionEffect(t, parent, h, token);
    if CanCreate(t, parent) {
      var u := CreateSession(t, parent, h, token);
      var s := u.sessions[NextSlot(t)];
      IdParts(s);
      var k := Ticket(h, s.Id());
      CreateGrows(t, parent, h, token);
      GrowsKeepsUnshared(t, u, s.connection, k);
    }
  }

  lemma CreateGrows(t: Table, parent: nat, h: Handler, token: nat)
    requires Inv(t) && IsToken(token, OldToken(t)) && CanCreate(t, parent)
    ensures NextSlot(t) < |CreateSession(t, parent, h, token).sessions|
    ensures var u := CreateSession(t, parent, h, token); var s := u.sessions[NextSlot(t)];
      Grows(t, u, s.connection, Ticket(h, s.Id()))
  {
    CreateSessionEffect(t, parent, h, token);
    var u := CreateSession(t, parent, h, token);
    var s := u.sessions[NextSlot(t)];
    IdParts(s);
    forall id | Matches(u, id) && id != s.Id()
      ensures Matches(t, id) && u.sessions[IndexOf(id)] == t.sessions[IndexOf(id)]
    {
      assert IndexOf(id) != NextSlot(t);
      assert u.sessions[IndexOf(id)].IsValid();
    }
  }

  lemma ApplyKeepsUnshared(t: Table, op: Op)
    requires Inv(t) && Unshared(t) && Allowed(t, op) && Fresh(t, op)
    ensures Unshared(Apply(t, op))
  {
    hide Inv, Unshared, CreateSession, CloseSession, CloseConnection, CheckFirst, CloseFirst, Receive, Fresh;
    var u := Apply(t, op);
    match op
    case Add(c, h, token, now) =>
      if c < |t.connections| { AddKeepsUnshared(t, c, h, token, now); }
    case Create(parent, h, token) => CreateKeepsUnshared(t, parent, h, token);
    case Close(id) => CloseSessionEffect(t, id); ShrinksKeepsUnshared(t, u);
    case Shut(c) => ShutShrinks(t, c, true); ShrinksKeepsUnshared(t, u);
    case ClientGone(c) => ShutShrinks(t, c, false); ShrinksKeepsUnshared(t, u);
    case Message(c, id, kind, now) => ReceiveEffect(t, c, id, kind, now); ShrinksKeepsUnshared(t, u);
    case Check(now) => CheckFirstEffect(t, |t.connections|, now); ShrinksKeepsUnshared(t, u);
    case MarkAll => CloseFirstEffect(t, |t.connections|); ShrinksKeepsUnshared(t, u);
  }

  lemma {:induction false} RunKeepsUnshared(limit: nat, ops: seq<Op>)
    requires AllowedRun(Start(limit), ops) && FreshRun(Start(limit), ops)
    ensures Unshared(Run(Start(limit), ops))
    decreases |ops|
  {
    if ops != [] {
      RunKeepsUnshared(limit, ops[..|ops| - 1]);
      RunKeepsInv(limit, ops[..|ops| - 1]);
      ApplyKeepsUnshared(Run(Start(limit), ops[..|ops| - 1]), ops[|ops| - 1]);
    }
  }

  /** When no (index, token) pair is ever reissued, each session is reported closed at most once over the whole run,
      and closing a connection changes no session of any other connection. */
  lemma FreshRunIsolation(limit: nat, ops: seq<Op>, c: nat, notify: bool)
    requires AllowedRun(Start(limit), ops) && FreshRun(Start(limit), ops) && c < limit
    ensures |Run(Start(limit), ops).connections| == limit
    ensures var t := Run(Start(limit), ops); var u := CloseConnection(t, c, notify);
      && (forall k: Ticket :: t.reported[k] <= 1)
      && |u.sessions| == |t.sessions| && Empty(u, c)
      && (forall i :: 0 <= i < |t.sessions| && t.sessions[i].IsValid() && t.sessions[i].connection != c ==>
            u.sessions[i] == t.sessions[i])
      && (forall d :: 0 <= d < limit && d != c ==> u.connections[d] == t.connections[d])
  {
    hide Inv, Unshared, Run, CloseConnection;
    RunKeepsInv(limit, ops);
    RunKeepsUnshared(limit, ops);
    UnsharedIsolation(Run(Start(limit), ops), c, notify);
  }

  lemma UnsharedIsolation(t: Table, c: nat, notify: bool)
    requires Inv(t) && Unshared(t) && c < |t.connections|
    ensures var u := CloseConnection(t, c, notify);
      && (forall k: Ticket :: t.reported[k] <= 1)
      && |u.sessions| == |t.sessions| && Empty(u, c)
      && (forall i :: 0 <= i < |t.sessions| && t.sessions[i].IsValid() && t.sessions[i].connection != c ==>
            u.sessions[i] == t.sessions[i])
      && u.connections == t.connections[c := CLOSED_LINK]
  {
    CloseConnectionEffect(t, c, notify);
    forall k: Ticket ensures t.reported[k] <= 1 {
      assert t.issued[k] == t.reported[k] + (if Live(t, k) then 1 else 0);
      if k in t.issued { assert t.issued[k] == 1; }
    }
    forall i | 0 <= i < |t.sessions| && t.sessions[i].IsValid() && t.sessions[i].connection != c
      ensures t.sessions[i].Id() !in t.connections[c].sessions
    {
      IdParts(t.sessions[i]);
    }
  }
}
