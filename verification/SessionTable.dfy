/** The data of a session multiplexer as one value, and what each of its operations does to it.
    The class in SessionMux.dfy holds the same data in mutable fields and is proved against these
    functions; this module proves what the operations keep. */
module SessionTable {
  import opened Options

  /** A handler is known by an identity of its own; a missing handler is `None`. */
  type Handler = nat

  const SLOTS := 0x10000
  const CLOCK_RANGE := 0x1_0000_0000_0000_0000
  const HEARTBEAT_US := 400000
  const DISCONNECT_US := 1400000

  datatype Session = Session(index: nat, token: nat, connection: nat, handler: Option<Handler>) {
    predicate IsValid() { handler.Some? }

    function Id(): nat { index * SLOTS + token }
  }

  datatype Connection = Connection(up: bool, sessions: seq<nat>, lastMessageAt: nat, lastHeartbeatAt: nat)

  /** What the multiplexer hands to the channel below it. */
  datatype Signal =
    | ClosedInd(connection: nat, id: nat)
    | Heartbeat(connection: nat, id: nat)
    | Disconnect(connection: nat)

  /** One opening of a session: the handler it was issued for and the id it was given. */
  datatype Ticket = Ticket(handler: Handler, id: nat)

  /** `issued` and `reported` are the history: every session handed out, every `onSessionClosed` made. */
  datatype Table = Table(
    connections: seq<Connection>,
    sessions: seq<Session>,
    reuse: seq<nat>,
    outbox: seq<Signal>,
    issued: multiset<Ticket>,
    reported: multiset<Ticket>)

  const CLOSED_LINK := Connection(false, [], 0, 0)
  const DEAD_SLOT := Session(0, 0, 0, None)

  function IndexOf(id: nat): nat { id / SLOTS }

  predicate IsToken(token: nat, last: nat) { 0 < token < SLOTS && token != last }

  lemma IdParts(s: Session)
    requires s.token < SLOTS
    ensures IndexOf(s.Id()) == s.index && s.Id() % SLOTS == s.token
  {}

  // ------------------------------------------------------------------ the operations

  function Kill(s: Session): Session { s.(connection := 0, handler := None) }

  predicate Matches(t: Table, id: nat) {
    && 0 < IndexOf(id) < |t.sessions|
    && t.sessions[IndexOf(id)].IsValid()
    && t.sessions[IndexOf(id)].Id() == id
  }

  /** Closing one id, from the server side (`notify`) or because the client is gone. */
  function CloseOne(t: Table, id: nat, notify: bool): Table {
    if Matches(t, id) then
      var s := t.sessions[IndexOf(id)];
      t.(sessions := t.sessions[IndexOf(id) := Kill(s)],
         reuse := t.reuse + [s.index],
         outbox := if notify then t.outbox + [ClosedInd(s.connection, id)] else t.outbox,
         reported := t.reported + multiset{Ticket(s.handler.value, id)})
    else t
  }

  function CloseIds(t: Table, ids: seq<nat>, notify: bool): (u: Table)
    ensures u.connections == t.connections
    decreases |ids|
  {
    if ids == [] then t else CloseIds(CloseOne(t, ids[0], notify), ids[1..], notify)
  }

  function CloseConnection(t: Table, c: nat, notify: bool): Table {
    if c < |t.connections| then
      var u := CloseIds(t, t.connections[c].sessions, notify);
      u.(connections := u.connections[c := CLOSED_LINK],
         outbox := if notify then u.outbox + [Disconnect(c)] else u.outbox)
    else t
  }

  predicate IsRoot(t: Table, s: Session) {
    && s.connection < |t.connections|
    && t.connections[s.connection].up
    && t.connections[s.connection].sessions != []
    && t.connections[s.connection].sessions[0] == s.Id()
  }

  function CloseSession(t: Table, id: nat): Table {
    if IndexOf(id) < |t.sessions| then
      var s := t.sessions[IndexOf(id)];
      if IsRoot(t, s) then CloseConnection(t, s.connection, true) else CloseOne(t, id, true)
    else t
  }

  function AddConnection(t: Table, c: nat, h: Handler, token: nat, now: nat): Table {
    if c < |t.connections| then
      var s := Session(|t.sessions| % SLOTS, token, c, Some(h));
      t.(connections := t.connections[c := Connection(true, t.connections[c].sessions + [s.Id()], now, now)],
         sessions := t.sessions + [s],
         issued := t.issued + multiset{Ticket(h, s.Id())})
    else t
  }

  /** The parent of a new session has to be addressed by its exact id. */
  predicate GoodParent(t: Table, parent: nat) {
    && IndexOf(parent) < |t.sessions|
    && t.sessions[IndexOf(parent)].IsValid()
    && t.sessions[IndexOf(parent)].Id() == parent
  }

  /** The slot the next session would take, 0 when the table is full. */
  function NextSlot(t: Table): nat {
    if t.reuse != [] then t.reuse[|t.reuse| - 1]
    else if |t.sessions| < 0xFFFF then |t.sessions| else 0
  }

  /** The table after that slot has been taken from the free list or appended. */
  function Occupy(t: Table): Table {
    if t.reuse != [] then t.(reuse := t.reuse[..|t.reuse| - 1])
    else if |t.sessions| < 0xFFFF then t.(sessions := t.sessions + [DEAD_SLOT.(index := |t.sessions|)])
    else t
  }

  function OldToken(t: Table): nat {
    if 0 < NextSlot(t) < |t.sessions| then t.sessions[NextSlot(t)].token else 0
  }

  predicate CanCreate(t: Table, parent: nat) { GoodParent(t, parent) && NextSlot(t) != 0 }

  function CreateSession(t: Table, parent: nat, h: Handler, token: nat): Table {
    if !GoodParent(t, parent) then t
    else
      var c := t.sessions[IndexOf(parent)].connection;
      var u := Occupy(t);
      if NextSlot(t) == 0 || NextSlot(t) >= |u.sessions| || c >= |t.connections| then u
      else
        var s := u.sessions[NextSlot(t)].(token := token, connection := c, handler := Some(h));
        var link := u.connections[c];
        u.(sessions := u.sessions[NextSlot(t) := s],
           connections := u.connections[c := link.(sessions := link.sessions + [s.Id()])],
           issued := u.issued + multiset{Ticket(h, s.Id())})
  }

  /** Time passed since `then`, in the 64-bit arithmetic of the server. */
  function Since(now: nat, before: nat): nat { (now - before) % CLOCK_RANGE }

  predicate TimeToBeat(link: Connection, now: nat) {
    HEARTBEAT_US <= Since(now, link.lastMessageAt) && HEARTBEAT_US <= Since(now, link.lastHeartbeatAt)
  }

  predicate Beats(link: Connection, now: nat) {
    link.up && TimeToBeat(link, now) && Since(now, link.lastMessageAt) < DISCONNECT_US
  }

  predicate Expires(link: Connection, now: nat) {
    link.up && TimeToBeat(link, now) && DISCONNECT_US <= Since(now, link.lastMessageAt)
  }

  /** What an activity check does to one connection record. */
  function CheckLink(link: Connection, now: nat): Connection {
    if Beats(link, now) then link.(lastHeartbeatAt := now)
    else if Expires(link, now) then CLOSED_LINK
    else link
  }

  /** Sending to a session goes to the connection it belongs to, and nowhere when it is dead. */
  function SendHeartbeat(t: Table, id: nat): Table {
    if IndexOf(id) < |t.sessions| && t.sessions[IndexOf(id)].IsValid() && t.sessions[IndexOf(id)].Id() == id
    then t.(outbox := t.outbox + [Heartbeat(t.sessions[IndexOf(id)].connection, id)])
    else t
  }

  function CheckOne(t: Table, c: nat, now: nat): Table {
    if c >= |t.connections| then t
    else if Beats(t.connections[c], now) && t.connections[c].sessions != [] then
      var u := SendHeartbeat(t, t.connections[c].sessions[0]);
      u.(connections := u.connections[c := CheckLink(u.connections[c], now)])
    else if Expires(t.connections[c], now) then CloseConnection(t, c, true)
    else t
  }

  function CheckFirst(t: Table, n: nat, now: nat): Table {
    if n == 0 then t else CheckOne(CheckFirst(t, n - 1, now), n - 1, now)
  }

  function CloseFirst(t: Table, n: nat): Table {
    if n == 0 then t
    else
      var u := CloseFirst(t, n - 1);
      if n <= |u.connections| && u.connections[n - 1].up then CloseConnection(u, n - 1, false) else u
  }

  function MarkAllClosed(t: Table): Table { CloseFirst(t, |t.connections|) }

  datatype Kind = Payload | CloseRequest | OtherControl

  /** Where a payload goes: to nobody, or to whatever handler the addressed slot holds. */
  datatype Delivery = Dropped | Handed(handler: Option<Handler>)

  function Deliver(t: Table, c: nat, id: nat): Delivery {
    if id != 0 && IndexOf(id) < |t.sessions|
       && t.sessions[IndexOf(id)].connection == c && t.sessions[IndexOf(id)].Id() == id
    then Handed(t.sessions[IndexOf(id)].handler)
    else Dropped
  }

  function Receive(t: Table, c: nat, id: nat, kind: Kind, now: nat): Table {
    var u := if kind == CloseRequest then CloseSession(t, id) else t;
    if c < |u.connections| then u.(connections := u.connections[c := u.connections[c].(lastMessageAt := now)])
    else u
  }

  // ------------------------------------------------------------------ the invariant

  ghost predicate Indexed(t: Table) {
    && 1 <= |t.sessions| <= SLOTS
    && (forall i :: 0 <= i < |t.sessions| ==> t.sessions[i].index == i && t.sessions[i].token < SLOTS)
    && (forall i :: 0 <= i < |t.sessions| && !t.sessions[i].IsValid() ==> t.sessions[i].connection == 0)
    && (forall i :: 0 <= i < |t.sessions| && t.sessions[i].IsValid() ==> 0 < i && 0 < t.sessions[i].token)
  }

  /** The free list and the live slots divide the slots from 1 on, with no index listed twice. */
  ghost predicate FreeList(t: Table) {
    && (forall k :: 0 <= k < |t.reuse| ==> 0 < t.reuse[k] < |t.sessions| && !t.sessions[t.reuse[k]].IsValid())
    && (forall i :: 0 < i < |t.sessions| && !t.sessions[i].IsValid() ==> i in t.reuse)
    && (forall j, k :: 0 <= j < k < |t.reuse| ==> t.reuse[j] != t.reuse[k])
  }

  ghost predicate Homed(t: Table) {
    forall i :: 0 <= i < |t.sessions| && t.sessions[i].IsValid() ==>
      && t.sessions[i].connection < |t.connections|
      && t.connections[t.sessions[i].connection].up
      && t.sessions[i].Id() in t.connections[t.sessions[i].connection].sessions
  }

  ghost predicate Listed(t: Table) {
    && (forall c :: 0 <= c < |t.connections| && !t.connections[c].up ==> t.connections[c].sessions == [])
    && (forall c :: 0 <= c < |t.connections| && t.connections[c].up ==> t.connections[c].sessions != [])
    && (forall c, id :: 0 <= c < |t.connections| && id in t.connections[c].sessions ==> 0 < IndexOf(id) < |t.sessions|)
  }

  ghost predicate Live(t: Table, k: Ticket) {
    Matches(t, k.id) && t.sessions[IndexOf(k.id)].handler == Some(k.handler)
  }

  /** Conservation: an opening is either still alive or has been reported closed, never both, never twice. */
  ghost predicate Balanced(t: Table) {
    forall k: Ticket :: t.issued[k] == t.reported[k] + (if Live(t, k) then 1 else 0)
  }

  function Root(t: Table, c: nat): nat
    requires c < |t.connections| && t.connections[c].sessions != []
  {
    t.connections[c].sessions[0]
  }

  /** Connection `c`, when open, has a live root of its own that no other connection lists. */
  ghost predicate Rooted(t: Table, c: nat) {
    c < |t.connections| && t.connections[c].up && t.connections[c].sessions != [] ==>
      && Matches(t, Root(t, c))
      && t.sessions[IndexOf(Root(t, c))].connection == c
      && (forall d :: 0 <= d < |t.connections| && d != c ==> Root(t, c) !in t.connections[d].sessions)
  }

  ghost predicate Core(t: Table) { Indexed(t) && FreeList(t) && Homed(t) && Listed(t) && Balanced(t) }

  ghost predicate Inv(t: Table) { Core(t) && forall c :: 0 <= c < |t.connections| ==> Rooted(t, c) }

  // ------------------------------------------------------------------ closing

  lemma CloseOneKeepsCore(t: Table, id: nat, notify: bool)
    requires Core(t)
    ensures Core(CloseOne(t, id, notify))
  {
    if Matches(t, id) {
      var u := CloseOne(t, id, notify);
      var i := IndexOf(id);
      assert FreeList(u) by {
        forall j, k | 0 <= j < k < |u.reuse| ensures u.reuse[j] != u.reuse[k] {
          if k == |t.reuse| { assert t.sessions[i].IsValid() && !t.sessions[t.reuse[j]].IsValid(); }
        }
        forall j | 0 < j < |u.sessions| && !u.sessions[j].IsValid() ensures j in u.reuse {
          if j == i { assert u.reuse[|t.reuse|] == i; } else { assert j in t.reuse; }
        }
      }
      assert Balanced(u) by {
        forall k: Ticket ensures u.issued[k] == u.reported[k] + (if Live(u, k) then 1 else 0) {
          if IndexOf(k.id) == i {
            assert Live(t, k) <==> k == Ticket(t.sessions[i].handler.value, id);
          } else {
            assert Live(u, k) <==> Live(t, k);
          }
        }
      }
    }
  }

  /** What closing a list of ids does, whatever the order and the repetitions in the list. */
  lemma {:induction false} CloseIdsEffect(t: Table, ids: seq<nat>, notify: bool)
    requires Core(t)
    ensures var u := CloseIds(t, ids, notify);
      && Core(u)
      && u.connections == t.connections && |u.sessions| == |t.sessions| && u.issued == t.issued
      && forall i :: 0 <= i < |t.sessions| ==>
           u.sessions[i] == if t.sessions[i].IsValid() && t.sessions[i].Id() in ids
                            then Kill(t.sessions[i]) else t.sessions[i]
    decreases |ids|
  {
    if ids != [] {
      var v := CloseOne(t, ids[0], notify);
      CloseOneKeepsCore(t, ids[0], notify);
      CloseIdsEffect(v, ids[1..], notify);
      var u := CloseIds(t, ids, notify);
      forall i | 0 <= i < |t.sessions|
        ensures u.sessions[i] == if t.sessions[i].IsValid() && t.sessions[i].Id() in ids
                                 then Kill(t.sessions[i]) else t.sessions[i]
      {
        IdParts(t.sessions[i]);
        assert t.sessions[i].Id() in ids <==> t.sessions[i].Id() == ids[0] || t.sessions[i].Id() in ids[1..];
        assert Matches(t, t.sessions[i].Id()) <==> t.sessions[i].IsValid();
      }
    }
  }

  /** How often closing `ids` sends `g`: a notice for each session that dies, on its own connection, once. */
  function Notices(t: Table, ids: seq<nat>, notify: bool, g: Signal): nat {
    if notify && g.ClosedInd? && g.id in ids && Matches(t, g.id)
       && t.sessions[IndexOf(g.id)].connection == g.connection
    then 1 else 0
  }

  lemma {:induction false} CloseIdsSignals(t: Table, ids: seq<nat>, notify: bool, g: Signal)
    ensures t.outbox <= CloseIds(t, ids, notify).outbox
    ensures multiset(CloseIds(t, ids, notify).outbox)[g] == multiset(t.outbox)[g] + Notices(t, ids, notify, g)
    decreases |ids|
  {
    if ids != [] {
      var v := CloseOne(t, ids[0], notify);
      CloseIdsSignals(v, ids[1..], notify, g);
      if v.outbox != t.outbox {
        assert v.outbox == t.outbox + [v.outbox[|t.outbox|]];
        assert multiset(v.outbox) == multiset(t.outbox) + multiset{v.outbox[|t.outbox|]};
      }
      if g.ClosedInd? {
        assert g.id in ids <==> g.id == ids[0] || g.id in ids[1..];
        assert Matches(v, g.id) <==> Matches(t, g.id) && g.id != ids[0];
      }
    }
  }

  ghost predicate Empty(t: Table, c: nat) {
    forall i :: 0 <= i < |t.sessions| && t.sessions[i].IsValid() ==> t.sessions[i].connection != c
  }

  /** Nothing is handed out, no slot is revived, and each connection keeps its list or loses all of it. */
  ghost predicate Shrinks(t: Table, u: Table) {
    && u.issued == t.issued && |u.connections| == |t.connections| && |u.sessions| == |t.sessions|
    && (forall c :: 0 <= c < |t.connections| ==>
          || (u.connections[c].up == t.connections[c].up && u.connections[c].sessions == t.connections[c].sessions)
          || (!u.connections[c].up && u.connections[c].sessions == []))
    && (forall i :: 0 <= i < |t.sessions| && u.sessions[i].IsValid() ==> u.sessions[i] == t.sessions[i])
  }

  /** Closing a connection kills exactly what it lists, leaves nothing of its own alive, and keeps the invariant. */
  lemma CloseConnectionEffect(t: Table, c: nat, notify: bool)
    requires Inv(t) && c < |t.connections|
    ensures var u := CloseConnection(t, c, notify);
      && Inv(u) && Empty(u, c) && Shrinks(t, u)
      && u.connections == t.connections[c := CLOSED_LINK]
      && forall i :: 0 <= i < |t.sessions| ==>
           u.sessions[i] == if t.sessions[i].IsValid() && t.sessions[i].Id() in t.connections[c].sessions
                            then Kill(t.sessions[i]) else t.sessions[i]
  {
    var ids := t.connections[c].sessions;
    CloseIdsEffect(t, ids, notify);
    var v := CloseIds(t, ids, notify);
    forall i | 0 <= i < |t.sessions| && t.sessions[i].IsValid() && t.sessions[i].connection == c
      ensures t.sessions[i].Id() in ids
    {}
    assert Empty(v, c);
    LinkClosed(v, c, notify);
    var u := CloseConnection(t, c, notify);
    forall d | 0 <= d < |u.connections| ensures Rooted(u, d) {
      if d != c { assert Rooted(t, d); }
    }
  }

  /** Once nothing of connection `c` is alive its record may be cleared. */
  lemma LinkClosed(v: Table, c: nat, notify: bool)
    requires Core(v) && c < |v.connections| && Empty(v, c)
    ensures Core(v.(connections := v.connections[c := CLOSED_LINK],
                    outbox := if notify then v.outbox + [Disconnect(c)] else v.outbox))
  {
    var u := v.(connections := v.connections[c := CLOSED_LINK],
                outbox := if notify then v.outbox + [Disconnect(c)] else v.outbox);
    assert Indexed(u) && FreeList(u) && Homed(u) && Listed(u);
    forall k: Ticket ensures u.issued[k] == u.reported[k] + (if Live(u, k) then 1 else 0) {
      assert Live(u, k) <==> Live(v, k);
    }
  }

  lemma CloseOneKeepsInv(t: Table, id: nat, notify: bool)
    requires Inv(t)
    requires forall c :: 0 <= c < |t.connections| && t.connections[c].sessions != [] ==> Root(t, c) != id
    ensures Inv(CloseOne(t, id, notify))
  {
    CloseOneKeepsCore(t, id, notify);
    var u := CloseOne(t, id, notify);
    forall d | 0 <= d < |u.connections| ensures Rooted(u, d) {
      assert Rooted(t, d);
    }
  }

  /** Every live session is either the root of the connection it belongs to, or no connection's root. */
  lemma RootBelongs(t: Table, i: nat)
    requires Inv(t) && i < |t.sessions|
    ensures IsRoot(t, t.sessions[i]) ==> t.sessions[i].IsValid()
    ensures t.sessions[i].IsValid() && !IsRoot(t, t.sessions[i]) ==>
      forall c :: 0 <= c < |t.connections| && t.connections[c].sessions != [] ==> Root(t, c) != t.sessions[i].Id()
  {
    IdParts(t.sessions[i]);
    if IsRoot(t, t.sessions[i]) {
      assert Rooted(t, t.sessions[i].connection);
    }
    forall c | 0 <= c < |t.connections| && t.connections[c].sessions != [] && Root(t, c) == t.sessions[i].Id()
      ensures t.sessions[i].IsValid() ==> IsRoot(t, t.sessions[i])
    {
      assert Rooted(t, c);
    }
  }

  /** Closing by id closes the whole connection for a live root's slot, one session for a live exact id, else nothing. */
  lemma CloseSessionEffect(t: Table, id: nat)
    requires Inv(t)
    ensures var u := CloseSession(t, id);
      && Inv(u) && Shrinks(t, u)
      && (IndexOf(id) < |t.sessions| && IsRoot(t, t.sessions[IndexOf(id)]) ==>
            && u == CloseConnection(t, t.sessions[IndexOf(id)].connection, true)
            && u.connections == t.connections[t.sessions[IndexOf(id)].connection := CLOSED_LINK]
            && Empty(u, t.sessions[IndexOf(id)].connection))
      && (!(IndexOf(id) < |t.sessions| && IsRoot(t, t.sessions[IndexOf(id)])) ==>
            && u.connections == t.connections
            && forall i :: 0 <= i < |t.sessions| ==>
                 u.sessions[i] == if t.sessions[i].IsValid() && t.sessions[i].Id() == id
                                  then Kill(t.sessions[i]) else t.sessions[i])
  {
    if IndexOf(id) < |t.sessions| {
      var s := t.sessions[IndexOf(id)];
      RootBelongs(t, IndexOf(id));
      if IsRoot(t, s) {
        CloseConnectionEffect(t, s.connection, true);
      } else {
        if Matches(t, id) { CloseOneKeepsInv(t, id, true); }
      }
    }
    forall i | 0 <= i < |t.sessions| ensures IndexOf(t.sessions[i].Id()) == i { IdParts(t.sessions[i]); }
  }

  // ------------------------------------------------------------------ opening

  lemma AddedSession(t: Table, c: nat, h: Handler, token: nat, now: nat)
    requires Inv(t) && IsToken(token, 0) && c < |t.connections| && !t.connections[c].up && |t.sessions| <= 0xFFFF
    ensures var u := AddConnection(t, c, h, token, now); var s := Session(|t.sessions|, token, c, Some(h));
      && u.sessions == t.sessions + [s] && IndexOf(s.Id()) == |t.sessions| && Matches(u, s.Id())
      && u.connections == t.connections[c := Connection(true, [s.Id()], now, now)]
      && u.issued == t.issued + multiset{Ticket(h, s.Id())} && u.reported == t.reported && u.reuse == t.reuse
      && u.outbox == t.outbox
      && (forall id :: id != s.Id() ==> (Matches(u, id) <==> Matches(t, id)))
      && (forall d :: 0 <= d < |t.connections| ==> s.Id() !in t.connections[d].sessions)
  {
    var s := Session(|t.sessions|, token, c, Some(h));
    IdParts(s);
    assert t.connections[c].sessions == [];
    assert t.connections[c].sessions + [s.Id()] == [s.Id()];
    var u := AddConnection(t, c, h, token, now);
    assert u.sessions == t.sessions + [s];
    forall id | id != s.Id() ensures Matches(u, id) <==> Matches(t, id) {
      assert IndexOf(id) < |t.sessions| ==> u.sessions[IndexOf(id)] == t.sessions[IndexOf(id)];
    }
    forall d | 0 <= d < |t.connections| ensures s.Id() !in t.connections[d].sessions {
      assert Listed(t);
    }
  }

  lemma AddKeepsRooted(t: Table, c: nat, h: Handler, token: nat, now: nat, d: nat)
    requires Inv(t) && IsToken(token, 0) && c < |t.connections| && !t.connections[c].up && |t.sessions| <= 0xFFFF
    requires d < |t.connections|
    ensures Rooted(AddConnection(t, c, h, token, now), d)
  {
    AddedSession(t, c, h, token, now);
    assert Rooted(t, d) && Listed(t) && Indexed(t);
    hide Inv, AddConnection;
  }

  lemma AddKeepsCore(t: Table, c: nat, h: Handler, token: nat, now: nat)
    requires Inv(t) && IsToken(token, 0) && c < |t.connections| && !t.connections[c].up && |t.sessions| <= 0xFFFF
    ensures Core(AddConnection(t, c, h, token, now))
  {
    AddedSession(t, c, h, token, now);
    var u := AddConnection(t, c, h, token, now);
    hide AddConnection, Rooted;
    var s := u.sessions[|t.sessions|];
    forall k: Ticket ensures u.issued[k] == u.reported[k] + (if Live(u, k) then 1 else 0) {
      assert k.id == s.Id() ==> !Live(t, k);
    }
  }

  /** The 16-bit cast of the table size is harmless exactly while the table has at most 0xFFFF entries. */
  lemma AddConnectionEffect(t: Table, c: nat, h: Handler, token: nat, now: nat)
    requires Inv(t) && IsToken(token, 0)
    requires c < |t.connections| && !t.connections[c].up
    ensures Inv(AddConnection(t, c, h, token, now)) <==> |t.sessions| <= 0xFFFF
  {
    var u := AddConnection(t, c, h, token, now);
    if |t.sessions| <= 0xFFFF {
      AddKeepsCore(t, c, h, token, now);
      forall d | 0 <= d < |u.connections| ensures Rooted(u, d) {
        AddKeepsRooted(t, c, h, token, now, d);
      }
      hide Core, Rooted;
    } else {
      assert u.sessions[|t.sessions|].index != |t.sessions|;
    }
  }

  /** The table between taking a slot and filling it: all of the invariant, but slot `n` is spare. */
  ghost predicate Spare(u: Table, n: nat) {
    && Indexed(u) && Homed(u) && Listed(u) && Balanced(u)
    && (forall c :: 0 <= c < |u.connections| ==> Rooted(u, c))
    && 0 < n < |u.sessions| && !u.sessions[n].IsValid() && n !in u.reuse
    && (forall i :: 0 < i < |u.sessions| && !u.sessions[i].IsValid() && i != n ==> i in u.reuse)
    && (forall k :: 0 <= k < |u.reuse| ==> 0 < u.reuse[k] < |u.sessions| && !u.sessions[u.reuse[k]].IsValid())
    && (forall j, k :: 0 <= j < k < |u.reuse| ==> u.reuse[j] != u.reuse[k])
  }

  lemma OccupyReused(t: Table)
    requires Inv(t) && t.reuse != []
    ensures Spare(Occupy(t), NextSlot(t))
  {
    var u := Occupy(t);
    var n := NextSlot(t);
    assert t.reuse[|t.reuse| - 1] == n;
    forall i | 0 < i < |u.sessions| && !u.sessions[i].IsValid() && i != n ensures i in u.reuse {
      assert i in t.reuse;
      var k :| 0 <= k < |t.reuse| && t.reuse[k] == i;
      assert u.reuse[k] == i;
    }
    forall k: Ticket ensures Live(t, k) <==> Live(u, k) {}
    forall c | 0 <= c < |u.connections| ensures Rooted(u, c) { assert Rooted(t, c); }
  }

  lemma OccupyAppended(t: Table)
    requires Inv(t) && t.reuse == [] && |t.sessions| < 0xFFFF
    ensures Spare(Occupy(t), NextSlot(t))
  {
    var u := Occupy(t);
    var n := NextSlot(t);
    forall i | 0 <= i < |t.sessions| ensures u.sessions[i] == t.sessions[i] {}
    assert u.sessions[n] == DEAD_SLOT.(index := n);
    forall k: Ticket ensures Live(t, k) <==> Live(u, k) {
      assert Matches(t, k.id) <==> Matches(u, k.id);
    }
    forall c | 0 <= c < |u.connections| ensures Rooted(u, c) { assert Rooted(t, c); }
    forall i | 0 < i < |u.sessions| && !u.sessions[i].IsValid() && i != n ensures i in u.reuse {
      assert i in t.reuse;
    }
  }

  /** The table when the spare slot `n` has been given to a session of connection `c`. */
  function Filled(v: Table, n: nat, c: nat, h: Handler, token: nat): Table
    requires n < |v.sessions| && c < |v.connections|
  {
    var s := Session(n, token, c, Some(h));
    v.(sessions := v.sessions[n := s],
       connections := v.connections[c := v.connections[c].(sessions := v.connections[c].sessions + [s.Id()])],
       issued := v.issued + multiset{Ticket(h, s.Id())})
  }

  lemma FilledMatches(v: Table, n: nat, c: nat, h: Handler, token: nat, id: nat)
    requires Spare(v, n) && IsToken(token, v.sessions[n].token) && c < |v.connections|
    ensures var s := Session(n, token, c, Some(h)); IndexOf(s.Id()) == n
    ensures Matches(Filled(v, n, c, h, token), id) <==> Matches(v, id) || id == Session(n, token, c, Some(h)).Id()
    ensures Matches(v, id) ==> IndexOf(id) != n
  {
    IdParts(Session(n, token, c, Some(h)));
  }

  lemma FilledRooted(v: Table, n: nat, c: nat, h: Handler, token: nat, d: nat)
    requires Spare(v, n) && IsToken(token, v.sessions[n].token)
    requires c < |v.connections| && v.connections[c].up && d < |v.connections|
    ensures Rooted(Filled(v, n, c, h, token), d)
  {
    var u := Filled(v, n, c, h, token);
    assert Rooted(v, d) && Listed(v);
    if u.connections[d].up {
      assert Root(u, d) == Root(v, d);
      FilledMatches(v, n, c, h, token, Root(v, d));
    }
    hide Spare, Homed, Balanced;
  }

  lemma FilledBalanced(v: Table, n: nat, c: nat, h: Handler, token: nat)
    requires Spare(v, n) && IsToken(token, v.sessions[n].token) && c < |v.connections|
    ensures Balanced(Filled(v, n, c, h, token))
  {
    var u, s := Filled(v, n, c, h, token), Session(n, token, c, Some(h));
    assert Balanced(v);
    forall k: Ticket ensures u.issued[k] == u.reported[k] + (if Live(u, k) then 1 else 0) {
      FilledMatches(v, n, c, h, token, k.id);
      assert Live(u, k) <==> Live(v, k) || k == Ticket(h, s.Id());
    }
  }

  lemma Fill(v: Table, n: nat, c: nat, h: Handler, token: nat)
    requires Spare(v, n) && IsToken(token, v.sessions[n].token)
    requires c < |v.connections| && v.connections[c].up
    ensures Inv(Filled(v, n, c, h, token))
  {
    var u, s := Filled(v, n, c, h, token), Session(n, token, c, Some(h));
    IdParts(s);
    FilledBalanced(v, n, c, h, token);
    forall d | 0 <= d < |u.connections| ensures Rooted(u, d) { FilledRooted(v, n, c, h, token, d); }
    hide Rooted, Balanced, Matches, Live;
    assert Indexed(u) && FreeList(u);
    assert Homed(u) by {
      assert u.connections[c].sessions[|v.connections[c].sessions|] == s.Id();
    }
    assert Listed(u);
  }

  /** A new session joins its parent's connection on a slot that was dead, and disturbs nothing else. */
  lemma CreateSessionEffect(t: Table, parent: nat, h: Handler, token: nat)
    requires Inv(t) && IsToken(token, OldToken(t))
    ensures var u := CreateSession(t, parent, h, token); var n := NextSlot(t);
      && Inv(u)
      && (!CanCreate(t, parent) ==> u == t)
      && (CanCreate(t, parent) ==>
            var c := t.sessions[IndexOf(parent)].connection;
            && n < |u.sessions| && u.sessions[n] == Session(n, token, c, Some(h))
            && (n < |t.sessions| ==> !t.sessions[n].IsValid() && t.sessions[n].token != token)
            && (forall i :: 0 <= i < |t.sessions| && i != n ==> u.sessions[i] == t.sessions[i])
            && c < |t.connections|
            && u.connections == t.connections[c := t.connections[c].(sessions := t.connections[c].sessions + [u.sessions[n].Id()])]
            && u.issued == t.issued + multiset{Ticket(h, u.sessions[n].Id())}
            && u.outbox == t.outbox && u.reported == t.reported)
  {
    if CanCreate(t, parent) {
      if t.reuse != [] { OccupyReused(t); } else { OccupyAppended(t); }
      Fill(Occupy(t), NextSlot(t), t.sessions[IndexOf(parent)].connection, h, token);
    }
  }

  /** Creating a session, as the steps that do it: take a slot, fill it, list the new id. */
  lemma CreateByParts(t: Table, parent: nat, h: Handler, token: nat)
    requires Inv(t) && GoodParent(t, parent)
    ensures var u := CreateSession(t, parent, h, token); var v := Occupy(t); var n := NextSlot(t);
      var c := t.sessions[IndexOf(parent)].connection;
      && c < |v.connections|
      && (n == 0 ==> u == t && v == t)
      && (n != 0 ==>
            && n < |v.sessions| && v.sessions[n].index == n
            && var s := v.sessions[n].(token := token, connection := c, handler := Some(h));
               u == v.(sessions := v.sessions[n := s],
                       connections := v.connections[c := v.connections[c].(sessions := v.connections[c].sessions + [s.Id()])],
                       issued := v.issued + multiset{Ticket(h, s.Id())}))
  {}

  /** A session can be created exactly when its parent is alive under that very id and there is a slot: a dead one, or room
      for another one. */
  lemma CreationNeedsSlot(t: Table, parent: nat)
    requires Inv(t)
    ensures CanCreate(t, parent) <==>
      Matches(t, parent) && (|t.sessions| < 0xFFFF || exists i :: 0 < i < |t.sessions| && !t.sessions[i].IsValid())
  {
    if t.reuse != [] { assert !t.sessions[t.reuse[|t.reuse| - 1]].IsValid(); }
    if GoodParent(t, parent) { IdParts(t.sessions[IndexOf(parent)]); }
  }

  /** The slot of the session that was closed last is the next one to be taken, and the new session has another id. */
  lemma ClosedSlotIsNext(t: Table, id: nat, notify: bool, parent: nat, h: Handler, token: nat)
    requires Inv(t) && Matches(t, id)
    requires forall c :: 0 <= c < |t.connections| && t.connections[c].sessions != [] ==> Root(t, c) != id
    requires var v := CloseOne(t, id, notify); CanCreate(v, parent) && IsToken(token, OldToken(v))
    ensures var u := CreateSession(CloseOne(t, id, notify), parent, h, token);
      && |u.sessions| == |t.sessions|
      && u.sessions[IndexOf(id)] == Session(IndexOf(id), token, u.sessions[IndexOf(id)].connection, Some(h))
      && u.sessions[IndexOf(id)].Id() != id
      && forall i :: 0 <= i < |t.sessions| && i != IndexOf(id) ==> u.sessions[i] == t.sessions[i]
  {
    var v := CloseOne(t, id, notify);
    IdParts(t.sessions[IndexOf(id)]);
    CloseOneKeepsInv(t, id, notify);
    CreateSessionEffect(v, parent, h, token);
    assert NextSlot(v) == IndexOf(id) && |Occupy(v).sessions| == |v.sessions|;
  }
}
