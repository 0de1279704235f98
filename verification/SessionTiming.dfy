/** Heartbeats and timeouts: one connection record under any run of openings, messages and activity checks. */
module SessionTiming {
  import opened Options
  import opened SessionTable
  import opened SessionRuns

  const SILENCE_LIMIT_US := DISCONNECT_US + HEARTBEAT_US

  datatype LinkEvent = Opened(at: nat) | Received(at: nat) | Checked(at: nat) | Lost

  function Next(link: Connection, e: LinkEvent): Connection {
    match e
    case Opened(at) => link.(up := true, lastMessageAt := at, lastHeartbeatAt := at)
    case Received(at) => link.(lastMessageAt := at)
    case Checked(at) => CheckLink(link, at)
    case Lost => CLOSED_LINK
  }

  function After(link: Connection, es: seq<LinkEvent>): Connection {
    if es == [] then link else Next(After(link, es[..|es| - 1]), es[|es| - 1])
  }

  /** The time of the last event that has one. */
  function Clock(es: seq<LinkEvent>): nat {
    if es == [] then 0
    else match es[|es| - 1]
      case Lost => Clock(es[..|es| - 1])
      case e => e.at
  }

  /** The server's clock does not run backwards, and stays within its 64 bits. */
  predicate InOrder(es: seq<LinkEvent>) {
    es == [] || (InOrder(es[..|es| - 1]) && Clock(es[..|es| - 1]) <= Clock(es) < CLOCK_RANGE)
  }

  /** When heartbeats were sent. */
  function BeatTimes(link: Connection, es: seq<LinkEvent>): seq<nat> {
    if es == [] then []
    else
      var e := es[|es| - 1];
      BeatTimes(link, es[..|es| - 1]) +
      if e.Checked? && Beats(After(link, es[..|es| - 1]), e.at) then [e.at] else []
  }

  ghost predicate Timely(link: Connection, now: nat) {
    link.up ==> link.lastMessageAt <= now && link.lastHeartbeatAt <= now
                && link.lastHeartbeatAt < link.lastMessageAt + DISCONNECT_US
  }

  lemma {:induction false} RunTimely(es: seq<LinkEvent>)
    requires InOrder(es)
    ensures Timely(After(CLOSED_LINK, es), Clock(es)) && Clock(es) < CLOCK_RANGE
    decreases |es|
  {
    if es != [] { RunTimely(es[..|es| - 1]); }
  }

  ghost predicate Spaced(beats: seq<nat>) {
    forall i, j :: 0 <= i < j < |beats| ==> beats[i] + HEARTBEAT_US <= beats[j]
  }

  ghost predicate Past(beats: seq<nat>, link: Connection, now: nat) {
    forall i :: 0 <= i < |beats| ==> beats[i] <= now && (link.up ==> beats[i] <= link.lastHeartbeatAt)
  }

  /** Two heartbeats on one connection are never less than 400 ms apart. */
  lemma {:induction false} BeatsAreSpaced(es: seq<LinkEvent>)
    requires InOrder(es)
    ensures Spaced(BeatTimes(CLOSED_LINK, es))
    ensures Past(BeatTimes(CLOSED_LINK, es), After(CLOSED_LINK, es), Clock(es))
    decreases |es|
  {
    if es != [] {
      var prior, e := es[..|es| - 1], es[|es| - 1];
      BeatsAreSpaced(prior);
      RunTimely(prior);
      var link, beats := After(CLOSED_LINK, prior), BeatTimes(CLOSED_LINK, prior);
      if e.Checked? && Beats(link, e.at) {
        assert BeatTimes(CLOSED_LINK, es) == beats + [e.at];
        assert Since(e.at, link.lastHeartbeatAt) == e.at - link.lastHeartbeatAt;
      } else {
        assert BeatTimes(CLOSED_LINK, es) == beats;
      }
    }
  }

  /** What a check does, in terms of the two times on record: a heartbeat after 400 ms without a message, and as long after
      the last heartbeat, unless the silence has lasted for 1.4 s, when it closes the connection instead. */
  lemma CheckedWhen(es: seq<LinkEvent>, now: nat)
    requires InOrder(es) && Clock(es) <= now < CLOCK_RANGE
    ensures var link, next := After(CLOSED_LINK, es), After(CLOSED_LINK, es + [Checked(now)]);
      var due := link.up && link.lastMessageAt + HEARTBEAT_US <= now && link.lastHeartbeatAt + HEARTBEAT_US <= now;
      var over := link.lastMessageAt + DISCONNECT_US <= now;
      && (due && !over ==> next == link.(lastHeartbeatAt := now))
      && (due && over ==> next == CLOSED_LINK)
      && (!due ==> next == link)
      && (Beats(link, now) <==> due && !over)
      && BeatTimes(CLOSED_LINK, es + [Checked(now)]) == BeatTimes(CLOSED_LINK, es) + if due && !over then [now] else []
  {
    RunTimely(es);
    CheckAppended(es, now);
    var link := After(CLOSED_LINK, es);
    hide Since, After, BeatTimes;
    if link.up {
      SinceIs(now, link.lastMessageAt);
      SinceIs(now, link.lastHeartbeatAt);
    }
  }

  lemma SinceIs(now: nat, before: nat)
    requires before <= now < CLOCK_RANGE
    ensures Since(now, before) == now - before
  {}

  lemma CheckAppended(es: seq<LinkEvent>, now: nat)
    ensures After(CLOSED_LINK, es + [Checked(now)]) == CheckLink(After(CLOSED_LINK, es), now)
    ensures BeatTimes(CLOSED_LINK, es + [Checked(now)]) ==
      BeatTimes(CLOSED_LINK, es) + if Beats(After(CLOSED_LINK, es), now) then [now] else []
  {
    var all := es + [Checked(now)];
    assert all[..|all| - 1] == es;
    hide CheckLink, Beats;
  }

  predicate Heard(e: LinkEvent) { e.Opened? || e.Received? }

  /** The recorded time is that of the last message, or of the opening. */
  lemma {:induction false} LastHeard(es: seq<LinkEvent>, i: nat)
    requires InOrder(es) && i < |es| && Heard(es[i]) && After(CLOSED_LINK, es).up
    ensures es[i].at <= After(CLOSED_LINK, es).lastMessageAt
    ensures exists j :: 0 <= j < |es| && Heard(es[j]) && es[j].at == After(CLOSED_LINK, es).lastMessageAt
    decreases |es|
  {
    var prior, e := es[..|es| - 1], es[|es| - 1];
    RunTimely(prior);
    if Heard(e) {
      assert es[|es| - 1].at == After(CLOSED_LINK, es).lastMessageAt;
      if i < |es| - 1 { HeardBefore(es, i); }
    } else {
      LastHeard(prior, i);
      var j :| 0 <= j < |prior| && Heard(prior[j]) && prior[j].at == After(CLOSED_LINK, prior).lastMessageAt;
      assert Heard(es[j]);
    }
  }

  lemma {:induction false} HeardBefore(es: seq<LinkEvent>, i: nat)
    requires InOrder(es) && i < |es| && Heard(es[i])
    ensures es[i].at <= Clock(es)
    decreases |es|
  {
    if i < |es| - 1 { HeardBefore(es[..|es| - 1], i); }
  }

  /** No heartbeat is sent within 400 ms after a message. */
  lemma {:induction false} BeatsAfterSilence(es: seq<LinkEvent>, now: nat, i: nat)
    requires InOrder(es) && Clock(es) <= now < CLOCK_RANGE && Beats(After(CLOSED_LINK, es), now)
    requires i < |es| && Heard(es[i])
    ensures es[i].at + HEARTBEAT_US <= now
  {
    CheckedWhen(es, now);
    LastHeard(es, i);
  }

  /** A check closes a connection only after at least 1.4 s of silence, and only if it would also be time to beat. */
  lemma NeverClosedEarly(es: seq<LinkEvent>, now: nat)
    requires InOrder(es + [Checked(now)]) && After(CLOSED_LINK, es).up
    ensures !After(CLOSED_LINK, es + [Checked(now)]).up ==>
      After(CLOSED_LINK, es).lastMessageAt + DISCONNECT_US <= now
  {
    var all := es + [Checked(now)];
    assert all[..|all| - 1] == es;
    RunTimely(es);
  }

  // ------------------------------------------------------------------ the deadline

  function Checks(ts: seq<nat>): (es: seq<LinkEvent>)
    ensures |es| == |ts|
  {
    seq(|ts|, i requires 0 <= i < |ts| => Checked(ts[i]))
  }

  /** Until it is closed, a connection that hears nothing keeps its last message time, and a check after
      1.8 s of silence closes it. */
  lemma {:induction false} SilenceCloses(link: Connection, ts: seq<nat>, k: nat)
    requires link.up && k < |ts|
    requires forall i, j :: 0 <= i <= j < |ts| ==> ts[i] <= ts[j] < CLOCK_RANGE
    requires Timely(link, ts[0])
    requires link.lastMessageAt + SILENCE_LIMIT_US <= ts[k]
    ensures !After(link, Checks(ts[..k + 1])).up
  {
    QuietLink(link, ts, k);
    var es := Checks(ts[..k + 1]);
    assert es[..k] == Checks(ts[..k]);
  }

  lemma {:induction false} QuietLink(link: Connection, ts: seq<nat>, k: nat)
    requires link.up && k < |ts|
    requires forall i, j :: 0 <= i <= j < |ts| ==> ts[i] <= ts[j] < CLOCK_RANGE
    requires Timely(link, ts[0])
    ensures var l := After(link, Checks(ts[..k]));
      l.up ==> l.lastMessageAt == link.lastMessageAt && Timely(l, ts[k])
  {
    if k > 0 {
      QuietLink(link, ts, k - 1);
      var es := Checks(ts[..k]);
      assert es[..k - 1] == Checks(ts[..k - 1]);
      assert ts[k - 1] <= ts[k];
    }
  }

  /** With checks at most `gap` apart, a connection that hears nothing more is closed by a check
      no later than 1.8 s + `gap` after its last message. */
  lemma ClosedInTime(link: Connection, ts: seq<nat>, gap: nat) returns (k: nat)
    requires link.up && |ts| > 0
    requires forall i, j :: 0 <= i <= j < |ts| ==> ts[i] <= ts[j] < CLOCK_RANGE
    requires Timely(link, ts[0])
    requires ts[0] <= link.lastMessageAt + gap
    requires forall i :: 0 < i < |ts| ==> ts[i] <= ts[i - 1] + gap
    requires link.lastMessageAt + SILENCE_LIMIT_US <= ts[|ts| - 1]
    ensures k < |ts| && ts[k] <= link.lastMessageAt + SILENCE_LIMIT_US + gap
    ensures !After(link, Checks(ts[..k + 1])).up
  {
    k := 0;
    while ts[k] < link.lastMessageAt + SILENCE_LIMIT_US
      invariant k < |ts|
      invariant ts[k] <= link.lastMessageAt + SILENCE_LIMIT_US + gap
      decreases |ts| - k
    {
      k := k + 1;
    }
    SilenceCloses(link, ts, k);
  }

  // ------------------------------------------------------------------ every record of a multiplexer is such a link

  function Stamp(link: Connection): Connection { link.(sessions := []) }

  /** What one operation is for connection `c`. */
  function LinkEvents(t: Table, op: Op, c: nat): seq<LinkEvent>
    requires c < |t.connections|
  {
    match op
    case Add(d, _, _, now) => if c == d then [Opened(now)] else []
    case Create(_, _, _) => []
    case Close(id) => ClosingEvents(t, id, c)
    case Shut(d) => if c == d then [Lost] else []
    case ClientGone(d) => if c == d then [Lost] else []
    case Message(d, id, kind, now) =>
      (if kind == CloseRequest then ClosingEvents(t, id, c) else []) + (if c == d then [Received(now)] else [])
    case Check(now) => [Checked(now)]
    case MarkAll => if t.connections[c].up then [Lost] else []
  }

  function ClosingEvents(t: Table, id: nat, c: nat): seq<LinkEvent> {
    if IndexOf(id) < |t.sessions| && IsRoot(t, t.sessions[IndexOf(id)]) && t.sessions[IndexOf(id)].connection == c
    then [Lost] else []
  }

  lemma AfterTwo(link: Connection, a: seq<LinkEvent>, b: seq<LinkEvent>)
    requires |a| <= 1 && |b| <= 1
    ensures After(link, a + b) == After(After(link, a), b)
  {
    if b == [] {
      assert a + b == a;
    } else {
      assert (a + b)[..|a + b| - 1] == a;
      assert b[..0] == [];
    }
  }

  lemma AfterOne(link: Connection, e: LinkEvent)
    ensures After(link, [e]) == Next(link, e)
  {
    assert [e][..0] == [];
  }

  lemma ClosingStep(t: Table, id: nat, c: nat)
    requires Inv(t) && c < |t.connections|
    ensures |CloseSession(t, id).connections| == |t.connections|
    ensures Stamp(CloseSession(t, id).connections[c]) == After(Stamp(t.connections[c]), ClosingEvents(t, id, c))
  {
    CloseSessionEffect(t, id);
    AfterOne(Stamp(t.connections[c]), Lost);
  }

  /** The stamps of connection `c` change exactly as its events say. */
  lemma StepFollowsLink(t: Table, op: Op, c: nat)
    requires Inv(t) && Allowed(t, op) && c < |t.connections|
    ensures |Apply(t, op).connections| == |t.connections|
    ensures Stamp(Apply(t, op).connections[c]) == After(Stamp(t.connections[c]), LinkEvents(t, op, c))
  {
    hide Inv, CreateSession, CloseSession, CloseConnection, CheckFirst, CloseFirst, Receive, ClosingEvents;
    var link := Stamp(t.connections[c]);
    match op
    case Add(d, h, token, now) => AfterOne(link, Opened(now));
    case Create(parent, h, token) => CreateSessionEffect(t, parent, h, token);
    case Close(id) => ClosingStep(t, id, c);
    case Shut(d) => ShutStep(t, d, c, true); AfterOne(link, Lost);
    case ClientGone(d) => ShutStep(t, d, c, false); AfterOne(link, Lost);
    case Message(d, id, kind, now) => MessageStep(t, d, id, kind, now, c);
    case Check(now) => CheckFirstEffect(t, |t.connections|, now); AfterOne(link, Checked(now));
    case MarkAll => MassCloseStep(t, c); AfterOne(link, Lost);
  }

  lemma ShutStep(t: Table, d: nat, c: nat, notify: bool)
    requires Inv(t) && c < |t.connections|
    ensures |CloseConnection(t, d, notify).connections| == |t.connections|
    ensures CloseConnection(t, d, notify).connections[c] == if c == d then CLOSED_LINK else t.connections[c]
  {
    if d < |t.connections| { CloseConnectionEffect(t, d, notify); }
  }

  lemma MessageStep(t: Table, d: nat, id: nat, kind: Kind, now: nat, c: nat)
    requires Inv(t) && c < |t.connections|
    ensures |Receive(t, d, id, kind, now).connections| == |t.connections|
    ensures Stamp(Receive(t, d, id, kind, now).connections[c])
            == After(Stamp(t.connections[c]), LinkEvents(t, Message(d, id, kind, now), c))
  {
    ReceiveStep(t, d, id, kind, now, c);
    ClosingStep(t, id, c);
    MessageEvents(t, d, id, kind, now, c);
    hide *;
    var link := Stamp(t.connections[c]);
    var a := if kind == CloseRequest then ClosingEvents(t, id, c) else [];
    var b := if c == d then [Received(now)] else [];
    ClosingIsOne(t, id, c);
    AfterTwo(link, a, b);
    AfterOne(After(link, a), Received(now));
    AfterNone(link);
    AfterNone(After(link, a));
  }

  lemma AfterNone(link: Connection)
    ensures After(link, []) == link
  {}

  lemma MessageEvents(t: Table, d: nat, id: nat, kind: Kind, now: nat, c: nat)
    requires c < |t.connections|
    ensures LinkEvents(t, Message(d, id, kind, now), c) ==
      (if kind == CloseRequest then ClosingEvents(t, id, c) else []) + (if c == d then [Received(now)] else [])
  {}

  /** The stamps of connection `c` after a message: those after the closing that it asked for, and its own time. */
  lemma ReceiveStep(t: Table, d: nat, id: nat, kind: Kind, now: nat, c: nat)
    requires Inv(t) && c < |t.connections|
    ensures |Receive(t, d, id, kind, now).connections| == |t.connections| == |CloseSession(t, id).connections|
    ensures var link := Stamp(if kind == CloseRequest then CloseSession(t, id).connections[c] else t.connections[c]);
      Stamp(Receive(t, d, id, kind, now).connections[c]) == if c == d then Next(link, Received(now)) else link
  {
    ReceiveEffect(t, d, id, kind, now);
    CloseSessionEffect(t, id);
    hide Inv, CloseSession, Receive;
  }

  lemma ClosingIsOne(t: Table, id: nat, c: nat)
    ensures |ClosingEvents(t, id, c)| <= 1
  {}

  lemma MassCloseStep(t: Table, c: nat)
    requires Inv(t) && c < |t.connections|
    ensures |MarkAllClosed(t).connections| == |t.connections|
    ensures MarkAllClosed(t).connections[c] == if t.connections[c].up then CLOSED_LINK else t.connections[c]
  {
    MassCloseUpTo(t, c);
    MassCloseBeyond(t, c, |t.connections|);
    CloseFirstEffect(t, c);
  }

  lemma MassCloseUpTo(t: Table, c: nat)
    requires Inv(t) && c < |t.connections|
    ensures |CloseFirst(t, c + 1).connections| == |t.connections|
    ensures CloseFirst(t, c + 1).connections[c] == if t.connections[c].up then CLOSED_LINK else t.connections[c]
  {
    CloseFirstEffect(t, c);
    var u := CloseFirst(t, c);
    if u.connections[c].up { CloseConnectionEffect(u, c, false); }
  }

  lemma {:induction false} MassCloseBeyond(t: Table, c: nat, n: nat)
    requires Inv(t) && c < n <= |t.connections|
    ensures |CloseFirst(t, n).connections| == |CloseFirst(t, c + 1).connections| == |t.connections|
    ensures CloseFirst(t, n).connections[c] == CloseFirst(t, c + 1).connections[c]
    decreases n
  {
    hide Inv, CloseConnection;
    CloseFirstEffect(t, c + 1);
    CloseFirstEffect(t, n);
    if n > c + 1 {
      MassCloseBeyond(t, c, n - 1);
      CloseFirstEffect(t, n - 1);
      var u := CloseFirst(t, n - 1);
      if u.connections[n - 1].up { CloseConnectionEffect(u, n - 1, false); }
    }
  }

  /** Everything that happened to connection `c` over a run of the whole multiplexer. */
  function Trace(t: Table, ops: seq<Op>, c: nat): seq<LinkEvent> {
    if ops == [] then []
    else
      var u := Run(t, ops[..|ops| - 1]);
      Trace(t, ops[..|ops| - 1], c) +
      if c < |u.connections| then LinkEvents(u, ops[|ops| - 1], c) else []
  }

  lemma {:induction false} AfterConcat(link: Connection, a: seq<LinkEvent>, b: seq<LinkEvent>)
    ensures After(link, a + b) == After(After(link, a), b)
    decreases |b|
  {
    if b == [] {
      assert a + b == a;
    } else {
      assert (a + b)[..|a + b| - 1] == a + b[..|b| - 1];
      AfterConcat(link, a, b[..|b| - 1]);
    }
  }

  /** So each connection of a running multiplexer has the stamps of a link under its own trace, and the bounds
      proved for links are bounds for the multiplexer. */
  lemma {:induction false} RunFollowsLink(limit: nat, ops: seq<Op>, c: nat)
    requires AllowedRun(Start(limit), ops) && c < limit
    ensures c < |Run(Start(limit), ops).connections|
    ensures Stamp(Run(Start(limit), ops).connections[c]) == After(CLOSED_LINK, Trace(Start(limit), ops, c))
    decreases |ops|
  {
    if ops == [] {
    } else {
      RunFollowsLink(limit, ops[..|ops| - 1], c);
      RunKeepsInv(limit, ops[..|ops| - 1]);
      var t := Run(Start(limit), ops[..|ops| - 1]);
      hide Inv, Apply, LinkEvents, Allowed;
      StepFollowsLink(t, ops[|ops| - 1], c);
      AfterConcat(CLOSED_LINK, Trace(Start(limit), ops[..|ops| - 1], c), LinkEvents(t, ops[|ops| - 1], c));
    }
  }

  // ------------------------------------------------------------------ the deadline over a run of the multiplexer

  /** The time of the last activity check. */
  function LastCheck(es: seq<LinkEvent>): nat {
    if es == [] then 0 else if es[|es| - 1].Checked? then es[|es| - 1].at else LastCheck(es[..|es| - 1])
  }

  /** A connection that is still open was not yet silent for 1.8 s when it was last checked. */
  lemma {:induction false} OpenSinceCheck(es: seq<LinkEvent>)
    requires InOrder(es)
    ensures LastCheck(es) <= Clock(es)
    ensures After(CLOSED_LINK, es).up ==> LastCheck(es) < After(CLOSED_LINK, es).lastMessageAt + SILENCE_LIMIT_US
    decreases |es|
  {
    if es != [] {
      OpenSinceCheck(es[..|es| - 1]);
      RunTimely(es[..|es| - 1]);
    }
  }

  function OpTime(op: Op): Option<nat> {
    match op
    case Add(_, _, _, now) => Some(now)
    case Message(_, _, _, now) => Some(now)
    case Check(now) => Some(now)
    case _ => None
  }

  function RunClock(ops: seq<Op>): nat {
    if ops == [] then 0
    else match OpTime(ops[|ops| - 1])
      case Some(now) => now
      case None => RunClock(ops[..|ops| - 1])
  }

  predicate OpsInOrder(ops: seq<Op>) {
    ops == [] || (OpsInOrder(ops[..|ops| - 1]) && RunClock(ops[..|ops| - 1]) <= RunClock(ops) < CLOCK_RANGE)
  }

  function LastCheckOp(ops: seq<Op>): nat {
    if ops == [] then 0 else if ops[|ops| - 1].Check? then ops[|ops| - 1].now else LastCheckOp(ops[..|ops| - 1])
  }

  predicate At(e: LinkEvent, now: nat) { e.Lost? || e.at == now }

  lemma AppendInOrder(es: seq<LinkEvent>, e: LinkEvent, now: nat)
    requires InOrder(es) && Clock(es) <= now < CLOCK_RANGE && At(e, now)
    ensures InOrder(es + [e]) && Clock(es + [e]) <= now
    ensures LastCheck(es + [e]) == if e.Checked? then now else LastCheck(es)
  {
    var all := es + [e];
    assert all[..|all| - 1] == es && all[|all| - 1] == e;
    assert Clock(all) == if e.Lost? then Clock(es) else now;
    assert LastCheck(all) == if e.Checked? then now else LastCheck(es);
    hide LastCheck, Clock;
  }

  /** The events of one operation happen at its time, and one of them is a check exactly if the operation is one. */
  lemma EventsOfOp(t: Table, op: Op, c: nat, now: nat)
    requires c < |t.connections| && (OpTime(op).Some? ==> OpTime(op).value == now)
    ensures var es := LinkEvents(t, op, c);
      && |es| <= 2 && (forall i :: 0 <= i < |es| ==> At(es[i], now))
      && (op.Check? <==> es == [Checked(now)]) && (!op.Check? ==> forall i :: 0 <= i < |es| ==> !es[i].Checked?)
  {
    var es := LinkEvents(t, op, c);
    assert !op.Check? ==> forall i :: 0 <= i < |es| ==> !es[i].Checked?;
    assert es == [Checked(now)] ==> es[0].Checked?;
  }

  lemma AppendEvents(es: seq<LinkEvent>, fs: seq<LinkEvent>, now: nat)
    requires InOrder(es) && Clock(es) <= now < CLOCK_RANGE && |fs| <= 2
    requires forall i :: 0 <= i < |fs| ==> At(fs[i], now)
    requires fs == [Checked(now)] || forall i :: 0 <= i < |fs| ==> !fs[i].Checked?
    ensures InOrder(es + fs) && Clock(es + fs) <= now
    ensures LastCheck(es + fs) == if fs == [Checked(now)] then now else LastCheck(es)
  {
    hide InOrder, Clock, LastCheck;
    if |fs| == 0 {
      assert es + fs == es;
    } else {
      AppendInOrder(es, fs[0], now);
      if |fs| == 1 {
        assert es + fs == es + [fs[0]];
      } else {
        AppendInOrder(es + [fs[0]], fs[1], now);
        assert es + fs == es + [fs[0]] + [fs[1]];
      }
    }
  }

  lemma {:induction false} TraceInOrder(limit: nat, ops: seq<Op>, c: nat)
    requires AllowedRun(Start(limit), ops) && OpsInOrder(ops) && c < limit
    ensures var es := Trace(Start(limit), ops, c);
      InOrder(es) && Clock(es) <= RunClock(ops) < CLOCK_RANGE && LastCheck(es) == LastCheckOp(ops)
    decreases |ops|
  {
    hide *;
    if ops == [] {
      NoTrace(limit, c);
    } else {
      var prior, op := ops[..|ops| - 1], ops[|ops| - 1];
      TraceSteps(limit, ops, c);
      TraceInOrder(limit, prior, c);
      var t, now := Run(Start(limit), prior), RunClock(ops);
      EventsOfOp(t, op, c, now);
      AppendEvents(Trace(Start(limit), prior, c), LinkEvents(t, op, c), now);
    }
  }

  lemma NoTrace(limit: nat, c: nat)
    ensures var es := Trace(Start(limit), [], c);
      InOrder(es) && Clock(es) <= RunClock([]) < CLOCK_RANGE && LastCheck(es) == LastCheckOp([])
  {}

  lemma TraceSteps(limit: nat, ops: seq<Op>, c: nat)
    requires AllowedRun(Start(limit), ops) && OpsInOrder(ops) && c < limit && ops != []
    ensures var prior, op := ops[..|ops| - 1], ops[|ops| - 1]; var t := Run(Start(limit), prior);
      && AllowedRun(Start(limit), prior) && OpsInOrder(prior) && c < |t.connections|
      && Trace(Start(limit), ops, c) == Trace(Start(limit), prior, c) + LinkEvents(t, op, c)
      && RunClock(prior) <= RunClock(ops) < CLOCK_RANGE && (OpTime(op).Some? ==> OpTime(op).value == RunClock(ops))
      && LastCheckOp(ops) == if op.Check? then RunClock(ops) else LastCheckOp(prior)
  {
    RunKeepsInv(limit, ops[..|ops| - 1]);
    hide Inv, Allowed, LinkEvents, Apply;
  }

  /**
   * Over any run of the multiplexer: at any time `now` that is at most `gap` after the last check, the last message of
   * every open connection is less than 1.8 s + `gap` old. So with checks at most `gap` apart no connection ever
   * stays open longer than that without a message.
   */
  lemma OpenConnectionsAreFresh(limit: nat, ops: seq<Op>, c: nat, now: nat, gap: nat)
    requires AllowedRun(Start(limit), ops) && OpsInOrder(ops) && c < limit
    requires RunClock(ops) <= now <= LastCheckOp(ops) + gap
    ensures c < |Run(Start(limit), ops).connections|
    ensures var link := Run(Start(limit), ops).connections[c];
      link.up ==> link.lastMessageAt <= now < link.lastMessageAt + SILENCE_LIMIT_US + gap
  {
    RunFollowsLink(limit, ops, c);
    TraceInOrder(limit, ops, c);
    OpenSinceCheck(Trace(Start(limit), ops, c));
    RunTimely(Trace(Start(limit), ops, c));
    hide Run, AllowedRun, Trace, After, OpsInOrder;
    assert Stamp(Run(Start(limit), ops).connections[c]).up == Run(Start(limit), ops).connections[c].up;
  }
}
