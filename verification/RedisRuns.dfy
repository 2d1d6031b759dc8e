/** Runs of the Redis connection against a server and a clock.

    Commands are numbered in the order they are issued.  The server answers the commands written on a
    connection in order, command `c` with `replies[c]`, and its bytes arrive in chunks of any size.  Timers
    fire at their deadline: the clock never passes the deadline of a waiting command. */
module RedisRuns {
  import opened Wrappers
  import opened Resp
  import opened RedisConnection

  datatype Config = Config(timeout: nat, replies: seq<Reply>)

  datatype World = World(
    client: Client,
    now: int,
    sentAt: seq<int>,           // when each issued command was issued
    wire: seq<nat>,             // the commands written on the current connection
    received: seq<Byte>,        // the bytes that arrived on the current connection
    settled: seq<Settlement>)

  datatype Event =
    | Tick(to: int)
    | StartConnect
    | Handshake
    | Issue
    | Data(chunk: seq<Byte>)
    | Fire(command: nat)
    | WriteErrors(commands: seq<nat>)   // failing write callbacks, then the socket's error event
    | LateWriteError(command: nat)      // a write still queued when its socket was destroyed
    | ErrorEvent
    | CloseEvent
    | Shutdown

  function Initial(start: int): World {
    World(Client(NoSocket, [], [], false, false, 0), start, [], [], [], [])
  }

  function RepliesTo(config: Config, commands: seq<nat>): seq<Reply>
    requires forall i :: 0 <= i < |commands| ==> commands[i] < |config.replies|
  {
    seq(|commands|, i requires 0 <= i < |commands| => config.replies[commands[i]])
  }

  predicate Enabled(config: Config, w: World, e: Event) {
    var c := w.client;
    match e
    case Tick(to) => w.now < to && forall i :: 0 <= i < |c.pending| ==> to <= c.pending[i].deadline
    case StartConnect => MayConnect(c, w.now)
    case Handshake => c.socket == Open && c.connecting
    case Issue => |w.sentAt| < |config.replies|
    case Data(chunk) =>
      c.socket == Open && (forall i :: 0 <= i < |w.wire| ==> w.wire[i] < |config.replies|) &&
      w.received + chunk <= SerializeAll(RepliesTo(config, w.wire))
    case Fire(command) =>
      var i := IndexOf(c.pending, command);
      i < |c.pending| && c.pending[i].deadline <= w.now
    case WriteErrors(_) => c.socket == Open
    case LateWriteError(_) => c.socket == NoSocket
    case ErrorEvent => c.socket == Open
    case CloseEvent => c.socket == Open
    case Shutdown => true
  }

  function After(w: World, effect: Effect): World {
    w.(client := effect.client, settled := w.settled + effect.settled)
  }

  function DropAll(c: Client, commands: seq<nat>): Effect
    decreases |commands|
  {
    if commands == [] then Effect(c, [])
    else
      var first := Drop(c, commands[0], WriteFailed);
      var others := DropAll(first.client, commands[1..]);
      Effect(others.client, first.settled + others.settled)
  }

  function Next(config: Config, w: World, e: Event): World {
    var c := w.client;
    match e
    case Tick(to) => w.(now := to)
    case StartConnect => w.(client := Connect(c), wire := [], received := [])
    case Handshake => w.(client := HandshakeDone(c))
    case Issue =>
      var command := |w.sentAt|;
      After(w, Send(c, command, w.now + config.timeout))
        .(sentAt := w.sentAt + [w.now], wire := if c.socket == Open then w.wire + [command] else w.wire)
    case Data(chunk) => After(w, Deliver(c, chunk)).(received := w.received + chunk)
    case Fire(command) => After(w, Timeout(c, command, w.now))
    case WriteErrors(commands) =>
      var failed := After(w, DropAll(c, commands));
      After(failed, SocketError(failed.client, w.now))
    case LateWriteError(command) => After(w, Drop(c, command, WriteFailed))
    case ErrorEvent => After(w, SocketError(c, w.now))
    case CloseEvent => After(w, SocketClose(c))
    case Shutdown => After(w, ResetWith(c))
  }

  /** The world after a run, or nothing when some event could not happen there. */
  function Run(config: Config, w: World, events: seq<Event>): Option<World>
    decreases |events|
  {
    if events == [] then Some(w)
    else if !Enabled(config, w, events[0]) then None
    else Run(config, Next(config, w, events[0]), events[1..])
  }

  // ---------- every command is settled exactly once ----------

  function Times(settled: seq<Settlement>, command: nat): nat {
    if settled == [] then 0
    else (if settled[0].command == command then 1 else 0) + Times(settled[1..], command)
  }

  predicate Waits(pending: seq<Pending>, command: nat) {
    exists i :: 0 <= i < |pending| && pending[i].command == command
  }

  /** Waiting commands are issued, in order, with their timers armed and not yet due; every other issued
      command has been settled once, and no command that waits has been settled. */
  ghost predicate Accounted(timeout: nat, w: World) {
    var p := w.client.pending;
    && (forall i :: 0 <= i < |p| ==>
         p[i].command < |w.sentAt| && p[i].deadline == w.sentAt[p[i].command] + timeout && w.now <= p[i].deadline)
    && (forall i, j :: 0 <= i < j < |p| ==> p[i].command < p[j].command)
    && (forall i :: 0 <= i < |w.sentAt| ==> w.sentAt[i] <= w.now)
    && (forall c: nat :: Times(w.settled, c) == if c < |w.sentAt| && !Waits(p, c) then 1 else 0)
  }

  lemma {:induction false} TimesAppend(a: seq<Settlement>, b: seq<Settlement>, command: nat)
    ensures Times(a + b, command) == Times(a, command) + Times(b, command)
  {
    if a == [] {
      assert a + b == b;
    } else {
      TimesAppend(a[1..], b, command);
      assert (a + b)[1..] == a[1..] + b;
    }
  }

  /** Settling some waiting commands, each once, and taking exactly these off the list. */
  ghost predicate Moves(before: seq<Pending>, after: seq<Pending>, settled: seq<Settlement>) {
    && (forall i :: 0 <= i < |after| ==> after[i] in before)
    && (forall i, j :: 0 <= i < j < |after| ==> after[i].command < after[j].command)
    && (forall c: nat :: Times(settled, c) == if Waits(before, c) && !Waits(after, c) then 1 else 0)
  }

  ghost predicate Ordered(pending: seq<Pending>) {
    forall i, j :: 0 <= i < j < |pending| ==> pending[i].command < pending[j].command
  }

  lemma MovesKeepAccounted(timeout: nat, w: World, effect: Effect)
    requires Accounted(timeout, w) && Moves(w.client.pending, effect.client.pending, effect.settled)
    ensures Accounted(timeout, After(w, effect))
  {
    var p, q := w.client.pending, effect.client.pending;
    forall c: nat ensures Times(w.settled + effect.settled, c) == if c < |w.sentAt| && !Waits(q, c) then 1 else 0 {
      TimesAppend(w.settled, effect.settled, c);
      if Waits(q, c) {
        var i :| 0 <= i < |q| && q[i].command == c;
        var k :| 0 <= k < |p| && p[k] == q[i];
        assert Waits(p, c);
      }
    }
  }

  lemma {:induction false} TimesNone(settled: seq<Settlement>, command: nat)
    requires forall i :: 0 <= i < |settled| ==> settled[i].command != command
    ensures Times(settled, command) == 0
  {
    if settled != [] {
      TimesNone(settled[1..], command);
    }
  }

  lemma WaitsSplit(pending: seq<Pending>, m: nat, command: nat)
    requires m <= |pending|
    ensures Waits(pending, command) <==> Waits(pending[..m], command) || Waits(pending[m..], command)
    ensures Ordered(pending) ==> !(Waits(pending[..m], command) && Waits(pending[m..], command))
  {
    var low, high := pending[..m], pending[m..];
    assert forall i :: 0 <= i < |high| ==> high[i] == pending[m + i];
    if Waits(pending, command) {
      var i :| 0 <= i < |pending| && pending[i].command == command;
      if i < m {
        assert low[i].command == command;
      } else {
        assert high[i - m].command == command;
      }
    }
  }

  /** A prefix of an ordered list, settled entry by entry. */
  lemma {:induction false} TimesOfPrefix(pending: seq<Pending>, settled: seq<Settlement>, command: nat)
    requires Ordered(pending) && |settled| == |pending|
    requires forall i :: 0 <= i < |settled| ==> settled[i].command == pending[i].command
    ensures Times(settled, command) == if Waits(pending, command) then 1 else 0
  {
    if settled != [] {
      TimesOfPrefix(pending[1..], settled[1..], command);
      WaitsSplit(pending, 1, command);
      assert pending[..1][0].command == pending[0].command;
    }
  }

  lemma PrefixMoves(pending: seq<Pending>, settled: seq<Settlement>)
    requires Ordered(pending) && |settled| <= |pending|
    requires forall i :: 0 <= i < |settled| ==> settled[i].command == pending[i].command
    ensures Moves(pending, pending[|settled|..], settled)
  {
    var m := |settled|;
    forall c: nat ensures Times(settled, c) == if Waits(pending, c) && !Waits(pending[m..], c) then 1 else 0 {
      TimesOfPrefix(pending[..m], settled, c);
      WaitsSplit(pending, m, c);
    }
  }

  lemma DropMoves(c: Client, command: nat, reason: Reason)
    requires Ordered(c.pending)
    ensures var effect := Drop(c, command, reason);
            Moves(c.pending, effect.client.pending, effect.settled) && Ordered(effect.client.pending)
  {
    var i := IndexOf(c.pending, command);
    var effect := Drop(c, command, reason);
    var p, q := c.pending, effect.client.pending;
    if i < |p| {
      assert forall k :: 0 <= k < |q| ==> q[k] == if k < i then p[k] else p[k + 1];
      forall x: nat ensures Times(effect.settled, x) == if Waits(p, x) && !Waits(q, x) then 1 else 0 {
        TakeOneOut(p, i, x);
        assert effect.settled[1..] == [];
      }
    }
  }

  lemma TakeOneOut(p: seq<Pending>, i: nat, x: nat)
    requires Ordered(p) && i < |p|
    ensures Waits(p, x) && !Waits(p[..i] + p[i + 1..], x) <==> x == p[i].command
  {
    var q := p[..i] + p[i + 1..];
    WaitsSplit(p, i, x);
    WaitsSplit(p[i..], 1, x);
    WaitsSplit(q, i, x);
    assert p[i..][1..] == p[i + 1..] && q[..i] == p[..i] && q[i..] == p[i + 1..];
    assert p[i..][..1][0] == p[i] && |p[i..][..1]| == 1;
  }

  lemma MovesTrans(p: seq<Pending>, q: seq<Pending>, r: seq<Pending>, s: seq<Settlement>, t: seq<Settlement>)
    requires Moves(p, q, s) && Moves(q, r, t)
    ensures Moves(p, r, s + t)
  {
    forall c: nat ensures Times(s + t, c) == if Waits(p, c) && !Waits(r, c) then 1 else 0 {
      TimesAppend(s, t, c);
      WaitsSub(p, q, c);
      WaitsSub(q, r, c);
    }
  }

  lemma WaitsSub(p: seq<Pending>, q: seq<Pending>, c: nat)
    requires forall i :: 0 <= i < |q| ==> q[i] in p
    ensures Waits(q, c) ==> Waits(p, c)
  {
    if Waits(q, c) {
      var i :| 0 <= i < |q| && q[i].command == c;
      var k :| 0 <= k < |p| && p[k] == q[i];
      assert p[k].command == c;
    }
  }

  lemma {:induction false} DropAllMoves(c: Client, commands: seq<nat>)
    requires Ordered(c.pending)
    ensures var effect := DropAll(c, commands);
            Moves(c.pending, effect.client.pending, effect.settled) && Ordered(effect.client.pending)
    decreases |commands|
  {
    if commands != [] {
      var first := Drop(c, commands[0], WriteFailed);
      DropMoves(c, commands[0], WriteFailed);
      DropAllMoves(first.client, commands[1..]);
      var others := DropAll(first.client, commands[1..]);
      MovesTrans(c.pending, first.client.pending, others.client.pending, first.settled, others.settled);
    }
  }

  lemma ResetMoves(c: Client)
    requires Ordered(c.pending)
    ensures Moves(c.pending, ResetWith(c).client.pending, ResetWith(c).settled)
  {
    PrefixMoves(c.pending, RejectEach(c.pending, Failed));
  }

  lemma IssueAccounted(timeout: nat, w: World, config: Config)
    requires Accounted(timeout, w) && config.timeout == timeout
    ensures Accounted(timeout, Next(config, w, Issue))
  {
    hide Drain, SerializeAll, Waits, Times;
    var n, v := |w.sentAt|, Next(config, w, Issue);
    forall c: nat ensures Times(v.settled, c) == if c < |v.sentAt| && !Waits(v.client.pending, c) then 1 else 0 {
      IssueTimes(timeout, w, config, c);
    }
  }

  lemma IssueTimes(timeout: nat, w: World, config: Config, c: nat)
    requires Accounted(timeout, w) && config.timeout == timeout
    ensures var v := Next(config, w, Issue);
            Times(v.settled, c) == if c < |v.sentAt| && !Waits(v.client.pending, c) then 1 else 0
  {
    hide Drain, SerializeAll;
    var n, v := |w.sentAt|, Next(config, w, Issue);
    var p, q := w.client.pending, v.client.pending;
    var extra := Send(w.client, n, w.now + timeout).settled;
    TimesAppend(w.settled, extra, c);
    if w.client.socket == Open {
      WaitsSplit(q, |p|, c);
      assert q[..|p|] == p && |q[|p|..]| == 1 && q[|p|..][0].command == n;
    } else {
      assert extra[1..] == [];
    }
  }

  lemma QuietAccounted(config: Config, w: World, e: Event)
    requires Accounted(config.timeout, w) && Enabled(config, w, e) && (e.Tick? || e.StartConnect? || e.Handshake?)
    ensures Accounted(config.timeout, Next(config, w, e))
  {
    hide Drain, SerializeAll, Times, Waits;
  }

  /** One event keeps the account, whatever the command timeout. */
  lemma StepAccounted(config: Config, w: World, e: Event)
    requires Accounted(config.timeout, w) && Enabled(config, w, e)
    ensures Accounted(config.timeout, Next(config, w, e))
  {
    if e.Tick? || e.StartConnect? || e.Handshake? {
      QuietAccounted(config, w, e);
    } else if e.Issue? {
      IssueAccounted(config.timeout, w, config);
    } else {
      EffectAccounted(config, w, e);
    }
  }

  lemma EffectAccounted(config: Config, w: World, e: Event)
    requires Accounted(config.timeout, w) && Enabled(config, w, e)
    requires !e.Tick? && !e.StartConnect? && !e.Handshake? && !e.Issue?
    ensures Accounted(config.timeout, Next(config, w, e))
  {
    hide *;
    var v := Next(config, w, e);
    AccountedOrdered(config.timeout, w);
    var settled := EventMoves(config, w, e);
    MovesKeepAccounted(config.timeout, w, Effect(v.client, settled));
    SameAccount(config.timeout, After(w, Effect(v.client, settled)), v);
  }

  lemma AccountedOrdered(timeout: nat, w: World)
    requires Accounted(timeout, w)
    ensures Ordered(w.client.pending)
  {
    hide Times, Waits;
  }

  lemma SameAccount(timeout: nat, a: World, b: World)
    requires Accounted(timeout, a) && a.client.pending == b.client.pending && a.now == b.now
    requires a.sentAt == b.sentAt && a.settled == b.settled
    ensures Accounted(timeout, b)
  {
    hide Times, Waits;
  }

  /** What an event settles and takes off the list. */
  lemma EventMoves(config: Config, w: World, e: Event) returns (settled: seq<Settlement>)
    requires Ordered(w.client.pending)
    requires !e.Tick? && !e.StartConnect? && !e.Handshake? && !e.Issue?
    ensures var v := Next(config, w, e);
            && Moves(w.client.pending, v.client.pending, settled) && v.settled == w.settled + settled
            && After(w, Effect(v.client, settled)).client.pending == v.client.pending
            && After(w, Effect(v.client, settled)).settled == v.settled
            && v.now == w.now == After(w, Effect(v.client, settled)).now
            && v.sentAt == w.sentAt == After(w, Effect(v.client, settled)).sentAt
  {
    hide Drain, SerializeAll, Times, Waits, Ordered, Moves, Drop, DropAll;
    var c := w.client;
    match e {
      case Data(chunk) =>
        settled := Deliver(c, chunk).settled;
        PrefixMoves(c.pending, settled);
      case Fire(command) =>
        settled := Drop(c, command, TimedOut).settled;
        DropMoves(c, command, TimedOut);
      case WriteErrors(commands) =>
        var dropped := DropAll(c, commands);
        DropAllMoves(c, commands);
        ResetMoves(dropped.client);
        settled := dropped.settled + ResetWith(dropped.client).settled;
        MovesTrans(c.pending, dropped.client.pending, [], dropped.settled, ResetWith(dropped.client).settled);
        assert w.settled + settled == w.settled + dropped.settled + ResetWith(dropped.client).settled;
      case LateWriteError(command) =>
        settled := Drop(c, command, WriteFailed).settled;
        DropMoves(c, command, WriteFailed);
      case ErrorEvent =>
        settled := ResetWith(c).settled;
        ResetMoves(c);
      case CloseEvent =>
        settled := SocketClose(c).settled;
        ResetMoves(c);
        PrefixMoves(c.pending, []);
      case Shutdown =>
        settled := ResetWith(c).settled;
        ResetMoves(c);
    }
  }

  lemma {:induction false} RunAccounted(config: Config, w: World, events: seq<Event>)
    requires Accounted(config.timeout, w) && Run(config, w, events).Some?
    ensures Accounted(config.timeout, Run(config, w, events).value)
    decreases |events|
  {
    if events != [] {
      StepAccounted(config, w, events[0]);
      RunAccounted(config, Next(config, w, events[0]), events[1..]);
    }
  }

  /** In every run, whatever the timeout: no command is settled twice, only issued commands are settled, an
      issued command still unsettled waits with its timer armed, and once its timer is due it has been
      settled exactly once. */
  lemma SettledExactlyOnce(config: Config, start: int, events: seq<Event>, command: nat)
    requires Run(config, Initial(start), events).Some?
    ensures var w := Run(config, Initial(start), events).value;
            && Times(w.settled, command) <= 1
            && (Times(w.settled, command) == 1 ==> command < |w.sentAt|)
            && (command < |w.sentAt| && Times(w.settled, command) == 0 ==> Waits(w.client.pending, command))
            && (command < |w.sentAt| && w.now > w.sentAt[command] + config.timeout ==> Times(w.settled, command) == 1)
  {
    InitiallyAccounted(config.timeout, start);
    hide Run, Initial;
    RunAccounted(config, Initial(start), events);
    OnceAccounted(config.timeout, Run(config, Initial(start), events).value, command);
  }

  lemma InitiallyAccounted(timeout: nat, start: int)
    ensures Accounted(timeout, Initial(start))
  {
    var w := Initial(start);
    assert w.client.pending == [] && w.sentAt == [];
    forall c: nat ensures Times(w.settled, c) == 0 && !Waits(w.client.pending, c) {
      TimesNone(w.settled, c);
    }
  }

  lemma OnceAccounted(timeout: nat, w: World, command: nat)
    requires Accounted(timeout, w)
    ensures Times(w.settled, command) <= 1
    ensures Times(w.settled, command) == 1 ==> command < |w.sentAt|
    ensures command < |w.sentAt| && Times(w.settled, command) == 0 ==> Waits(w.client.pending, command)
    ensures command < |w.sentAt| && w.now > w.sentAt[command] + timeout ==> Times(w.settled, command) == 1
  {
    hide Times;
  }
}
