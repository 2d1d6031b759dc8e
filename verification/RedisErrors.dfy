/** What a failing connection leaves behind, over whole runs: an error, a shutdown or the end of a ready
    connection settles every command, and after an error nothing connects for five seconds.

    The statements read the client's fields and the settled commands; the waiting times are written out. */
module RedisErrors {
  import opened Wrappers
  import opened Resp
  import opened RedisConnection
  import opened RedisRuns

  /** The events that give the connection up together with everything that waits. */
  predicate GivesUp(w: World, e: Event) {
    e.ErrorEvent? || e.WriteErrors? || e.Shutdown? || (e.CloseEvent? && w.client.initialized)
  }

  predicate Fails(e: Event) {
    e.ErrorEvent? || e.WriteErrors?
  }

  /** Why a command that waited is rejected: a command whose own write failed gets the write's error. */
  function Cause(e: Event, command: nat): Reason {
    if e.WriteErrors? && command in e.commands then WriteFailed else Failed
  }

  /** No connection, no attempt under way and nothing waiting, until the given instant at least. */
  predicate Quiet(c: Client, until: int) {
    c == Client(NoSocket, [], [], false, false, until)
  }

  // ---------- nothing waits after the connection is given up ----------

  lemma RejectedEach(p: seq<Pending>, command: nat)
    requires Waits(p, command)
    ensures Rejected(command, Failed) in RejectEach(p, Failed)
  {
    var i :| 0 <= i < |p| && p[i].command == command;
    assert RejectEach(p, Failed)[i] == Rejected(command, Failed);
  }

  lemma {:induction false} DroppedEach(c: Client, commands: seq<nat>, command: nat)
    requires Ordered(c.pending) && Waits(c.pending, command)
    ensures var d := DropAll(c, commands);
            && (command in commands ==> Rejected(command, WriteFailed) in d.settled)
            && (command !in commands ==> Waits(d.client.pending, command))
    decreases |commands|
  {
    if commands != [] {
      hide Ordered, Moves, Waits, DropAll;
      var first := Drop(c, commands[0], WriteFailed);
      DroppedOne(c, commands[0], command);
      DropMoves(c, commands[0], WriteFailed);
      DropAllUnfolds(c, commands);
      assert command in commands <==> command == commands[0] || command in commands[1..];
      if command != commands[0] {
        DroppedEach(first.client, commands[1..], command);
      }
    }
  }

  lemma DropAllUnfolds(c: Client, commands: seq<nat>)
    requires commands != []
    ensures var first := Drop(c, commands[0], WriteFailed);
            var others := DropAll(first.client, commands[1..]);
            DropAll(c, commands) == Effect(others.client, first.settled + others.settled)
  {
  }

  lemma DroppedOne(c: Client, dropped: nat, command: nat)
    requires Ordered(c.pending) && Waits(c.pending, command)
    ensures var d := Drop(c, dropped, WriteFailed);
            if command == dropped then Rejected(command, WriteFailed) in d.settled else Waits(d.client.pending, command)
  {
    var p, i := c.pending, IndexOf(c.pending, dropped);
    var k :| 0 <= k < |p| && p[k].command == command;
    if i < |p| {
      TakeOneOut(p, i, command);
    }
  }

  lemma {:induction false} DropAllKeeps(c: Client, commands: seq<nat>)
    ensures DropAll(c, commands).client == c.(pending := DropAll(c, commands).client.pending)
    decreases |commands|
  {
    if commands != [] {
      DropAllKeeps(Drop(c, commands[0], WriteFailed).client, commands[1..]);
    }
  }

  /** A command that waited is rejected with its cause. */
  lemma WaitingRejected(config: Config, w: World, e: Event, command: nat)
    requires Ordered(w.client.pending) && GivesUp(w, e) && Waits(w.client.pending, command)
    ensures w.settled <= Next(config, w, e).settled
    ensures Rejected(command, Cause(e, command)) in Next(config, w, e).settled[|w.settled|..]
  {
    hide Waits, Ordered, DropAll, Drop, RejectEach, IndexOf;
    var c, v := w.client, Next(config, w, e);
    if e.WriteErrors? {
      var d := DropAll(c, e.commands);
      DroppedEach(c, e.commands, command);
      assert v.settled[|w.settled|..] == d.settled + RejectEach(d.client.pending, Failed);
      if command !in e.commands {
        RejectedEach(d.client.pending, command);
      }
    } else {
      assert v.settled[|w.settled|..] == RejectEach(c.pending, Failed);
      RejectedEach(c.pending, command);
    }
  }

  lemma GivenUp(config: Config, w: World, e: Event)
    requires GivesUp(w, e)
    ensures var v := Next(config, w, e);
            && Quiet(v.client, if Fails(e) then w.now + 5000 else w.client.unhealthyUntil)
            && v.sentAt == w.sentAt && v.now == w.now
  {
    hide Drop, IndexOf, RejectEach;
    if e.WriteErrors? {
      DropAllKeeps(w.client, e.commands);
    }
  }

  lemma AllSettled(timeout: nat, w: World)
    requires Accounted(timeout, w) && w.client.pending == []
    ensures forall command: nat :: Times(w.settled, command) == if command < |w.sentAt| then 1 else 0
  {
    hide Times;
  }

  /** In every run: after a socket error, failing writes, a shutdown, or the end of a ready connection, no
      command waits, every command issued so far has been settled exactly once, and those that waited were
      rejected by this very event, each with its cause.  The connection, its buffer and its readiness are
      gone; only an error starts a backoff. */
  lemma NothingWaits(config: Config, start: int, events: seq<Event>, e: Event)
    requires Run(config, Initial(start), events).Some?
    requires var w := Run(config, Initial(start), events).value; Enabled(config, w, e) && GivesUp(w, e)
    ensures var w := Run(config, Initial(start), events).value;
            var v := Next(config, w, e);
            && Quiet(v.client, if Fails(e) then w.now + 5000 else w.client.unhealthyUntil)
            && (forall command: nat :: Times(v.settled, command) == if command < |w.sentAt| then 1 else 0)
            && w.settled <= v.settled
            && (forall command: nat :: Waits(w.client.pending, command) ==>
                  Rejected(command, Cause(e, command)) in v.settled[|w.settled|..])
  {
    InitiallyAccounted(config.timeout, start);
    hide *;
    var w := Run(config, Initial(start), events).value;
    RunAccounted(config, Initial(start), events);
    RejectedAll(config, w, e);
    StepAccounted(config, w, e);
    GivenUp(config, w, e);
    NoneIn(Next(config, w, e).client, if Fails(e) then w.now + 5000 else w.client.unhealthyUntil);
    AllSettled(config.timeout, Next(config, w, e));
  }

  lemma NoneIn(c: Client, until: int)
    requires Quiet(c, until)
    ensures c.pending == []
  {
  }

  lemma RejectedAll(config: Config, w: World, e: Event)
    requires Accounted(config.timeout, w) && GivesUp(w, e)
    ensures w.settled <= Next(config, w, e).settled
    ensures forall command: nat :: Waits(w.client.pending, command) ==>
              Rejected(command, Cause(e, command)) in Next(config, w, e).settled[|w.settled|..]
  {
    hide *;
    AccountedOrdered(config.timeout, w);
    SettledGrow(config, w, e);
    forall command: nat | Waits(w.client.pending, command)
      ensures Rejected(command, Cause(e, command)) in Next(config, w, e).settled[|w.settled|..]
    {
      WaitingRejected(config, w, e, command);
    }
  }

  lemma SettledGrow(config: Config, w: World, e: Event)
    ensures w.settled <= Next(config, w, e).settled
  {
    hide Drop, IndexOf, RejectEach, DropAll, Drain, SettleEach, SerializeAll;
  }

  // ---------- the backoff ----------

  /** Nothing connects and nothing waits before the instant, and until then the backoff stays as it is. */
  ghost predicate Silent(w: World, until: int) {
    w.now < until ==> Quiet(w.client, until)
  }

  lemma SilentStep(config: Config, w: World, e: Event, until: int)
    requires Silent(w, until) && Enabled(config, w, e)
    ensures Silent(Next(config, w, e), until) && Next(config, w, e).now >= w.now
    ensures Quiet(w.client, until) && !e.StartConnect? ==> Quiet(Next(config, w, e).client, until)
  {
    hide DropAll, Drain, SettleEach, SerializeAll;
  }

  lemma {:induction false} SilentRun(config: Config, w: World, later: seq<Event>, until: int)
    requires Silent(w, until) && Run(config, w, later).Some?
    ensures Silent(Run(config, w, later).value, until)
    ensures Quiet(w.client, until) && StartConnect !in later ==> Quiet(Run(config, w, later).value.client, until)
    decreases |later|
  {
    if later != [] {
      hide Next, Enabled, Quiet, Silent;
      SilentStep(config, w, later[0], until);
      SilentRun(config, Next(config, w, later[0]), later[1..], until);
    }
  }

  /** In every run going on from a socket error or from failing writes: for five seconds no connection may
      start, nothing waits, and every command issued in the meantime is settled at once; as long as none has
      started, a connection may start exactly when the five seconds are over. */
  lemma BackoffAfterError(config: Config, start: int, events: seq<Event>, e: Event, later: seq<Event>)
    requires Run(config, Initial(start), events).Some?
    requires var w := Run(config, Initial(start), events).value;
             Enabled(config, w, e) && Fails(e) && Run(config, Next(config, w, e), later).Some?
    ensures var w := Run(config, Initial(start), events).value;
            var u := Run(config, Next(config, w, e), later).value;
            && (u.now < w.now + 5000 ==>
                  && !Enabled(config, u, StartConnect) && u.client.pending == []
                  && forall command: nat :: Times(u.settled, command) == if command < |u.sentAt| then 1 else 0)
            && (StartConnect !in later ==> (Enabled(config, u, StartConnect) <==> u.now >= w.now + 5000))
  {
    InitiallyAccounted(config.timeout, start);
    hide *;
    var w := Run(config, Initial(start), events).value;
    var v := Next(config, w, e);
    RunAccounted(config, Initial(start), events);
    StepAccounted(config, w, e);
    RunAccounted(config, v, later);
    ErrorGivesUp(w, e);
    GivenUp(config, w, e);
    QuietSilent(v, w.now + 5000);
    SilentRun(config, v, later, w.now + 5000);
    var u := Run(config, v, later).value;
    SilentMeans(config, u, w.now + 5000);
    QuietMeans(config, u, w.now + 5000);
  }

  lemma ErrorGivesUp(w: World, e: Event)
    requires Fails(e)
    ensures GivesUp(w, e)
  {
  }

  lemma QuietSilent(w: World, until: int)
    requires Quiet(w.client, until)
    ensures Silent(w, until)
  {
  }

  lemma SilentMeans(config: Config, u: World, until: int)
    requires Silent(u, until) && Accounted(config.timeout, u)
    ensures u.now < until ==>
              && !Enabled(config, u, StartConnect) && u.client.pending == []
              && forall command: nat :: Times(u.settled, command) == if command < |u.sentAt| then 1 else 0
  {
    hide Times;
    if u.now < until {
      AllSettled(config.timeout, u);
    }
  }

  lemma QuietMeans(config: Config, u: World, until: int)
    ensures Quiet(u.client, until) ==> (Enabled(config, u, StartConnect) <==> u.now >= until)
  {
  }

  // ---------- a timer that fires ----------

  /** A time-out takes the connection away and starts the backoff, yet rejects its own command alone: the
      others wait on, in their order, for a connection that is gone. */
  lemma TimeoutRejectsOne(config: Config, start: int, events: seq<Event>, command: nat)
    requires Run(config, Initial(start), events).Some?
    requires Enabled(config, Run(config, Initial(start), events).value, Fire(command))
    ensures var w := Run(config, Initial(start), events).value;
            var v := Next(config, w, Fire(command));
            && v.settled == w.settled + [Rejected(command, TimedOut)]
            && v.client == Client(NoSocket, [], v.client.pending, false, false, w.now + 5000)
            && (exists i :: 0 <= i < |w.client.pending| && w.client.pending[i].command == command &&
                  v.client.pending == w.client.pending[..i] + w.client.pending[i + 1..])
            && Times(v.settled, command) == 1
  {
    InitiallyAccounted(config.timeout, start);
    hide *;
    var w := Run(config, Initial(start), events).value;
    RunAccounted(config, Initial(start), events);
    StepAccounted(config, w, Fire(command));
    Fired(config, w, command);
    AccountedOrdered(config.timeout, w);
    OneLess(config.timeout, w, Next(config, w, Fire(command)), command);
  }

  lemma Fired(config: Config, w: World, command: nat)
    requires Enabled(config, w, Fire(command))
    ensures var v := Next(config, w, Fire(command));
            && v.settled == w.settled + [Rejected(command, TimedOut)] && v.sentAt == w.sentAt && v.now == w.now
            && v.client == Client(NoSocket, [], v.client.pending, false, false, w.now + 5000)
            && (exists i :: 0 <= i < |w.client.pending| && w.client.pending[i].command == command &&
                  v.client.pending == w.client.pending[..i] + w.client.pending[i + 1..])
  {
    var i := IndexOf(w.client.pending, command);
    assert w.client.pending[i].command == command;
  }

  lemma OneLess(timeout: nat, w: World, v: World, command: nat)
    requires Accounted(timeout, w) && Accounted(timeout, v) && v.sentAt == w.sentAt
    requires v.settled == w.settled + [Rejected(command, TimedOut)]
    ensures Times(v.settled, command) == 1
  {
    TimesAppend(w.settled, [Rejected(command, TimedOut)], command);
    assert Times([Rejected(command, TimedOut)], command) >= 1;
    hide Times;
  }

  /** No connection starts within five seconds of a time-out either, whatever happens in between. */
  lemma BackoffAfterTimeout(config: Config, w: World, command: nat, later: seq<Event>)
    requires Enabled(config, w, Fire(command)) && Run(config, Next(config, w, Fire(command)), later).Some?
    ensures var u := Run(config, Next(config, w, Fire(command)), later).value;
            u.now < w.now + 5000 ==> !Enabled(config, u, StartConnect) && u.client.socket == NoSocket
  {
    hide *;
    var v := Next(config, w, Fire(command));
    Fired(config, w, command);
    FiredHeld(w, v);
    HeldRun(config, v, later, w.now + 5000);
    HeldMeans(config, Run(config, v, later).value, w.now + 5000);
  }

  /** No connection starts before the instant. */
  ghost predicate Held(w: World, until: int) {
    && until <= w.now + 5000
    && (w.now < until ==> w.client.socket == NoSocket && !w.client.connecting && w.client.unhealthyUntil >= until)
  }

  lemma FiredHeld(w: World, v: World)
    requires v.client == Client(NoSocket, [], v.client.pending, false, false, w.now + 5000) && v.now == w.now
    ensures Held(v, w.now + 5000)
  {
  }

  lemma HeldStep(config: Config, w: World, e: Event, until: int)
    requires Held(w, until) && Enabled(config, w, e)
    ensures Held(Next(config, w, e), until)
  {
    hide DropAll, Drain, SettleEach, SerializeAll;
  }

  lemma {:induction false} HeldRun(config: Config, w: World, later: seq<Event>, until: int)
    requires Held(w, until) && Run(config, w, later).Some?
    ensures Held(Run(config, w, later).value, until)
    decreases |later|
  {
    if later != [] {
      hide Next, Enabled, Held;
      HeldStep(config, w, later[0], until);
      HeldRun(config, Next(config, w, later[0]), later[1..], until);
    }
  }

  lemma HeldMeans(config: Config, u: World, until: int)
    requires Held(u, until)
    ensures u.now < until ==> !Enabled(config, u, StartConnect) && u.client.socket == NoSocket
  {
  }
}
