/** The pipelined Redis connection: a first-in first-out list of waiting commands, command timers,
    resets and the reconnect backoff.

    The first half gives each callback of the connection as a function on the client's fields, and the
    class with those fields, whose methods are proved to compute these functions.  The second half runs the
    client against a server that answers the commands written on a connection in order, and against a clock
    that never passes an armed timer. */
module RedisConnection {
  import opened Resp

  const BACKOFF_MS := 5000

  datatype SocketState = NoSocket | Open | Destroyed

  /** A waiting command and the instant its timer fires. */
  datatype Pending = Pending(command: nat, deadline: int)

  datatype Reason = ReplyError(error: RespError) | NotAvailable | TimedOut | WriteFailed | Failed

  /** A call of a command's `resolve` or `reject` that takes effect. */
  datatype Settlement = Resolved(command: nat, value: RedisValue) | Rejected(command: nat, reason: Reason)

  datatype Client = Client(
    socket: SocketState,
    buffer: seq<Byte>,
    pending: seq<Pending>,
    initialized: bool,
    connecting: bool,
    unhealthyUntil: int)

  /** The client after a callback, and the settlements the callback made. */
  datatype Effect = Effect(client: Client, settled: seq<Settlement>)

  // ---------- the callbacks as functions ----------

  function Reset(c: Client): Client {
    c.(initialized := false, connecting := false, socket := NoSocket, buffer := [])
  }

  function RejectEach(pending: seq<Pending>, reason: Reason): seq<Settlement> {
    seq(|pending|, i requires 0 <= i < |pending| => Rejected(pending[i].command, reason))
  }

  /** `reset(error)`. */
  function ResetWith(c: Client): Effect {
    Effect(Reset(c).(pending := []), RejectEach(c.pending, Failed))
  }

  function Settle(command: nat, outcome: Outcome): Settlement {
    match outcome
    case Good(v) => Resolved(command, v)
    case Bad(e) => Rejected(command, ReplyError(e))
  }

  function SettleEach(pending: seq<Pending>, outcomes: seq<Outcome>): seq<Settlement>
    requires |outcomes| <= |pending|
  {
    seq(|outcomes|, i requires 0 <= i < |outcomes| => Settle(pending[i].command, outcomes[i]))
  }

  lemma SettleOneMore(pending: seq<Pending>, done: seq<Outcome>, next: Outcome, later: seq<Outcome>)
    requires |done| < |pending|
    ensures done + ([next] + later) == done + [next] + later
    ensures SettleEach(pending, done + [next]) == SettleEach(pending, done) + [Settle(pending[|done|].command, next)]
  {
  }

  function Deliver(c: Client, chunk: seq<Byte>): Effect {
    var d := Drain(c.buffer + chunk, |c.pending|);
    Effect(c.(buffer := d.rest, pending := c.pending[|d.outcomes|..]), SettleEach(c.pending, d.outcomes))
  }

  function Send(c: Client, command: nat, deadline: int): Effect {
    if c.socket != Open then Effect(c, [Rejected(command, NotAvailable)])
    else Effect(c.(pending := c.pending + [Pending(command, deadline)]), [])
  }

  /** Where a command waits, or the length of the list: `findIndex`. */
  function IndexOf(pending: seq<Pending>, command: nat): (i: nat)
    ensures i <= |pending|
    ensures i < |pending| ==> pending[i].command == command
    ensures forall k :: 0 <= k < i ==> pending[k].command != command
  {
    if pending == [] || pending[0].command == command then 0 else 1 + IndexOf(pending[1..], command)
  }

  /** The command leaves the list and is rejected; a command that waits no longer is settled already,
      and rejecting it again has no effect. */
  function Drop(c: Client, command: nat, reason: Reason): Effect {
    var i := IndexOf(c.pending, command);
    if i == |c.pending| then Effect(c, [])
    else Effect(c.(pending := c.pending[..i] + c.pending[i + 1..]), [Rejected(command, reason)])
  }

  function Timeout(c: Client, command: nat, now: int): Effect {
    var dropped := Drop(c, command, TimedOut);
    Effect(Reset(dropped.client.(unhealthyUntil := now + BACKOFF_MS)), dropped.settled)
  }

  /** The socket's error handler, in the handshake and after it. */
  function SocketError(c: Client, now: int): Effect {
    ResetWith(c.(unhealthyUntil := now + BACKOFF_MS))
  }

  /** The close handler does nothing during the handshake. */
  function SocketClose(c: Client): Effect {
    if c.initialized then ResetWith(c) else Effect(c.(socket := Destroyed), [])
  }

  predicate MayConnect(c: Client, now: int) {
    !(c.initialized && c.socket == Open) && now >= c.unhealthyUntil && !c.connecting
  }

  function Connect(c: Client): Client {
    c.(socket := Open, connecting := true)
  }

  function HandshakeDone(c: Client): Client {
    c.(initialized := true, unhealthyUntil := 0, connecting := false)
  }

  // ---------- the class ----------

  class RedisConnection {
    var socket: SocketState
    var buffer: seq<Byte>
    var pending: seq<Pending>
    var initialized: bool
    var connectPromise: bool
    var unhealthyUntil: int
    /** Every promise callback that took effect, in order. */
    var settled: seq<Settlement>

    function State(): Client
      reads this
    {
      Client(socket, buffer, pending, initialized, connectPromise, unhealthyUntil)
    }

    constructor ()
      ensures State() == Client(NoSocket, [], [], false, false, 0) && settled == []
    {
      socket, buffer, pending, initialized, connectPromise, unhealthyUntil := NoSocket, [], [], false, false, 0;
      settled := [];
    }

    method RejectPending(reason: Reason)
      modifies this`pending, this`settled
      ensures pending == [] && settled == old(settled) + RejectEach(old(pending), reason)
      ensures |settled| == |old(settled)| + |old(pending)|
      ensures forall i :: 0 <= i < |old(pending)| ==>
                settled[|old(settled)| + i] == Rejected(old(pending)[i].command, reason)
    {
      var items := pending;
      pending := [];
      var i := 0;
      while i < |items|
        invariant 0 <= i <= |items| && pending == []
        invariant settled == old(settled) + RejectEach(items[..i], reason)
      {
        settled := settled + [Rejected(items[i].command, reason)];
        i := i + 1;
        assert items[..i][..i - 1] == items[..i - 1];
        assert RejectEach(items[..i], reason) ==
               RejectEach(items[..i - 1], reason) + [Rejected(items[i - 1].command, reason)];
      }
      assert items[..i] == items;
    }

    method ResetNow(withError: bool)
      modifies this
      ensures !withError ==> State() == Reset(old(State())) && settled == old(settled)
      ensures withError ==> State() == ResetWith(old(State())).client
      ensures withError ==> settled == old(settled) + ResetWith(old(State())).settled
    {
      initialized := false;
      connectPromise := false;
      socket := NoSocket;
      buffer := [];
      if withError {
        RejectPending(Failed);
      }
    }

    method OnData(chunk: seq<Byte>)
      modifies this`buffer, this`pending, this`settled
      ensures State() == Deliver(old(State()), chunk).client
      ensures settled == old(settled) + Deliver(old(State()), chunk).settled
    {
      hide Drain, ParseResp;
      ghost var c := State();
      ghost var whole := Drain(c.buffer + chunk, |c.pending|);
      buffer := buffer + chunk;
      ghost var done: seq<Outcome> := [];
      assert done + whole.outcomes == whole.outcomes;
      while |pending| > 0
        invariant |done| <= |c.pending| && pending == c.pending[|done|..]
        invariant Drain(buffer, |pending|).rest == whole.rest
                  && done + Drain(buffer, |pending|).outcomes == whole.outcomes
        invariant settled == old(settled) + SettleEach(c.pending, done)
        decreases |pending|
      {
        var parsed := Parse(buffer, 0);
        if parsed.None? {
          DrainNothing(buffer, |pending|);
          return;
        }
        DrainFirst(buffer, |pending|);
        buffer := buffer[parsed.value.next..];
        var request := pending[0];
        pending := pending[1..];
        settled := settled + [Settle(request.command, parsed.value.value)];
        SettleOneMore(c.pending, done, parsed.value.value, Drain(buffer, |pending|).outcomes);
        done := done + [parsed.value.value];
      }
      DrainNothing(buffer, 0);
    }

    method SendRaw(command: nat, deadline: int)
      modifies this`pending, this`settled
      ensures State() == Send(old(State()), command, deadline).client
      ensures settled == old(settled) + Send(old(State()), command, deadline).settled
      ensures old(socket) == Open ==>
                pending == old(pending) + [Pending(command, deadline)] && settled == old(settled)
      ensures old(socket) != Open ==>
                pending == old(pending) && settled == old(settled) + [Rejected(command, NotAvailable)]
    {
      if socket != Open {
        settled := settled + [Rejected(command, NotAvailable)];
        return;
      }
      pending := pending + [Pending(command, deadline)];
    }

    /** The write callback with an error, and the first half of the timer callback. */
    method RejectOne(command: nat, reason: Reason)
      modifies this`pending, this`settled
      ensures State() == Drop(old(State()), command, reason).client
      ensures settled == old(settled) + Drop(old(State()), command, reason).settled
    {
      var index := IndexOf(pending, command);
      if index < |pending| {
        pending := pending[..index] + pending[index + 1..];
        settled := settled + [Rejected(command, reason)];
      }
    }

    method OnTimeout(command: nat, now: int)
      modifies this
      ensures State() == Timeout(old(State()), command, now).client
      ensures settled == old(settled) + Timeout(old(State()), command, now).settled
      ensures socket == NoSocket && buffer == [] && !initialized && !connectPromise
      ensures unhealthyUntil == now + 5000
    {
      RejectOne(command, TimedOut);
      unhealthyUntil := now + BACKOFF_MS;
      ResetNow(false);
    }

    method OnSocketError(now: int)
      modifies this
      ensures State() == SocketError(old(State()), now).client
      ensures settled == old(settled) + SocketError(old(State()), now).settled
      ensures socket == NoSocket && buffer == [] && !initialized && !connectPromise
      ensures pending == [] && unhealthyUntil == now + 5000
      ensures |settled| == |old(settled)| + |old(pending)|
      ensures forall i :: 0 <= i < |old(pending)| ==>
                settled[|old(settled)| + i] == Rejected(old(pending)[i].command, Failed)
    {
      unhealthyUntil := now + BACKOFF_MS;
      ResetNow(true);
    }

    method OnSocketClose()
      modifies this
      ensures State() == SocketClose(old(State())).client
      ensures settled == old(settled) + SocketClose(old(State())).settled
      ensures socket != Open && unhealthyUntil == old(unhealthyUntil)
      ensures old(initialized) ==> pending == [] && |settled| == |old(settled)| + |old(pending)|
      ensures !old(initialized) ==> pending == old(pending) && settled == old(settled)
    {
      if initialized {
        ResetNow(true);
      } else {
        socket := Destroyed;
      }
    }

    /** True when a connection attempt starts; otherwise the caller uses the open connection, joins the
        attempt under way, or is refused during the backoff. */
    method ConnectNow(now: int) returns (started: bool)
      modifies this`socket, this`connectPromise
      ensures started == MayConnect(old(State()), now)
      ensures started <==> !(initialized && old(socket) == Open) && now >= unhealthyUntil && !old(connectPromise)
      ensures started ==> socket == Open && connectPromise
      ensures State() == if started then Connect(old(State())) else old(State())
    {
      if initialized && socket == Open {
        return false;
      }
      if now < unhealthyUntil {
        return false;
      }
      if connectPromise {
        return false;
      }
      socket := Open;
      connectPromise := true;
      return true;
    }

    method OnHandshakeDone()
      modifies this`initialized, this`unhealthyUntil, this`connectPromise
      ensures State() == HandshakeDone(old(State()))
      ensures initialized && !connectPromise && unhealthyUntil == 0
    {
      initialized := true;
      unhealthyUntil := 0;
      connectPromise := false;
    }
  }
}
