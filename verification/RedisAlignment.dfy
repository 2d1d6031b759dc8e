/** Replies reach the commands they answer, across resets and reconnects, exactly when the command timeout
    is shorter than the reconnect backoff. */
module RedisAlignment {
  import opened Wrappers
  import opened Resp
  import opened RedisConnection
  import opened RedisRuns

  /** A settlement with a server's outcome carries the reply to that very command. */
  predicate HonestOne(replies: seq<Reply>, s: Settlement) {
    match s
    case Resolved(c, v) => c < |replies| && Meaning(replies[c]) == Good(v)
    case Rejected(c, ReplyError(e)) => c < |replies| && Meaning(replies[c]) == Bad(e)
    case _ => true
  }

  predicate Honest(replies: seq<Reply>, settled: seq<Settlement>) {
    forall i :: 0 <= i < |settled| ==> HonestOne(replies, settled[i])
  }

  function Commands(pending: seq<Pending>): seq<nat> {
    seq(|pending|, i requires 0 <= i < |pending| => pending[i].command)
  }

  /** With no connection, every command still waiting will have timed out before the backoff ends. */
  ghost predicate StaleExpire(c: Client) {
    c.socket == NoSocket ==>
      !c.initialized && !c.connecting && c.buffer == [] &&
      forall i :: 0 <= i < |c.pending| ==> c.pending[i].deadline < c.unhealthyUntil
  }

  ghost predicate WireKnown(config: Config, w: World) {
    |w.sentAt| <= |config.replies| && forall i :: 0 <= i < |w.wire| ==> w.wire[i] < |w.sentAt|
  }

  /** The replies `b` to `e`, written on one connection, are read as themselves as far as they are read. */
  ghost predicate ReadAsWritten(replies: seq<Reply>, b: nat, e: nat)
    requires b <= e <= |replies|
  {
    var d := Drain(SerializeAll(replies[b..e]), e - b);
    d.outcomes == Meanings(replies[b..b + |d.outcomes|])
  }

  /** Whatever consecutive replies a connection carries, they are read as themselves. */
  ghost predicate Separable(replies: seq<Reply>) {
    forall b: nat, e: nat :: b <= e <= |replies| ==> ReadAsWritten(replies, b, e)
  }

  /** On an open connection the waiting commands are the last ones written, the commands written are the last ones
      issued, and the bytes received are those of the settled commands followed by the buffer. */
  ghost predicate InStep(config: Config, w: World)
    requires WireKnown(config, w)
  {
    var c := w.client;
    c.socket == Open ==>
      (c.connecting || c.initialized) && |c.pending| <= |w.wire| <= |w.sentAt| &&
      (forall i :: 0 <= i < |w.wire| ==> w.wire[i] == |w.sentAt| - |w.wire| + i) &&
      var k := |w.wire| - |c.pending|;
      Commands(c.pending) == w.wire[k..] &&
      |Drain(w.received, k).outcomes| == k && Drain(w.received, k).rest == c.buffer
  }

  ghost predicate Aligned(config: Config, w: World) {
    && Accounted(config.timeout, w)
    && Honest(config.replies, w.settled)
    && WireKnown(config, w)
    && StaleExpire(w.client)
    && (w.client.socket == Destroyed ==> w.client.connecting && !w.client.initialized)
    && InStep(config, w)
  }

  /** Draining for `k` commands and then for `p` more is draining for all of them. */
  lemma {:induction false} DrainSplit(buffer: seq<Byte>, k: nat, p: nat)
    requires |Drain(buffer, k).outcomes| == k
    ensures var first := Drain(buffer, k);
            var second := Drain(first.rest, p);
            Drain(buffer, k + p) == Drained(first.outcomes + second.outcomes, second.rest)
    decreases k
  {
    hide ParseResp, Drain;
    if k == 0 {
      DrainNothing(buffer, 0);
      var second := Drain(buffer, p);
      assert [] + second.outcomes == second.outcomes;
    } else if ParseResp(buffer, 0).None? {
      DrainNothing(buffer, k);
    } else {
      var Parsed(value, next) := ParseResp(buffer, 0).value;
      DrainFirst(buffer, k);
      DrainFirst(buffer, k + p);
      DrainSplit(buffer[next..], k - 1, p);
      var tail := Drain(buffer[next..], k - 1);
      var second := Drain(tail.rest, p);
      assert [value] + (tail.outcomes + second.outcomes) == [value] + tail.outcomes + second.outcomes;
    }
  }

  /** Draining for as many commands as can be settled is draining for all that wait. */
  lemma {:induction false} DrainExact(buffer: seq<Byte>, p: nat)
    ensures Drain(buffer, |Drain(buffer, p).outcomes|) == Drain(buffer, p)
    decreases p
  {
    hide ParseResp, Drain;
    if p == 0 || ParseResp(buffer, 0).None? {
      DrainNothing(buffer, p);
      DrainNothing(buffer, 0);
    } else {
      var Parsed(value, next) := ParseResp(buffer, 0).value;
      DrainFirst(buffer, p);
      DrainExact(buffer[next..], p - 1);
      DrainFirst(buffer, |Drain(buffer[next..], p - 1).outcomes| + 1);
    }
  }

  /** What a chunk does to the bytes received so far. */
  lemma DrainOnward(received: seq<Byte>, chunk: seq<Byte>, k: nat, p: nat)
    requires |Drain(received, k).outcomes| == k
    ensures var before := Drain(received, k);
            var d := Drain(before.rest + chunk, p);
            Drain(received + chunk, k + p) == Drained(before.outcomes + d.outcomes, d.rest)
  {
    var before := Drain(received, k);
    DrainStable(received, chunk, k);
    DrainNothing(before.rest + chunk, 0);
    hide Drain;
    assert before.outcomes + [] == before.outcomes;
    DrainSplit(received + chunk, k, p);
  }

  /** More bytes only add outcomes. */
  lemma DrainPrefix(received: seq<Byte>, stream: seq<Byte>, n: nat)
    requires received <= stream
    ensures Drain(received, n).outcomes <= Drain(stream, n).outcomes
  {
    var more := stream[|received|..];
    assert received + more == stream;
    DrainStable(received, more, n);
    hide Drain;
  }

  lemma WireReplies(config: Config, w: World)
    requires WireKnown(config, w) && InStep(config, w) && w.client.socket == Open
    ensures var b, e := |w.sentAt| - |w.wire|, |w.sentAt|;
            0 <= b <= e <= |config.replies| && RepliesTo(config, w.wire) == config.replies[b..e]
  {
    hide Drain;
  }

  /** The outcomes a chunk adds are those of the replies to the first waiting commands. */
  lemma DeliverInStep(replies: seq<Reply>, b: nat, e: nat, received: seq<Byte>, chunk: seq<Byte>, k: nat)
    requires b <= e <= |replies| && k <= e - b && ReadAsWritten(replies, b, e)
    requires received + chunk <= SerializeAll(replies[b..e])
    requires |Drain(received, k).outcomes| == k
    ensures var d := Drain(Drain(received, k).rest + chunk, e - b - k);
            var m := |d.outcomes|;
            && d.outcomes == Meanings(replies[b + k..e][..m])
            && |Drain(received + chunk, k + m).outcomes| == k + m && Drain(received + chunk, k + m).rest == d.rest
  {
    hide *;
    var before, p := Drain(received, k), e - b - k;
    var d := Drain(before.rest + chunk, p);
    var m := |d.outcomes|;
    DrainOnward(received, chunk, k, p);
    DrainPrefix(received + chunk, SerializeAll(replies[b..e]), e - b);
    AsWritten(replies, b, e);
    DrainExact(before.rest + chunk, p);
    DrainOnward(received, chunk, k, m);
    var all := Drain(SerializeAll(replies[b..e]), e - b).outcomes;
    forall i | 0 <= i < m ensures d.outcomes[i] == Meaning(replies[b + k..e][..m][i]) {
      assert (before.outcomes + d.outcomes)[k + i] == all[k + i];
      MeaningsAt(replies[b..b + |all|], k + i);
    }
    MeaningsAre(replies[b + k..e][..m], d.outcomes);
  }

  lemma AsWritten(replies: seq<Reply>, b: nat, e: nat)
    requires b <= e <= |replies| && ReadAsWritten(replies, b, e)
    ensures var all := Drain(SerializeAll(replies[b..e]), e - b).outcomes;
            |all| <= e - b && all == Meanings(replies[b..b + |all|])
  {
  }

  lemma MeaningsAt(replies: seq<Reply>, i: nat)
    requires i < |replies|
    ensures |Meanings(replies)| == |replies| && Meanings(replies)[i] == Meaning(replies[i])
  {
  }

  lemma MeaningsAre(replies: seq<Reply>, outcomes: seq<Outcome>)
    requires |outcomes| == |replies| && forall i :: 0 <= i < |replies| ==> outcomes[i] == Meaning(replies[i])
    ensures outcomes == Meanings(replies)
  {
  }

  lemma DataAligned(config: Config, w: World, chunk: seq<Byte>)
    requires Separable(config.replies) && Aligned(config, w) && Enabled(config, w, Data(chunk))
    ensures var v := Next(config, w, Data(chunk));
            Honest(config.replies, v.settled) && InStep(config, v)
  {
    hide Accounted, Meaning, SerializeAll, Drain, WellFormed, ErrorOnlyLast, ReadAsWritten;
    var c := w.client;
    var k, b, e := |w.wire| - |c.pending|, |w.sentAt| - |w.wire|, |w.sentAt|;
    WireReplies(config, w);
    assert ReadAsWritten(config.replies, b, e);
    DeliverInStep(config.replies, b, e, w.received, chunk, k);
    var m := |Drain(c.buffer + chunk, |c.pending|).outcomes|;
    assert RepliesTo(config, w.wire[k..]) == config.replies[b + k..e];
    assert Commands(c.pending[m..]) == w.wire[k + m..];
    DeliverHonest(config, c, chunk, w.wire[k..]);
  }

  lemma DeliverHonest(config: Config, c: Client, chunk: seq<Byte>, commands: seq<nat>)
    requires Commands(c.pending) == commands
    requires forall i :: 0 <= i < |commands| ==> commands[i] < |config.replies|
    requires var d := Drain(c.buffer + chunk, |c.pending|);
             d.outcomes == Meanings(RepliesTo(config, commands)[..|d.outcomes|])
    ensures Honest(config.replies, Deliver(c, chunk).settled)
  {
    hide Meaning, Drain;
    var settled := Deliver(c, chunk).settled;
    forall i | 0 <= i < |settled| ensures HonestOne(config.replies, settled[i]) {
      assert Commands(c.pending)[i] == commands[i];
    }
  }

  lemma NotAllExpired(pending: seq<Pending>, until: int, now: int)
    requires until <= now && forall i :: 0 <= i < |pending| ==> now <= pending[i].deadline
    ensures |pending| > 0 ==> exists i :: 0 <= i < |pending| && pending[i].deadline >= until
  {
    if |pending| > 0 {
      assert pending[0].deadline >= until;
    }
  }

  lemma ConnectAligned(config: Config, w: World)
    requires Aligned(config, w) && Enabled(config, w, StartConnect)
    ensures w.client.pending == [] && InStep(config, Next(config, w, StartConnect))
  {
    hide Times;
    var c := w.client;
    assert c.socket == NoSocket;
    NotAllExpired(c.pending, c.unhealthyUntil, w.now);
  }

  lemma IssueAligned(config: Config, w: World)
    requires Aligned(config, w) && Enabled(config, w, Issue)
    ensures var v := Next(config, w, Issue);
            Honest(config.replies, v.settled) && WireKnown(config, v) && InStep(config, v)
  {
    hide Accounted, SerializeAll, Drain;
    var c, v := w.client, Next(config, w, Issue);
    if c.socket == Open {
      var k := |w.wire| - |c.pending|;
      assert v.wire[..k] == w.wire[..k];
      assert v.wire[k..] == w.wire[k..] + [|w.sentAt|];
      assert Commands(v.client.pending) == Commands(c.pending) + [|w.sentAt|];
    }
  }

  lemma {:induction false} DropAllHonest(c: Client, commands: seq<nat>, replies: seq<Reply>)
    ensures Honest(replies, DropAll(c, commands).settled)
    decreases |commands|
  {
    if commands != [] {
      DropAllHonest(Drop(c, commands[0], WriteFailed).client, commands[1..], replies);
    }
  }

  /** The timer of one command resets the connection; the others expire within one timeout from now. */
  lemma FireAligned(config: Config, w: World, command: nat)
    requires config.timeout < BACKOFF_MS && Aligned(config, w) && Enabled(config, w, Fire(command))
    ensures StaleExpire(Next(config, w, Fire(command)).client)
  {
    hide Times;
    var c := w.client;
    var p, q := c.pending, Drop(c, command, TimedOut).client.pending;
    forall i | 0 <= i < |q| ensures q[i].deadline < w.now + BACKOFF_MS {
      assert q[i] in p;
    }
  }

  lemma StepAligned(config: Config, w: World, e: Event)
    requires config.timeout < BACKOFF_MS && Separable(config.replies)
    requires Aligned(config, w) && Enabled(config, w, e)
    ensures Aligned(config, Next(config, w, e))
  {
    hide Accounted;
    StepAccounted(config, w, e);
    if e.Tick? || e.StartConnect? || e.Handshake? || e.Issue? || e.Data? {
      WorkingStepAligned(config, w, e);
    } else {
      FailingStepAligned(config, w, e);
    }
  }

  lemma WorkingStepAligned(config: Config, w: World, e: Event)
    requires e.Tick? || e.StartConnect? || e.Handshake? || e.Issue? || e.Data?
    requires Separable(config.replies) && Aligned(config, w) && Enabled(config, w, e)
    requires Accounted(config.timeout, Next(config, w, e))
    ensures Aligned(config, Next(config, w, e))
  {
    hide Accounted, Meaning, SerializeAll, Drain, Separable;
    match e
    case Tick(_) =>
    case StartConnect => ConnectAligned(config, w);
    case Handshake =>
    case Issue => IssueAligned(config, w);
    case Data(chunk) => DataAligned(config, w, chunk);
  }

  lemma FailingStepAligned(config: Config, w: World, e: Event)
    requires !(e.Tick? || e.StartConnect? || e.Handshake? || e.Issue? || e.Data?)
    requires config.timeout < BACKOFF_MS && Aligned(config, w) && Enabled(config, w, e)
    requires Accounted(config.timeout, Next(config, w, e))
    ensures Aligned(config, Next(config, w, e))
  {
    hide Accounted, Meaning, SerializeAll, Drain, Separable, IndexOf;
    var c := w.client;
    var until := w.now + BACKOFF_MS;
    match e
    case Fire(command) => FireAligned(config, w, command);
    case WriteErrors(commands) =>
      DropAllHonest(c, commands, config.replies);
      ResetAligned(config, After(w, DropAll(c, commands)), until);
    case LateWriteError(command) => LateDropStale(c, command);
    case ErrorEvent => ResetAligned(config, w, until);
    case CloseEvent => ResetAligned(config, w, c.unhealthyUntil);
    case Shutdown => ResetAligned(config, w, c.unhealthyUntil);
  }

  /** A reset with an error rejects everything that waits and leaves nothing behind. */
  lemma ResetAligned(config: Config, w: World, until: int)
    requires Honest(config.replies, w.settled)
    ensures var effect := ResetWith(w.client.(unhealthyUntil := until));
            Honest(config.replies, w.settled + effect.settled) && StaleExpire(effect.client)
  {
    hide Meaning;
  }

  lemma LateDropStale(c: Client, command: nat)
    requires StaleExpire(c)
    ensures StaleExpire(Drop(c, command, WriteFailed).client)
  {
    var p, q := c.pending, Drop(c, command, WriteFailed).client.pending;
    assert forall i :: 0 <= i < |q| ==> q[i] in p;
  }

  lemma {:induction false} RunAligned(config: Config, w: World, events: seq<Event>)
    requires config.timeout < BACKOFF_MS && Separable(config.replies)
    requires Aligned(config, w) && Run(config, w, events).Some?
    ensures Aligned(config, Run(config, w, events).value)
    decreases |events|
  {
    if events != [] {
      StepAligned(config, w, events[0]);
      RunAligned(config, Next(config, w, events[0]), events[1..]);
    }
  }

  lemma InitiallyAligned(config: Config, start: int)
    ensures Aligned(config, Initial(start))
  {
    hide Accounted;
    InitiallyAccounted(config.timeout, start);
  }

  lemma ReadableAsWritten(segment: seq<Reply>)
    requires Readable(segment)
    ensures var d := Drain(SerializeAll(segment), |segment|); d.outcomes == Meanings(segment[..|d.outcomes|])
  {
    hide *;
    DrainReplies(SerializeAll(segment), segment);
  }

  /** Replies whose arrays hold no error before their last element are read as themselves. */
  lemma ReadableSeparable(replies: seq<Reply>)
    requires Readable(replies)
    ensures Separable(replies)
  {
    hide Drain, SerializeAll, WellFormed, ErrorOnlyLast, Meanings;
    forall b: nat, e: nat | b <= e <= |replies| ensures ReadAsWritten(replies, b, e) {
      var segment := replies[b..e];
      ReadableAsWritten(segment);
      var m := |Drain(SerializeAll(segment), e - b).outcomes|;
      assert segment[..m] == replies[b..b + m];
    }
  }

  // ---------- which replies keep every run honest ----------

  /** In every run with these replies every settlement carries the reply to its own command. */
  ghost predicate HonestWith(timeout: nat, replies: seq<Reply>) {
    forall start: int, events: seq<Event> :: HonestRun(timeout, replies, start, events)
  }

  ghost predicate HonestRun(timeout: nat, replies: seq<Reply>, start: int, events: seq<Event>) {
    var end := Run(Config(timeout, replies), Initial(start), events);
    end.Some? ==> Honest(replies, end.value.settled)
  }

  lemma RunOne(config: Config, w: World, e: Event, v: World, others: seq<Event>)
    requires Enabled(config, w, e) && Next(config, w, e) == v
    ensures Run(config, w, [e] + others) == Run(config, v, others)
  {
    hide Enabled, Next;
    assert ([e] + others)[1..] == others;
  }

  function Issues(n: nat): seq<Event> {
    if n == 0 then [] else [Issue] + Issues(n - 1)
  }

  function Zeros(n: nat): seq<int> {
    seq(n, _ => 0)
  }

  /** `b` commands were issued without a connection. */
  function Unsent(b: nat): World {
    World(Client(NoSocket, [], [], false, false, 0), 0, Zeros(b), [], [],
          seq(b, i requires 0 <= i < b => Rejected(i, NotAvailable)))
  }

  /** On the connection made then, `n` more wait. */
  function Sent(timeout: nat, b: nat, n: nat): World {
    World(Client(Open, [], seq(n, i requires 0 <= i < n => Pending(b + i, timeout)), true, false, 0), 0, Zeros(b + n),
          seq(n, i requires 0 <= i < n => b + i), [], Unsent(b).settled)
  }

  lemma {:induction false} IssueUnsent(config: Config, i: nat, n: nat, others: seq<Event>)
    requires i + n <= |config.replies|
    ensures Run(config, Unsent(i), Issues(n) + others) == Run(config, Unsent(i + n), others)
    decreases n
  {
    hide Drain, SerializeAll, Run;
    if n == 0 {
      assert Issues(0) + others == others;
    } else {
      assert Issues(n) + others == [Issue] + (Issues(n - 1) + others);
      assert Next(config, Unsent(i), Issue) == Unsent(i + 1);
      RunOne(config, Unsent(i), Issue, Unsent(i + 1), Issues(n - 1) + others);
      IssueUnsent(config, i + 1, n - 1, others);
    }
  }

  lemma {:induction false} IssueSent(config: Config, b: nat, i: nat, n: nat, others: seq<Event>)
    requires b + i + n <= |config.replies|
    ensures Run(config, Sent(config.timeout, b, i), Issues(n) + others) ==
            Run(config, Sent(config.timeout, b, i + n), others)
    decreases n
  {
    hide Drain, SerializeAll, Run;
    if n == 0 {
      assert Issues(0) + others == others;
    } else {
      assert Issues(n) + others == [Issue] + (Issues(n - 1) + others);
      assert Next(config, Sent(config.timeout, b, i), Issue) == Sent(config.timeout, b, i + 1);
      RunOne(config, Sent(config.timeout, b, i), Issue, Sent(config.timeout, b, i + 1), Issues(n - 1) + others);
      IssueSent(config, b, i + 1, n - 1, others);
    }
  }

  /** Connecting between the two. */
  lemma ConnectSent(config: Config, b: nat, others: seq<Event>)
    ensures Run(config, Unsent(b), [StartConnect] + ([Handshake] + others)) ==
            Run(config, Sent(config.timeout, b, 0), others)
  {
    hide Drain, SerializeAll, Run;
    var w := Unsent(b);
    var v := w.(client := Connect(w.client));
    RunOne(config, w, StartConnect, v, [Handshake] + others);
    assert Next(config, v, Handshake) == Sent(config.timeout, b, 0);
    RunOne(config, v, Handshake, Sent(config.timeout, b, 0), others);
  }

  function AllAtOnce(replies: seq<Reply>, b: nat, e: nat): seq<Event>
    requires b <= e <= |replies|
  {
    Issues(b) + ([StartConnect] + ([Handshake] + (Issues(e - b) + ([Data(SerializeAll(replies[b..e]))] + []))))
  }

  /** The run in which the replies `b` to `e` arrive at once. */
  lemma AllArrive(timeout: nat, replies: seq<Reply>, b: nat, e: nat)
    requires b <= e <= |replies|
    ensures var w := Sent(timeout, b, e - b);
            var d := Drain(SerializeAll(replies[b..e]), e - b);
            var end := Run(Config(timeout, replies), Initial(0), AllAtOnce(replies, b, e));
            end.Some? && |d.outcomes| <= |w.client.pending| &&
            end.value.settled == w.settled + SettleEach(w.client.pending, d.outcomes)
  {
    hide Drain, SerializeAll, Run, Issues;
    var config, stream := Config(timeout, replies), SerializeAll(replies[b..e]);
    var w := Sent(timeout, b, e - b);
    var last := [Data(stream)] + [];
    assert Initial(0) == Unsent(0);
    IssueUnsent(config, 0, b, [StartConnect] + ([Handshake] + (Issues(e - b) + last)));
    ConnectSent(config, b, Issues(e - b) + last);
    IssueSent(config, b, 0, e - b, last);
    assert RepliesTo(config, w.wire) == replies[b..e];
    assert [] + stream == stream;
    var end := Next(config, w, Data(stream));
    RunOne(config, w, Data(stream), end, []);
    assert Run(config, end, []) == Some(end) by { RunNone(config, end); }
  }

  lemma RunNone(config: Config, w: World)
    ensures Run(config, w, []) == Some(w)
  {
  }

  lemma MisreadDishonest(timeout: nat, replies: seq<Reply>, b: nat, e: nat)
    requires b <= e <= |replies| && !ReadAsWritten(replies, b, e)
    ensures !HonestWith(timeout, replies)
  {
    hide Drain, SerializeAll, Run, Meaning, AllAtOnce;
    AllArrive(timeout, replies, b, e);
    var w := Sent(timeout, b, e - b);
    var outcomes := Drain(SerializeAll(replies[b..e]), e - b).outcomes;
    var end := Run(Config(timeout, replies), Initial(0), AllAtOnce(replies, b, e)).value;
    var i :| 0 <= i < |outcomes| && outcomes[i] != Meaning(replies[b + i]);
    assert end.settled[b + i] == Settle(b + i, outcomes[i]);
    assert !HonestOne(replies, end.settled[b + i]);
    assert !HonestRun(timeout, replies, 0, AllAtOnce(replies, b, e));
  }

  /** Below the backoff every run with these replies is honest if and only if any consecutive ones, written one after
      the other, are read as themselves. */
  lemma HonestRunsIff(timeout: nat, replies: seq<Reply>)
    requires timeout < BACKOFF_MS
    ensures HonestWith(timeout, replies) <==> Separable(replies)
  {
    hide Run, Accounted, ReadAsWritten, Honest;
    if Separable(replies) {
      forall start: int, events: seq<Event> ensures HonestRun(timeout, replies, start, events) {
        var config := Config(timeout, replies);
        if Run(config, Initial(start), events).Some? {
          InitiallyAligned(config, start);
          RunAligned(config, Initial(start), events);
        }
      }
    } else {
      var b: nat, e: nat :| b <= e <= |replies| && !ReadAsWritten(replies, b, e);
      MisreadDishonest(timeout, replies, b, e);
    }
  }

  /** A reply with an error inside an array misleads some next command, and no other reply does. */
  lemma ReplySafeIff(reply: Reply)
    requires WellFormed(reply)
    ensures (forall next :: WellFormed(next) && ErrorOnlyLast(next) ==> Separable([reply, next])) <==>
            ErrorOnlyLast(reply)
  {
    if ErrorOnlyLast(reply) {
      forall next | WellFormed(next) && ErrorOnlyLast(next) ensures Separable([reply, next]) {
        hide WellFormed, ErrorOnlyLast;
        ReadableSeparable([reply, next]);
      }
    } else {
      hide WellFormed, ErrorOnlyLast, Separable;
      var next := MisledBy(reply);
    }
  }

  lemma DrainLeftOver(reply: Reply, left: seq<Reply>, after: seq<Byte>)
    requires WellFormed(reply) && left != [] && WellFormed(left[0]) && Consumed(reply) <= |Serialize(reply)|
    requires Serialize(reply)[Consumed(reply)..] == SerializeAll(left)
    ensures Drain(Serialize(reply) + after, 2).outcomes == [Meaning(reply), Meaning(left[0])]
  {
    hide *;
    var buffer := Serialize(reply) + after;
    ParseFront(reply, after);
    SliceOf(Serialize(reply), after, Consumed(reply));
    var rest := buffer[Consumed(reply)..];
    SerializeCons(left);
    var more := SerializeAll(left[1..]) + after;
    assert rest == Serialize(left[0]) + more;
    ParseFront(left[0], more);
    DrainFirst(buffer, 2);
    DrainFirst(rest, 1);
    DrainNothing(rest[Consumed(left[0])..], 0);
    assert [Meaning(reply)] + ([Meaning(left[0])] + []) == [Meaning(reply), Meaning(left[0])];
  }

  lemma NotAsWritten(reply: Reply, next: Reply, other: Outcome)
    requires Drain(SerializeAll([reply, next]), 2).outcomes == [Meaning(reply), other] && other != Meaning(next)
    ensures !Separable([reply, next])
  {
    hide Drain, SerializeAll, Meaning;
    var replies := [reply, next];
    assert replies[0..2] == replies;
    assert Meanings(replies[0..2])[1] == Meaning(next);
    assert !ReadAsWritten(replies, 0, 2);
  }

  lemma MisledBy(reply: Reply) returns (next: Reply)
    requires WellFormed(reply) && !ErrorOnlyLast(reply)
    ensures WellFormed(next) && ErrorOnlyLast(next) && !Separable([reply, next])
  {
    var left := LeftOver(reply);
    ConsumedWhole(reply);
    next := if Meaning(left[0]) == Good(Str([1])) then Simple([2]) else Simple([1]);
    var bytes := SerializeAll([reply, next]);
    assert [reply, next][1..] == [next] && [next][1..] == [];
    assert SerializeAll([next]) == Serialize(next) by {
      hide Serialize;
      assert SerializeAll([]) == [];
    }
    assert bytes == Serialize(reply) + Serialize(next);
    DrainLeftOver(reply, left, Serialize(next));
    hide *;
    NotAsWritten(reply, next, Meaning(left[0]));
  }

  // ---------- the bound is exact ----------

  /** In every run, with any readable replies, every settlement carries the reply to its own command. */
  ghost predicate AlwaysHonest(timeout: nat) {
    forall replies: seq<Reply>, start: int, events: seq<Event> ::
      Readable(replies) && Run(Config(timeout, replies), Initial(start), events).Some? ==>
      Honest(replies, Run(Config(timeout, replies), Initial(start), events).value.settled)
  }

  // The run that breaks alignment: command 1 is issued at the instant command 0 times out.
  function Late(timeout: nat): Config {
    Config(timeout, [Simple([1]), Simple([2]), Simple([3])])
  }

  function BothWaiting(timeout: nat): World {
    World(Client(Open, [], [Pending(0, timeout), Pending(1, timeout + timeout)], true, false, 0), timeout,
          [0, timeout], [0, 1], [], [])
  }

  function Reconnected(timeout: nat): World {
    var t := timeout + BACKOFF_MS;
    World(Client(Open, [], [Pending(1, timeout + timeout), Pending(2, t + timeout)], false, true, t), t,
          [0, timeout, t], [2], [], [Rejected(0, TimedOut)])
  }

  lemma UntilBothWait(timeout: nat, others: seq<Event>)
    requires timeout >= BACKOFF_MS
    ensures Run(Late(timeout), Initial(0),
              [StartConnect] + ([Handshake] + ([Issue] + ([Tick(timeout)] + ([Issue] + others)))))
         == Run(Late(timeout), BothWaiting(timeout), others)
  {
    hide Drain, Serialize, SerializeAll, Run;
    var config, w0 := Late(timeout), Initial(0);
    var w1 := w0.(client := Client(Open, [], [], false, true, 0));
    var w2 := w0.(client := Client(Open, [], [], true, false, 0));
    var w3 := w2.(client := w2.client.(pending := [Pending(0, timeout)]), sentAt := [0], wire := [0]);
    var w4 := w3.(now := timeout);
    RunOne(config, w0, StartConnect, w1, [Handshake] + ([Issue] + ([Tick(timeout)] + ([Issue] + others))));
    RunOne(config, w1, Handshake, w2, [Issue] + ([Tick(timeout)] + ([Issue] + others)));
    RunOne(config, w2, Issue, w3, [Tick(timeout)] + ([Issue] + others));
    RunOne(config, w3, Tick(timeout), w4, [Issue] + others);
    RunOne(config, w4, Issue, BothWaiting(timeout), others);
  }

  lemma UntilReconnected(timeout: nat, others: seq<Event>)
    requires timeout >= BACKOFF_MS
    ensures Run(Late(timeout), BothWaiting(timeout),
              [Fire(0)] + ([Tick(timeout + BACKOFF_MS)] + ([StartConnect] + ([Issue] + others))))
         == Run(Late(timeout), Reconnected(timeout), others)
  {
    hide Drain, Serialize, SerializeAll, Run;
    var config, w5, t := Late(timeout), BothWaiting(timeout), timeout + BACKOFF_MS;
    var w6 := World(Client(NoSocket, [], [Pending(1, timeout + timeout)], false, false, t), timeout,
                    [0, timeout], [0, 1], [], [Rejected(0, TimedOut)]);
    var w7 := w6.(now := t);
    var w8 := w7.(client := Connect(w7.client), wire := []);
    var p := w5.client.pending;
    assert IndexOf(p, 0) == 0 && p[..0] + p[1..] == [Pending(1, timeout + timeout)];
    RunOne(config, w5, Fire(0), w6, [Tick(t)] + ([StartConnect] + ([Issue] + others)));
    RunOne(config, w6, Tick(t), w7, [StartConnect] + ([Issue] + others));
    RunOne(config, w7, StartConnect, w8, [Issue] + others);
    RunOne(config, w8, Issue, Reconnected(timeout), others);
  }

  /** The third reply arrives while command 1 is first in the list. */
  lemma ThirdReplyArrives(timeout: nat)
    ensures var config := Late(timeout);
            var data := Data(Serialize(config.replies[2]));
            Enabled(config, Reconnected(timeout), data) &&
            Next(config, Reconnected(timeout), data).settled == [Rejected(0, TimedOut), Resolved(1, Str([3]))]
  {
    var config, w := Late(timeout), Reconnected(timeout);
    var reply := config.replies[2];
    var bytes := Serialize(reply);
    assert RepliesTo(config, w.wire) == [reply];
    assert SerializeAll([reply]) == bytes by {
      hide Serialize;
      assert [reply][1..] == [];
    }
    DrainOneReply(bytes, reply);
  }

  lemma DrainOneReply(bytes: seq<Byte>, reply: Reply)
    requires reply.Simple? && WellFormed(reply) && bytes == Serialize(reply)
    ensures Drain([] + bytes, 2) == Drained([Meaning(reply)], [])
  {
    hide ParseResp, Serialize;
    ParseSerialized([] + bytes, 0, reply);
    DrainFirst([] + bytes, 2);
    assert ([] + bytes)[|bytes|..] == [];
    DrainNothing([], 1);
  }

  lemma TwoMeans(timeout: nat)
    ensures Meaning(Late(timeout).replies[1]) == Good(Str([2]))
  {
  }

  /** With a timeout of the backoff or more: command 1 outlives the reset that command 0's timer makes, and
      receives the reply to command 2 on the next connection. */
  lemma LateReplyMisdelivered(timeout: nat)
    requires timeout >= BACKOFF_MS
    ensures !AlwaysHonest(timeout)
  {
    hide Drain, Serialize, SerializeAll, Enabled, Next;
    var config := Late(timeout);
    var data := Data(Serialize(config.replies[2]));
    var last := [data] + [];
    var middle := [Fire(0)] + ([Tick(timeout + BACKOFF_MS)] + ([StartConnect] + ([Issue] + last)));
    var events := [StartConnect] + ([Handshake] + ([Issue] + ([Tick(timeout)] + ([Issue] + middle))));
    UntilBothWait(timeout, middle);
    UntilReconnected(timeout, last);
    ThirdReplyArrives(timeout);
    var end := Next(config, Reconnected(timeout), data);
    RunOne(config, Reconnected(timeout), data, end, []);
    RunNone(config, end);
    assert Run(config, Initial(0), events) == Some(end);
    hide Run, RepliesTo, Meaning, BothWaiting, Reconnected;
    assert Meaning(config.replies[1]) == Good(Str([2])) by { TwoMeans(timeout); }
    assert !HonestOne(config.replies, end.settled[1]);
  }

  /** Replies reach their own commands in every run if and only if the timeout is below the backoff. */
  lemma AlignedIffTimeoutBelowBackoff(timeout: nat)
    ensures AlwaysHonest(timeout) <==> timeout < BACKOFF_MS
  {
    if timeout < BACKOFF_MS {
      forall replies: seq<Reply>, start: int, events: seq<Event> |
        Readable(replies) && Run(Config(timeout, replies), Initial(start), events).Some?
        ensures Honest(replies, Run(Config(timeout, replies), Initial(start), events).value.settled)
      {
        hide Run, Accounted;
        var config := Config(timeout, replies);
        ReadableSeparable(replies);
        InitiallyAligned(config, start);
        RunAligned(config, Initial(start), events);
      }
    } else {
      LateReplyMisdelivered(timeout);
    }
  }
}
