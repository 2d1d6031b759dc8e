/** The circuit breaker of outbound calls.  A call is two events, its beginning and its end, so the calls of
    one service interleave; times are milliseconds after the epoch. */
module Circuit {
  import opened Wrappers

  datatype CircuitState = CircuitState(failures: nat, openUntil: int, halfOpen: bool)

  const CLOSED := CircuitState(0, 0, false)

  /** A call's policy as given; nothing or 0 takes the default. */
  datatype Policy = Policy(failureThreshold: Option<int>, resetAfterMs: Option<int>, expectedStatuses: Option<seq<int>>)

  /** How a call ends: with a response, or by a time-out or network error. */
  datatype End = Response(status: int) | Threw

  function OrDefault(value: Option<int>, default: int): int {
    if value.None? || value.value == 0 then default else value.value
  }

  function Threshold(policy: Policy): (r: int)
    ensures r >= 2
  {
    Max(2, OrDefault(policy.failureThreshold, 5))
  }

  function ResetAfter(policy: Policy): (r: int)
    ensures r >= 5000
  {
    Max(5000, OrDefault(policy.resetAfterMs, 30000))
  }

  predicate Failed(policy: Policy, end: End) {
    match end
    case Threw => true
    case Response(status) =>
      if policy.expectedStatuses.Some? then status !in policy.expectedStatuses.value
      else status >= 500 || status == 429
  }

  // ---------- the two halves of a call as functions ----------

  predicate Refuses(state: CircuitState, now: int) {
    state.openUntil > now
  }

  function Begun(state: CircuitState, now: int): CircuitState {
    if !Refuses(state, now) && state.openUntil != 0 then state.(halfOpen := true) else state
  }

  function Ended(state: CircuitState, policy: Policy, end: End, now: int): CircuitState {
    if !Failed(policy, end) then CLOSED
    else
      var failures := state.failures + 1;
      if end.Response? then
        state.(failures := failures,
                openUntil := if failures >= Threshold(policy) then now + ResetAfter(policy) else state.openUntil)
      else
        CircuitState(failures,
                     if failures >= Threshold(policy) || state.halfOpen then now + ResetAfter(policy)
                       else state.openUntil,
                     false)
  }

  class Circuits {
    var circuits: map<string, CircuitState>

    constructor ()
      ensures circuits == map[]
    {
      circuits := map[];
    }

    function StateOf(service: string): CircuitState
      reads this
    {
      if service in circuits then circuits[service] else CLOSED
    }

    /** `stateFor`, and the code before the request is sent. */
    method Begin(service: string, now: int) returns (admitted: bool)
      modifies this
      ensures admitted == !Refuses(old(StateOf(service)), now)
      ensures circuits == old(circuits)[service := Begun(old(StateOf(service)), now)]
    {
      if service !in circuits {
        circuits := circuits[service := CLOSED];
      }
      var state := circuits[service];
      if state.openUntil > now {
        return false;
      }
      if state.openUntil != 0 && state.openUntil <= now {
        circuits := circuits[service := state.(halfOpen := true)];
      }
      return true;
    }

    /** The code after the request came back or threw. */
    method Finish(service: string, policy: Policy, end: End, now: int)
      requires service in circuits
      modifies this
      ensures circuits == old(circuits)[service := Ended(old(circuits)[service], policy, end, now)]
    {
      var state := circuits[service];
      match end {
        case Response(_) =>
          if Failed(policy, end) {
            state := state.(failures := state.failures + 1);
            if state.failures >= Threshold(policy) {
              state := state.(openUntil := now + ResetAfter(policy));
            }
          } else {
            state := state.(failures := 0, openUntil := 0, halfOpen := false);
          }
        case Threw =>
          state := state.(failures := state.failures + 1);
          if state.failures >= Threshold(policy) || state.halfOpen {
            state := state.(openUntil := now + ResetAfter(policy));
          }
          state := state.(halfOpen := false);
      }
      circuits := circuits[service := state];
    }
  }

  // ---------- histories of one service ----------

  datatype Event = Starts(at: int) | Ends(end: End, at: int)

  /** The events of one service under one policy, in order; an end belongs to some call begun before. */
  function After(policy: Policy, history: seq<Event>): CircuitState {
    if history == [] then CLOSED
    else
      var before := After(policy, history[..|history| - 1]);
      match history[|history| - 1]
      case Starts(at) => Begun(before, at)
      case Ends(end, at) => Ended(before, policy, end, at)
  }

  predicate IsFailure(policy: Policy, e: Event) {
    e.Ends? && Failed(policy, e.end)
  }

  predicate IsSuccess(policy: Policy, e: Event) {
    e.Ends? && !Failed(policy, e.end)
  }

  /** How many calls failed since the last success. */
  function FailuresSince(policy: Policy, history: seq<Event>): nat {
    if history == [] then 0
    else
      var before, e := FailuresSince(policy, history[..|history| - 1]), history[|history| - 1];
      if IsSuccess(policy, e) then 0 else if IsFailure(policy, e) then before + 1 else before
  }

  /** When the last call failed. */
  function LastFailure(policy: Policy, history: seq<Event>): int {
    if history == [] then 0
    else
      var e := history[|history| - 1];
      if IsFailure(policy, e) then e.at else LastFailure(policy, history[..|history| - 1])
  }

  /** Until when the history keeps the circuit open, or 0. */
  function OpenUntil(policy: Policy, history: seq<Event>): int {
    if FailuresSince(policy, history) >= Threshold(policy) then LastFailure(policy, history) + ResetAfter(policy) else 0
  }

  /** A call was let through after the circuit had been open, and no call has succeeded or thrown since. */
  function Probing(policy: Policy, history: seq<Event>): bool {
    if history == [] then false
    else
      var before, e := history[..|history| - 1], history[|history| - 1];
      match e
      case Starts(at) => Probing(policy, before) || (OpenUntil(policy, before) != 0 && OpenUntil(policy, before) <= at)
      case Ends(end, _) => Probing(policy, before) && end.Response? && Failed(policy, end)
  }

  ghost predicate AfterEpoch(history: seq<Event>) {
    forall i :: 0 <= i < |history| ==> history[i].at >= 0
  }

  /** The stored state is a function of the history, whatever the interleaving: the failures since the last
      success, the last failure's time plus the reset time once they reach the threshold, and the probe mark. */
  lemma {:induction false} StateOfHistory(policy: Policy, history: seq<Event>)
    requires AfterEpoch(history)
    ensures After(policy, history) ==
            CircuitState(FailuresSince(policy, history), OpenUntil(policy, history), Probing(policy, history))
    ensures Probing(policy, history) ==> OpenUntil(policy, history) > 0
    ensures FailuresSince(policy, history) > 0 ==> LastFailure(policy, history) >= 0
    decreases |history|
  {
    if history != [] {
      StateOfHistory(policy, history[..|history| - 1]);
      hide Failed, Threshold, ResetAfter;
      ThresholdsPositive(policy);
    }
  }

  lemma ThresholdsPositive(policy: Policy)
    ensures Threshold(policy) >= 2 && ResetAfter(policy) >= 5000
  {
  }

  /** The same end without the `|| state.halfOpen` disjunct. */
  function EndedPlainly(state: CircuitState, policy: Policy, end: End, now: int): CircuitState {
    if !Failed(policy, end) then CLOSED
    else
      var failures := state.failures + 1;
      CircuitState(failures, if failures >= Threshold(policy) then now + ResetAfter(policy) else state.openUntil,
                   end.Response? && state.halfOpen)
  }

  /** After any history the disjunct changes nothing: while a probe is marked the failures are already at the
      threshold. */
  lemma HalfOpenDisjunctIdle(policy: Policy, history: seq<Event>, end: End, now: int)
    requires AfterEpoch(history)
    ensures var state := After(policy, history);
            Ended(state, policy, end, now) == EndedPlainly(state, policy, end, now)
  {
    StateOfHistory(policy, history);
    hide Failed, After;
  }

  /** A call is refused exactly when the failures since the last success have reached the threshold and the
      reset time after the last of them is not over. */
  lemma RefusedIff(policy: Policy, history: seq<Event>, now: int)
    requires AfterEpoch(history) && now >= 0
    ensures Refuses(After(policy, history), now) <==>
            FailuresSince(policy, history) >= Threshold(policy) &&
            now < LastFailure(policy, history) + ResetAfter(policy)
  {
    StateOfHistory(policy, history);
    hide After, Failed;
  }

  // ---------- refusal read off the events ----------

  /** A call ended badly: it threw, or its status is not among the expected ones, or, where none are given, is 429 or
      from 500 on. */
  predicate Breaks(policy: Policy, e: Event) {
    e.Ends? &&
    match e.end
    case Threw => true
    case Response(status) =>
      match policy.expectedStatuses
      case Some(expected) => status !in expected
      case None => status == 429 || status >= 500
  }

  /** The bad ends with no good end behind them. */
  ghost function Recent(policy: Policy, history: seq<Event>): set<nat> {
    set i: nat | i < |history| && IsRecent(policy, history, i)
  }

  predicate IsRecent(policy: Policy, history: seq<Event>, i: nat) {
    i < |history| && Breaks(policy, history[i]) &&
    forall j :: i < j < |history| && history[j].Ends? ==> Breaks(policy, history[j])
  }

  /** A number given and not 0 is used, but never below the least; else the default is. */
  predicate Takes(given: Option<int>, least: int, default: int, used: int) {
    match given
    case None => used == default
    case Some(v) => if v == 0 then used == default else if v >= least then used == v else used == least
  }

  lemma RecentGrows(policy: Policy, front: seq<Event>, e: Event, i: nat)
    ensures i < |front| ==>
              (IsRecent(policy, front + [e], i) <==> IsRecent(policy, front, i) && (e.Ends? ==> Breaks(policy, e)))
    ensures IsRecent(policy, front + [e], |front|) <==> Breaks(policy, e)
  {
    hide Breaks;
    var all := front + [e];
    if i < |front| && IsRecent(policy, all, i) {
      assert all[|front|] == e;
      forall j | i < j < |front| && front[j].Ends? ensures Breaks(policy, front[j]) {
        assert all[j] == front[j];
      }
    }
  }

  /** The failures counted are the recent bad ends, and the last failure is the last of them. */
  lemma {:induction false} RecentCount(policy: Policy, history: seq<Event>)
    ensures |Recent(policy, history)| == FailuresSince(policy, history)
    ensures forall i :: i in Recent(policy, history) && (forall j :: j in Recent(policy, history) ==> j <= i) ==>
              LastFailure(policy, history) == history[i].at
    ensures FailuresSince(policy, history) > 0 ==>
              exists i :: i in Recent(policy, history) && forall j :: j in Recent(policy, history) ==> j <= i
    decreases |history|
  {
    if history != [] {
      var front, e := history[..|history| - 1], history[|history| - 1];
      assert history == front + [e];
      RecentCount(policy, front);
      forall i: nat
        ensures i in Recent(policy, history) <==>
                if e.Ends? then Breaks(policy, e) && (i == |front| || i in Recent(policy, front))
                else i in Recent(policy, front)
      {
        RecentGrows(policy, front, e, i);
      }
      RecentEnds(policy, front, e);
    }
  }

  lemma RecentEnds(policy: Policy, front: seq<Event>, e: Event)
    requires forall i: nat ::
               i in Recent(policy, front + [e]) <==>
               if e.Ends? then Breaks(policy, e) && (i == |front| || i in Recent(policy, front))
               else i in Recent(policy, front)
    ensures var more, less := Recent(policy, front + [e]), Recent(policy, front);
            && (e.Ends? && !Breaks(policy, e) ==> more == {})
            && (Breaks(policy, e) ==> more == less + {|front|} && |front| !in less && |more| == |less| + 1)
            && (!e.Ends? ==> more == less)
    ensures IsFailure(policy, e) <==> Breaks(policy, e)
    ensures IsSuccess(policy, e) <==> e.Ends? && !Breaks(policy, e)
  {
    BreaksIs(policy, e);
    RecentBelow(policy, front);
    hide Breaks, Recent, IsFailure, IsSuccess;
    var more, less := Recent(policy, front + [e]), Recent(policy, front);
    if Breaks(policy, e) {
      assert more == less + {|front|};
    }
  }

  lemma BreaksIs(policy: Policy, e: Event)
    ensures Breaks(policy, e) ==> e.Ends?
    ensures IsFailure(policy, e) <==> Breaks(policy, e)
    ensures IsSuccess(policy, e) <==> e.Ends? && !Breaks(policy, e)
  {
  }

  lemma RecentBelow(policy: Policy, history: seq<Event>)
    ensures |history| !in Recent(policy, history)
  {
  }

  /** A call is refused exactly when enough calls ended badly since the last good end, five unless the policy says
      otherwise and never fewer than two, and the time since the last bad end is below half a minute, or what the
      policy says, but at least five seconds. */
  lemma RefusedRead(policy: Policy, history: seq<Event>, now: int, enough: int, wait: int)
    requires AfterEpoch(history) && now >= 0
    requires Takes(policy.failureThreshold, 2, 5, enough) && Takes(policy.resetAfterMs, 5000, 30_000, wait)
    ensures Refuses(After(policy, history), now) <==>
            && |Recent(policy, history)| >= enough
            && exists i :: i in Recent(policy, history) && now < history[i].at + wait &&
                           forall j :: j in Recent(policy, history) ==> j <= i
  {
    RefusedIff(policy, history, now);
    RecentCount(policy, history);
    ThresholdsPositive(policy);
    assert Threshold(policy) == enough && ResetAfter(policy) == wait;
    hide Threshold, ResetAfter, After, Recent, Refuses;
  }

  /** The mark does not ration probes: once the reset time is over, calls that begin before one ends are all
      let through. */
  lemma {:induction false} ProbesUnlimited(policy: Policy, history: seq<Event>, starts: seq<int>, now: int)
    requires !Refuses(After(policy, history), now) && forall i :: 0 <= i < |starts| ==> starts[i] >= now
    ensures !Refuses(After(policy, history + seq(|starts|, i requires 0 <= i < |starts| => Starts(starts[i]))), now)
    decreases |starts|
  {
    var events := seq(|starts|, i requires 0 <= i < |starts| => Starts(starts[i]));
    if starts == [] {
      assert history + events == history;
    } else {
      var front := starts[..|starts| - 1];
      var before := seq(|front|, i requires 0 <= i < |front| => Starts(front[i]));
      ProbesUnlimited(policy, history, front, now);
      assert (history + events)[..|history + events| - 1] == history + before;
    }
  }
}
