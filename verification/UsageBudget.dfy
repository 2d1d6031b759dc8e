/** Daily usage budgets of one kind on one UTC day: the reservation script on a counter per scope and a global
    counter, run as one step per reservation in any order.  Times are milliseconds after the epoch. */
module UsageBudget {
  import opened Wrappers
  import opened RedisKeys

  const DAY_MS := 86_400_000
  const GRACE_MS := 300_000

  function UtcDay(now: nat): nat {
    now / DAY_MS
  }

  function DayEnd(day: nat): nat {
    (day + 1) * DAY_MS
  }

  function MillisecondsUntilTomorrowUtc(now: nat): int {
    Max(60_000, DayEnd(UtcDay(now)) - now + GRACE_MS)
  }

  datatype Counters = Counters(scopes: map<string, Entry>, total: Option<Entry>)

  datatype Reason = WithinBudget | ScopeExceeded | GlobalExceeded

  datatype Reply = Reply(reserved: bool, scope: int, total: int, reason: Reason)

  /** A reservation: its scope and the amount asked for, the instants of the caller's clock and of the script, and
      the limits. */
  datatype Request = Request(
    scope: string, amount: Option<real>, askedAt: nat, runAt: nat, scopeLimit: int, globalLimit: int)
  {
    /** `Math.max(1, Math.floor(Number(units || 1)))`, for amounts that are finite. */
    function Units(): (r: int)
      ensures r >= 1
    {
      if amount.None? || amount.value == 0.0 then 1 else Max(1, amount.value.Floor)
    }
  }

  /** A counter lives until five minutes after the midnight that ends the day of the request: the minimum of one
      minute never matters. */
  lemma UntilMidnight(now: nat, day: nat)
    requires day * 86_400_000 <= now < (day + 1) * 86_400_000
    ensures UtcDay(now) == day
    ensures now + MillisecondsUntilTomorrowUtc(now) == (day + 1) * 86_400_000 + 5 * 60_000
  {
  }

  /** A reservation takes the amount rounded down, at least one unit; no amount, or 0, is one unit. */
  lemma UnitsTaken(r: Request, units: int)
    ensures r.Units() == units <==>
            if r.amount.None? || r.amount.value < 2.0 then units == 1
            else units as real <= r.amount.value < units as real + 1.0
  {
    if r.amount.Some? && r.amount.value >= 2.0 && units as real <= r.amount.value < units as real + 1.0 {
      assert units == r.amount.value.Floor;
    }
  }

  // ---------- the script ----------

  function Value(entry: Option<Entry>, now: int): int {
    if Live(entry, now) then entry.value.value else 0
  }

  /** `INCRBY`, and `PEXPIRE` where the key has no time to live yet. */
  function Raised(entry: Option<Entry>, units: int, now: int, ttl: int): Entry {
    if Live(entry, now) && entry.value.expireAt.Some? then entry.value.(value := entry.value.value + units)
    else Entry(Value(entry, now) + units, Some(now + ttl))
  }

  function Reserve(c: Counters, r: Request): (Counters, Reply) {
    var entry, ttl := Lookup(c.scopes, r.scope), MillisecondsUntilTomorrowUtc(r.askedAt);
    var scope, total := Value(entry, r.runAt), Value(c.total, r.runAt);
    if scope + r.Units() > r.scopeLimit then (c, Reply(false, scope, total, ScopeExceeded))
    else if total + r.Units() > r.globalLimit then (c, Reply(false, scope, total, GlobalExceeded))
    else
      var scope', total' := Raised(entry, r.Units(), r.runAt, ttl), Raised(c.total, r.Units(), r.runAt, ttl);
      (Counters(c.scopes[r.scope := scope'], Some(total')), Reply(true, scope'.value, total'.value, WithinBudget))
  }

  class BudgetStore {
    var scopes: map<string, Entry>
    var total: Option<Entry>

    constructor ()
      ensures Contents() == Counters(map[], None)
    {
      scopes, total := map[], None;
    }

    function Contents(): Counters
      reads this
    {
      Counters(scopes, total)
    }

    method IncrScope(scope: string, units: int, now: int, ttl: int) returns (next: int)
      modifies this`scopes
      ensures scopes == old(scopes)[scope := Raised(Lookup(old(scopes), scope), units, now, ttl)]
      ensures next == scopes[scope].value
    {
      var entry := Lookup(scopes, scope);
      if !Live(entry, now) {
        scopes := scopes[scope := Entry(units, None)];
      } else {
        scopes := scopes[scope := scopes[scope].(value := scopes[scope].value + units)];
      }
      next := scopes[scope].value;
      if scopes[scope].expireAt.None? {
        scopes := scopes[scope := scopes[scope].(expireAt := Some(now + ttl))];
      }
    }

    method IncrTotal(units: int, now: int, ttl: int) returns (next: int)
      modifies this`total
      ensures total == Some(Raised(old(total), units, now, ttl)) && next == total.value.value
    {
      if !Live(total, now) {
        total := Some(Entry(units, None));
      } else {
        total := Some(total.value.(value := total.value.value + units));
      }
      next := total.value.value;
      if total.value.expireAt.None? {
        total := Some(total.value.(expireAt := Some(now + ttl)));
      }
    }

    method RunScript(r: Request) returns (reply: Reply)
      modifies this
      ensures (Contents(), reply) == Reserve(old(Contents()), r)
    {
      var ttl := MillisecondsUntilTomorrowUtc(r.askedAt);
      var scopeCurrent := Value(Lookup(scopes, r.scope), r.runAt);
      var globalCurrent := Value(total, r.runAt);
      if scopeCurrent + r.Units() > r.scopeLimit {
        return Reply(false, scopeCurrent, globalCurrent, ScopeExceeded);
      }
      if globalCurrent + r.Units() > r.globalLimit {
        return Reply(false, scopeCurrent, globalCurrent, GlobalExceeded);
      }
      var scopeNext := IncrScope(r.scope, r.Units(), r.runAt, ttl);
      var globalNext := IncrTotal(r.Units(), r.runAt, ttl);
      return Reply(true, scopeNext, globalNext, WithinBudget);
    }
  }

  // ---------- sums over scopes ----------

  function Values(scopes: map<string, Entry>): map<string, int> {
    map s | s in scopes :: scopes[s].value
  }

  ghost function Sum(m: map<string, int>): int
    decreases |m|
  {
    if m == map[] then 0
    else
      var k :| k in m;
      RemoveSmaller(m, k);
      m[k] + Sum(m - {k})
  }

  lemma RemoveSmaller(m: map<string, int>, k: string)
    requires k in m
    ensures |m - {k}| < |m|
  {
    assert (m - {k}).Keys == m.Keys - {k};
    assert |(m - {k}).Keys| == |m.Keys| - 1;
    assert |m - {k}| == |(m - {k}).Keys| && |m| == |m.Keys|;
  }

  lemma {:induction false} SumRemove(m: map<string, int>, k: string)
    requires k in m
    ensures Sum(m) == m[k] + Sum(m - {k})
    decreases |m|
  {
    var j :| j in m && Sum(m) == m[j] + Sum(m - {j});
    if j != k {
      RemoveSmaller(m, j);
      RemoveSmaller(m, k);
      SumRemove(m - {j}, k);
      SumRemove(m - {k}, j);
      assert m - {j} - {k} == m - {k} - {j};
    }
  }

  lemma SumUpdate(m: map<string, int>, k: string, v: int)
    ensures Sum(m[k := v]) == Sum(m) + v - if k in m then m[k] else 0
  {
    SumRemove(m[k := v], k);
    if k in m {
      SumRemove(m, k);
      assert m[k := v] - {k} == m - {k};
    } else {
      assert m[k := v] - {k} == m;
    }
  }

  // ---------- every order of reservations ----------

  /** Reservations of one day: asked for on it, and run between being asked for and the end of the grace period. */
  predicate OnDay(day: nat, r: Request) {
    UtcDay(r.askedAt) == day && r.askedAt <= r.runAt <= DayEnd(day) + GRACE_MS
  }

  function After(requests: seq<Request>): Counters {
    if requests == [] then Counters(map[], None)
    else Reserve(After(requests[..|requests| - 1]), requests[|requests| - 1]).0
  }

  /** The reply to the last of the requests. */
  function LastReply(requests: seq<Request>): Reply
    requires requests != []
  {
    Reserve(After(requests[..|requests| - 1]), requests[|requests| - 1]).1
  }

  /** The units reserved for a scope. */
  function Granted(requests: seq<Request>, scope: string): int {
    if requests == [] then 0
    else
      var r := requests[|requests| - 1];
      Granted(requests[..|requests| - 1], scope) +
      if r.scope == scope && LastReply(requests).reserved then r.Units() else 0
  }

  ghost predicate Settled(day: nat, entry: Entry) {
    entry.expireAt.Some? && entry.expireAt.value >= DayEnd(day) + GRACE_MS
  }

  lemma LateEnough(day: nat, r: Request)
    requires OnDay(day, r)
    ensures r.runAt + MillisecondsUntilTomorrowUtc(r.askedAt) >= DayEnd(day) + GRACE_MS
  {
  }

  ghost predicate AllSettled(day: nat, c: Counters) {
    && (forall s :: s in c.scopes ==> Settled(day, c.scopes[s]))
    && (c.total.Some? ==> Settled(day, c.total.value))
  }

  function Held(c: Counters, scope: string): int {
    if scope in c.scopes then c.scopes[scope].value else 0
  }

  function Total(c: Counters): int {
    if c.total.Some? then c.total.value.value else 0
  }

  /** What each counter is: nothing expires within the day, each scope holds the units granted to it, and the
      global counter the sum over the scopes. */
  ghost predicate Balanced(day: nat, requests: seq<Request>, c: Counters) {
    && AllSettled(day, c)
    && (forall s :: Granted(requests, s) == Held(c, s))
    && Sum(Values(c.scopes)) == Total(c)
  }

  /** One reservation on the day, with counters that do not expire on it. */
  lemma ReserveOnDay(day: nat, c: Counters, r: Request)
    requires OnDay(day, r) && AllSettled(day, c)
    ensures var (c', reply) := Reserve(c, r);
            && AllSettled(day, c')
            && (reply.reserved <==>
              Held(c, r.scope) + r.Units() <= r.scopeLimit && Total(c) + r.Units() <= r.globalLimit)
            && (reply.reason == ScopeExceeded <==> Held(c, r.scope) + r.Units() > r.scopeLimit)
            && (!reply.reserved ==> c' == c)
            && (reply.reserved ==>
                 && (forall s :: Held(c', s) == Held(c, s) + if s == r.scope then r.Units() else 0)
                 && Total(c') == Total(c) + r.Units()
                 && Values(c'.scopes) == Values(c.scopes)[r.scope := Held(c, r.scope) + r.Units()])
  {
    LateEnough(day, r);
    hide MillisecondsUntilTomorrowUtc, DayEnd, UtcDay;
  }

  lemma StepBalanced(day: nat, requests: seq<Request>)
    requires requests != [] && OnDay(day, requests[|requests| - 1])
    requires Balanced(day, requests[..|requests| - 1], After(requests[..|requests| - 1]))
    ensures Balanced(day, requests, After(requests))
  {
    var before, r := requests[..|requests| - 1], requests[|requests| - 1];
    var c := After(before);
    ReserveOnDay(day, c, r);
    SumUpdate(Values(c.scopes), r.scope, Held(c, r.scope) + r.Units());
    HeldValue(c, r.scope);
    hide Reserve, AllSettled, OnDay, Sum, Values, Held, Total;
  }

  lemma HeldValue(c: Counters, scope: string)
    ensures Held(c, scope) == if scope in Values(c.scopes) then Values(c.scopes)[scope] else 0
  {
  }

  lemma {:induction false} AllBalanced(day: nat, requests: seq<Request>)
    requires forall i :: 0 <= i < |requests| ==> OnDay(day, requests[i])
    ensures Balanced(day, requests, After(requests))
    decreases |requests|
  {
    if requests != [] {
      hide Balanced;
      AllBalanced(day, requests[..|requests| - 1]);
      StepBalanced(day, requests);
    } else {
      assert Values(map[]) == map[];
    }
  }

  predicate SameLimits(requests: seq<Request>, scope: string, scopeLimit: int, globalLimit: int) {
    forall i :: 0 <= i < |requests| ==>
      requests[i].globalLimit == globalLimit && (requests[i].scope == scope ==> requests[i].scopeLimit == scopeLimit)
  }

  /** With fixed limits no counter ever passes its limit. */
  lemma {:induction false} NeverOverLimit(day: nat, requests: seq<Request>, scope: string, scopeLimit: nat,
    globalLimit: nat)
    requires forall i :: 0 <= i < |requests| ==> OnDay(day, requests[i])
    requires SameLimits(requests, scope, scopeLimit, globalLimit)
    ensures Granted(requests, scope) <= scopeLimit
    ensures Sum(Values(After(requests).scopes)) <= globalLimit
    decreases |requests|
  {
    if requests != [] {
      var before, r := requests[..|requests| - 1], requests[|requests| - 1];
      NeverOverLimit(day, before, scope, scopeLimit, globalLimit);
      AllBalanced(day, before);
      AllBalanced(day, requests);
      ReserveOnDay(day, After(before), r);
      hide Reserve, AllSettled, OnDay, Sum;
    } else {
      assert Values(map[]) == map[];
    }
  }

  /** A reservation is granted exactly when the units granted so far leave room in its scope and over all
      scopes; the scope is checked first; and a refusal changes nothing. */
  lemma GrantedIff(day: nat, requests: seq<Request>)
    requires requests != [] && forall i :: 0 <= i < |requests| ==> OnDay(day, requests[i])
    ensures var before, r := requests[..|requests| - 1], requests[|requests| - 1];
            var used, all := Granted(before, r.scope), Sum(Values(After(before).scopes));
            && (LastReply(requests).reserved <==> used + r.Units() <= r.scopeLimit && all + r.Units() <= r.globalLimit)
            && (LastReply(requests).reason == ScopeExceeded <==> used + r.Units() > r.scopeLimit)
            && (!LastReply(requests).reserved ==> After(requests) == After(before))
  {
    AllBalanced(day, requests[..|requests| - 1]);
    ReserveOnDay(day, After(requests[..|requests| - 1]), requests[|requests| - 1]);
    hide Reserve, AllSettled, OnDay, Sum;
  }

  /** The first request of the scope that was granted. */
  predicate IsFirstGranted(requests: seq<Request>, scope: string, i: nat) {
    i < |requests| && Granted(requests[..i], scope) == 0 && Granted(requests[..i + 1], scope) > 0
  }

  /** The counter of a scope lives until five minutes after the midnight that ends the day, longer by the time its first
      granted request took to arrive. */
  ghost predicate ExpiresWithFirst(day: nat, requests: seq<Request>, scope: string, entry: Entry) {
    exists i :: 0 <= i < |requests| && IsFirstGranted(requests, scope, i) &&
      entry.expireAt == Some((day + 1) * 86_400_000 + 5 * 60_000 + (requests[i].runAt - requests[i].askedAt))
  }

  /** A scope has a counter once a request was granted, and what is granted later does not change when it expires. */
  lemma {:induction false} ScopeExpires(day: nat, requests: seq<Request>, scope: string)
    requires forall i :: 0 <= i < |requests| ==> OnDay(day, requests[i])
    ensures var c := After(requests);
            && (scope in c.scopes <==> Granted(requests, scope) > 0)
            && (scope in c.scopes ==> ExpiresWithFirst(day, requests, scope, c.scopes[scope]))
    ensures Granted(requests, scope) >= 0
    decreases |requests|
  {
    if requests != [] {
      hide Reserve, OnDay, ExpiresWithFirst, IsFirstGranted, Granted, Balanced, AllSettled;
      var front, r := requests[..|requests| - 1], requests[|requests| - 1];
      ScopeExpires(day, front, scope);
      ReservedOn(day, front);
      ExpiryStep(day, After(front), r, scope);
      GrantedStep(requests, scope);
      assert requests == front + [r];
      if scope in After(front).scopes {
        ExpiresKept(day, front, r, scope, After(front).scopes[scope]);
      } else if scope in After(requests).scopes {
        ExpiresFirst(day, front, r, scope, After(requests).scopes[scope]);
      }
    }
  }

  lemma ReservedOn(day: nat, requests: seq<Request>)
    requires forall i :: 0 <= i < |requests| ==> OnDay(day, requests[i])
    ensures AllSettled(day, After(requests))
  {
    hide OnDay, AllSettled;
    AllBalanced(day, requests);
  }

  lemma ExpiresKept(day: nat, front: seq<Request>, r: Request, scope: string, entry: Entry)
    requires ExpiresWithFirst(day, front, scope, entry)
    ensures ExpiresWithFirst(day, front + [r], scope, entry)
  {
    hide IsFirstGranted;
    var i :| 0 <= i < |front| && IsFirstGranted(front, scope, i) &&
      entry.expireAt == Some((day + 1) * 86_400_000 + 5 * 60_000 + (front[i].runAt - front[i].askedAt));
    FirstGrantedKept(front, r, scope, i);
    assert (front + [r])[i] == front[i];
  }

  lemma ExpiresFirst(day: nat, front: seq<Request>, r: Request, scope: string, entry: Entry)
    requires UtcDay(r.askedAt) == day && Granted(front, scope) == 0 && Granted(front + [r], scope) > 0
    requires entry.expireAt == Some(r.runAt + MillisecondsUntilTomorrowUtc(r.askedAt))
    ensures ExpiresWithFirst(day, front + [r], scope, entry)
  {
    hide Granted, MillisecondsUntilTomorrowUtc;
    var all, n := front + [r], |front|;
    assert all[..n] == front && all[..n + 1] == all;
    assert IsFirstGranted(all, scope, n);
    UntilMidnight(r.askedAt, day);
  }

  lemma FirstGrantedKept(front: seq<Request>, r: Request, scope: string, i: nat)
    requires IsFirstGranted(front, scope, i)
    ensures IsFirstGranted(front + [r], scope, i)
  {
    hide Granted;
    assert (front + [r])[..i] == front[..i] && (front + [r])[..i + 1] == front[..i + 1];
  }

  lemma GrantedStep(requests: seq<Request>, scope: string)
    requires requests != []
    ensures var r := requests[|requests| - 1];
            Granted(requests, scope) == Granted(requests[..|requests| - 1], scope) +
              if r.scope == scope && LastReply(requests).reserved then r.Units() else 0
    ensures requests[|requests| - 1].Units() >= 1
    ensures LastReply(requests) == Reserve(After(requests[..|requests| - 1]), requests[|requests| - 1]).1
    ensures After(requests) == Reserve(After(requests[..|requests| - 1]), requests[|requests| - 1]).0
  {
  }

  lemma ExpiryStep(day: nat, c: Counters, r: Request, scope: string)
    requires OnDay(day, r) && AllSettled(day, c)
    ensures UtcDay(r.askedAt) == day
    ensures var (c', reply) := Reserve(c, r);
            if !reply.reserved || scope != r.scope then
              (scope in c'.scopes <==> scope in c.scopes) && (scope in c.scopes ==> c'.scopes[scope] == c.scopes[scope])
            else
              scope in c'.scopes &&
              c'.scopes[scope].expireAt ==
                if scope in c.scopes then c.scopes[scope].expireAt
                else Some(r.runAt + MillisecondsUntilTomorrowUtc(r.askedAt))
  {
    hide MillisecondsUntilTomorrowUtc, UtcDay;
  }
}
