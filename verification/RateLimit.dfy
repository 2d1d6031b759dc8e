/** Rate limiting: the in-memory counter, the Redis script it stands in for, the windows both make, and the
    rules of one request.  Times are milliseconds of one clock. */
module RateLimit {
  import opened Wrappers
  import opened RedisKeys

  datatype Counter = Counter(count: int, resetAt: int)

  datatype CounterResult = CounterResult(count: int, ttlMs: int)

  /** A counter's key: the rule and the identity it limits. */
  datatype Key = Key(rule: string, identity: string)

  // ---------- one counter ----------

  /** One call: a missing or finished window starts anew, a running one counts on. */
  function Step(counter: Option<Counter>, now: int, windowMs: int): Counter {
    if counter.None? || counter.value.resetAt <= now then Counter(1, now + windowMs)
    else Counter(counter.value.count + 1, counter.value.resetAt)
  }

  function ResultOf(counter: Counter, now: int): CounterResult {
    CounterResult(counter.count, Max(1, counter.resetAt - now))
  }

  class MemoryCounters {
    var counters: map<Key, Counter>

    constructor ()
      ensures counters == map[]
    {
      counters := map[];
    }

    method Consume(key: Key, windowMs: int, now: int) returns (r: CounterResult)
      requires windowMs >= 1
      modifies this
      ensures counters == old(counters)[key := Step(Lookup(old(counters), key), now, windowMs)]
      ensures r == ResultOf(counters[key], now)
      ensures r == CounterResult(counters[key].count, counters[key].resetAt - now) && r.ttlMs >= 1
    {
      var current := Lookup(counters, key);
      if current.None? || current.value.resetAt <= now {
        var resetAt := now + windowMs;
        counters := counters[key := Counter(1, resetAt)];
        return CounterResult(1, windowMs);
      }
      counters := counters[key := Counter(current.value.count + 1, current.value.resetAt)];
      return CounterResult(current.value.count + 1, Max(1, current.value.resetAt - now));
    }
  }

  // ---------- the Redis script ----------

  class RedisStore {
    var entries: map<Key, Entry>

    constructor ()
      ensures entries == map[]
    {
      entries := map[];
    }

    method Incr(key: Key, now: int) returns (count: int)
      modifies this
      ensures Live(Lookup(old(entries), key), now) ==>
                count == old(entries)[key].value + 1 &&
                entries == old(entries)[key := Entry(count, old(entries)[key].expireAt)]
      ensures !Live(Lookup(old(entries), key), now) ==> count == 1 && entries == old(entries)[key := Entry(1, None)]
    {
      if Live(Lookup(entries, key), now) {
        count := entries[key].value + 1;
        entries := entries[key := Entry(count, entries[key].expireAt)];
      } else {
        count := 1;
        entries := entries[key := Entry(1, None)];
      }
    }

    method PExpire(key: Key, ms: int, now: int)
      requires key in entries
      modifies this
      ensures entries == old(entries)[key := old(entries)[key].(expireAt := Some(now + ms))]
    {
      entries := entries[key := entries[key].(expireAt := Some(now + ms))];
    }

    method PTtl(key: Key, now: int) returns (ttl: int)
      ensures ttl == if !Live(Lookup(entries, key), now) then -2
                     else if entries[key].expireAt.None? then -1 else entries[key].expireAt.value - now
    {
      if !Live(Lookup(entries, key), now) {
        return -2;
      }
      if entries[key].expireAt.None? {
        return -1;
      }
      return entries[key].expireAt.value - now;
    }

    /** The script, run as one step, and the caller's `max(1, ttl)`.  It counts as an in-memory counter does whose
        window is a millisecond longer, since Redis keeps a key through the last millisecond of its time. */
    method RateLimitScript(key: Key, windowMs: int, now: int, ghost memory: map<Key, Counter>)
      returns (r: CounterResult)
      requires windowMs >= 1 && Agree(memory, entries, now)
      modifies this
      ensures Agree(memory[key := Step(Lookup(memory, key), now, windowMs + 1)], entries, now)
      ensures var counter := Step(Lookup(memory, key), now, windowMs + 1);
              r == CounterResult(counter.count, Max(1, counter.resetAt - 1 - now))
    {
      assert AgreeOn(Lookup(memory, key), Lookup(entries, key), now);
      var count := Incr(key, now);
      if count == 1 {
        PExpire(key, windowMs, now);
      }
      var ttl := PTtl(key, now);
      AgreeAfter(memory, old(entries), entries, key, windowMs, now);
      return CounterResult(count, Max(1, ttl));
    }
  }

  /** The same running window, or none on either side. */
  ghost predicate AgreeOn(counter: Option<Counter>, entry: Option<Entry>, now: int) {
    if counter.Some? && counter.value.resetAt > now then
      counter.value.count >= 1 &&
      entry == Some(Entry(counter.value.count, Some(counter.value.resetAt - 1)))
    else !Live(entry, now)
  }

  ghost predicate Agree(memory: map<Key, Counter>, entries: map<Key, Entry>, now: int) {
    forall key {:trigger Lookup(memory, key)} {:trigger Lookup(entries, key)} ::
      AgreeOn(Lookup(memory, key), Lookup(entries, key), now)
  }

  lemma AgreeAfter(
    memory: map<Key, Counter>, before: map<Key, Entry>, entries: map<Key, Entry>, key: Key, windowMs: int, now: int)
    requires Agree(memory, before, now) && windowMs >= 1
    requires var next := Step(Lookup(memory, key), now, windowMs + 1);
             entries == before[key := Entry(next.count, Some(next.resetAt - 1))]
    ensures Agree(memory[key := Step(Lookup(memory, key), now, windowMs + 1)], entries, now)
  {
    var memory' := memory[key := Step(Lookup(memory, key), now, windowMs + 1)];
    forall k ensures AgreeOn(Lookup(memory', k), Lookup(entries, k), now) {
      assert AgreeOn(Lookup(memory, k), Lookup(before, k), now);
    }
  }

  /** Agreement outlives the passing of time, and two empty stores agree. */
  lemma AgreeLater(memory: map<Key, Counter>, entries: map<Key, Entry>, now: int, later: int)
    requires Agree(memory, entries, now) && now <= later
    ensures Agree(memory, entries, later)
    ensures Agree(map[], map[], now)
  {
    forall key ensures AgreeOn(Lookup(memory, key), Lookup(entries, key), later) {
      assert AgreeOn(Lookup(memory, key), Lookup(entries, key), now);
    }
  }

  // ---------- the windows of one key ----------

  ghost predicate InTimeOrder(times: seq<int>) {
    forall i, j :: 0 <= i < j < |times| ==> times[i] <= times[j]
  }

  /** The counter after call `i`. */
  function At(times: seq<int>, windowMs: int, i: nat): Counter
    requires i < |times|
  {
    Step(if i == 0 then None else Some(At(times, windowMs, i - 1)), times[i], windowMs)
  }

  /** A later call is in the same window, one count further per call, or in a window that starts after it. */
  lemma {:induction false} WindowsApart(times: seq<int>, windowMs: int, i: nat, j: nat)
    requires InTimeOrder(times) && windowMs >= 1 && i <= j < |times|
    ensures At(times, windowMs, i).resetAt - windowMs <= times[i] < At(times, windowMs, i).resetAt
    ensures At(times, windowMs, j).resetAt - windowMs <= times[j] < At(times, windowMs, j).resetAt
    ensures var a, b := At(times, windowMs, i), At(times, windowMs, j);
            if b.resetAt == a.resetAt then b.count == a.count + (j - i) else b.resetAt >= a.resetAt + windowMs
    decreases j
  {
    if i < j {
      WindowsApart(times, windowMs, i, j - 1);
    } else if i > 0 {
      WindowsApart(times, windowMs, i - 1, i - 1);
    }
  }

  /** Call `i` falls on the very instant the window before it ends. */
  predicate AtTheEnd(times: seq<int>, windowMs: int, i: nat)
    requires i < |times|
  {
    i > 0 && times[i] == At(times, windowMs, i - 1).resetAt
  }

  lemma {:induction false} SameUntilTheEnd(times: seq<int>, windowMs: int, i: nat)
    requires i < |times| && forall k: nat :: k <= i ==> !AtTheEnd(times, windowMs, k)
    ensures At(times, windowMs + 1, i) ==
            Counter(At(times, windowMs, i).count, At(times, windowMs, i).resetAt + 1)
  {
    assert !AtTheEnd(times, windowMs, i);
    if i > 0 {
      SameUntilTheEnd(times, windowMs, i - 1);
    }
  }

  /** The script and the in-memory counter give a run of calls the same counts exactly when no call falls on the
      very instant a window ends. */
  lemma SameCountsIff(times: seq<int>, windowMs: int)
    requires InTimeOrder(times) && windowMs >= 1
    ensures (forall i: nat :: i < |times| ==> At(times, windowMs, i).count == At(times, windowMs + 1, i).count) <==>
            (forall i: nat :: i < |times| ==> !AtTheEnd(times, windowMs, i))
  {
    hide At;
    if i: nat :| i < |times| && AtTheEnd(times, windowMs, i) {
      var first := FirstAtTheEnd(times, windowMs, i);
      SameUntilTheEnd(times, windowMs, first - 1);
      CountsPart(times, windowMs, first);
    } else {
      forall i: nat | i < |times| ensures At(times, windowMs, i).count == At(times, windowMs + 1, i).count {
        SameUntilTheEnd(times, windowMs, i);
      }
    }
  }

  /** Calls at 0 and 10 with a window of 10: a new window to the in-memory counter, the second call to the script. */
  lemma EndInstantDiffers()
    ensures At([0, 10], 10, 1).count == 1 && At([0, 10], 11, 1).count == 2
  {
    assert At([0, 10], 10, 0) == Counter(1, 10) && At([0, 10], 11, 0) == Counter(1, 11);
  }

  lemma {:induction false} FirstAtTheEnd(times: seq<int>, windowMs: int, i: nat) returns (first: nat)
    requires i < |times| && AtTheEnd(times, windowMs, i)
    ensures first <= i && AtTheEnd(times, windowMs, first)
    ensures forall k: nat :: k < first ==> !AtTheEnd(times, windowMs, k)
  {
    hide AtTheEnd;
    first := i;
    if k: nat :| k < i && AtTheEnd(times, windowMs, k) {
      first := FirstAtTheEnd(times, windowMs, k);
    }
  }

  lemma CountsPart(times: seq<int>, windowMs: int, i: nat)
    requires InTimeOrder(times) && windowMs >= 1 && 0 < i < |times| && AtTheEnd(times, windowMs, i)
    requires At(times, windowMs + 1, i - 1).resetAt == At(times, windowMs, i - 1).resetAt + 1
    ensures At(times, windowMs, i).count == 1 && At(times, windowMs + 1, i).count >= 2
  {
    CountInWindow(times, windowMs + 1, i - 1);
  }

  /** The first call of the window of call `i`. */
  function FirstOf(times: seq<int>, windowMs: int, i: nat): (f: nat)
    requires i < |times|
    ensures f <= i
  {
    if i == 0 || At(times, windowMs, i - 1).resetAt <= times[i] then i else FirstOf(times, windowMs, i - 1)
  }

  /** The count says how many calls of the window there have been, so `count <= max` admits exactly the first
      `max` of each window. */
  lemma {:induction false} CountInWindow(times: seq<int>, windowMs: int, i: nat)
    requires InTimeOrder(times) && windowMs >= 1 && i < |times|
    ensures var f := FirstOf(times, windowMs, i);
            && At(times, windowMs, i).count == i - f + 1
            && At(times, windowMs, i).resetAt == times[f] + windowMs
            && (forall k :: f <= k <= i ==> At(times, windowMs, k).resetAt == At(times, windowMs, i).resetAt)
            && (forall k :: 0 <= k < f ==> At(times, windowMs, k).resetAt < At(times, windowMs, i).resetAt)
  {
    var f := FirstOf(times, windowMs, i);
    if f == i {
      forall k | 0 <= k < i ensures At(times, windowMs, k).resetAt < At(times, windowMs, i).resetAt {
        WindowsApart(times, windowMs, k, i);
        WindowsApart(times, windowMs, k, i - 1);
      }
    } else {
      CountInWindow(times, windowMs, i - 1);
    }
  }

  predicate Admitted(times: seq<int>, windowMs: int, max: int, i: nat)
    requires i < |times|
  {
    At(times, windowMs, i).count <= max
  }

  ghost function AdmittedWithin(times: seq<int>, windowMs: int, max: int, from: int): set<nat> {
    set i: nat | i < |times| && from <= times[i] < from + windowMs && Admitted(times, windowMs, max, i)
  }

  function Range(lo: nat, n: nat): (s: set<nat>)
    ensures |s| == n && forall i: nat :: i in s <==> lo <= i < lo + n
  {
    if n == 0 then {} else Range(lo, n - 1) + {lo + n - 1}
  }

  /** Any stretch of time as long as a window admits at most twice the maximum; for the script that is a stretch of
      one millisecond more. */
  lemma AtMostTwice(times: seq<int>, windowMs: int, max: nat, from: int)
    requires InTimeOrder(times) && windowMs >= 1
    ensures |AdmittedWithin(times, windowMs, max, from)| <= 2 * max
  {
    var s := AdmittedWithin(times, windowMs, max, from);
    hide At, FirstOf, InTimeOrder;
    assert forall i :: i in s ==>
             i < |times| && from <= times[i] < from + windowMs && Admitted(times, windowMs, max, i);
    hide AdmittedWithin, Admitted;
    if s != {} {
      var x :| x in s;
      var lo := EarliestIn(s, x);
      var f := FirstOf(times, windowMs, lo);
      var next := EndOfWindow(times, windowMs, lo);
      var low, high := Range(f, max), Range(next, max);
      forall i | i in s ensures i in low + high {
        InOneOfTwo(times, windowMs, max, from, lo, next, i);
      }
      assert low + high == low + (high - low);
      SubsetSize(high - low, high);
      SubsetSize(s, low + high);
    }
  }

  lemma {:induction false} EarliestIn(s: set<nat>, x: nat) returns (lo: nat)
    requires x in s
    ensures lo in s && forall i :: i in s ==> lo <= i
    decreases x
  {
    if y :| y in s && y < x {
      lo := EarliestIn(s, y);
    } else {
      lo := x;
    }
  }

  /** The first call after the window of call `i`, or the end of the calls. */
  lemma {:induction false} EndOfWindow(times: seq<int>, windowMs: int, i: nat) returns (next: nat)
    requires InTimeOrder(times) && windowMs >= 1 && i < |times|
    ensures i < next <= |times|
    ensures forall k :: i <= k < next ==> At(times, windowMs, k).resetAt == At(times, windowMs, i).resetAt
    ensures next < |times| ==> FirstOf(times, windowMs, next) == next && times[next] >= At(times, windowMs, i).resetAt
    decreases |times| - i
  {
    if i + 1 == |times| || At(times, windowMs, i).resetAt <= times[i + 1] {
      next := i + 1;
    } else {
      next := EndOfWindow(times, windowMs, i + 1);
    }
  }

  lemma InOneOfTwo(times: seq<int>, windowMs: int, max: nat, from: int, lo: nat, next: nat, i: nat)
    requires InTimeOrder(times) && windowMs >= 1 && lo <= i < |times| && lo < next <= |times|
    requires forall k :: lo <= k < next ==> At(times, windowMs, k).resetAt == At(times, windowMs, lo).resetAt
    requires next < |times| ==> FirstOf(times, windowMs, next) == next && times[next] >= At(times, windowMs, lo).resetAt
    requires from <= times[lo] && times[i] < from + windowMs && Admitted(times, windowMs, max, i)
    ensures FirstOf(times, windowMs, lo) <= i < FirstOf(times, windowMs, lo) + max || next <= i < next + max
  {
    CountInWindow(times, windowMs, lo);
    CountInWindow(times, windowMs, i);
    if i < next {
      WindowsApart(times, windowMs, lo, i);
    } else {
      WindowsApart(times, windowMs, next, i);
      WindowsApart(times, windowMs, lo, i);
      CountInWindow(times, windowMs, next);
    }
  }

  // ---------- many keys ----------

  datatype Call = Call(key: Key, windowMs: int, now: int)

  /** The counters after the first `n` calls. */
  function CountersAfter(calls: seq<Call>, n: nat): map<Key, Counter>
    requires n <= |calls|
  {
    if n == 0 then map[]
    else
      var before, call := CountersAfter(calls, n - 1), calls[n - 1];
      before[call.key := Step(Lookup(before, call.key), call.now, call.windowMs)]
  }

  /** The times of the calls for one key. */
  function TimesOf(calls: seq<Call>, n: nat, key: Key): seq<int>
    requires n <= |calls|
  {
    if n == 0 then []
    else
      var before := TimesOf(calls, n - 1, key);
      if calls[n - 1].key == key then before + [calls[n - 1].now] else before
  }

  /** Calls for other keys do not matter: a key's counter is that of its own calls. */
  lemma {:induction false} KeysApart(calls: seq<Call>, n: nat, key: Key, windowMs: int)
    requires n <= |calls| && forall i :: 0 <= i < n && calls[i].key == key ==> calls[i].windowMs == windowMs
    ensures var times := TimesOf(calls, n, key);
            Lookup(CountersAfter(calls, n), key) ==
            if times == [] then None else Some(At(times, windowMs, |times| - 1))
  {
    if n > 0 {
      KeysApart(calls, n - 1, key, windowMs);
      if calls[n - 1].key == key {
        var before := TimesOf(calls, n - 1, key);
        if before != [] {
          AtPrefix(before, before + [calls[n - 1].now], windowMs, |before| - 1);
        }
      }
    }
  }

  lemma {:induction false} AtPrefix(times: seq<int>, longer: seq<int>, windowMs: int, i: nat)
    requires times <= longer && i < |times|
    ensures At(longer, windowMs, i) == At(times, windowMs, i)
  {
    if i > 0 {
      AtPrefix(times, longer, windowMs, i - 1);
    }
  }

  // ---------- the rules of one request ----------

  /** A rule with the identity it finds in the request, or none. */
  datatype Rule = Rule(name: string, windowMs: int, max: int, identity: Option<string>)

  datatype Headers = Headers(limit: int, remaining: int, reset: int)

  datatype Answer = Pass(headers: Option<Headers>) | TooMany(rule: string, retrySeconds: int)

  function KeyOf(rule: Rule): Key
    requires rule.identity.Some?
  {
    Key(rule.name, rule.identity.value)
  }

  function CeilSeconds(ms: int): int {
    (ms + 999) / 1000
  }

  /** What a rule's counter says when this request is counted. */
  function Count(counters: map<Key, Counter>, rule: Rule, now: int): Counter
    requires rule.identity.Some?
  {
    Step(Lookup(counters, KeyOf(rule)), now, rule.windowMs)
  }

  ghost predicate Within(counters: map<Key, Counter>, rules: seq<Rule>, now: int) {
    forall i :: 0 <= i < |rules| && rules[i].identity.Some? ==> Count(counters, rules[i], now).count <= rules[i].max
  }

  ghost predicate DistinctNames(rules: seq<Rule>) {
    forall i, j :: 0 <= i < j < |rules| ==> rules[i].name != rules[j].name
  }

  function Remaining(counters: map<Key, Counter>, rule: Rule, now: int): int
    requires rule.identity.Some?
  {
    Max(0, rule.max - Count(counters, rule, now).count)
  }

  function RetrySeconds(counters: map<Key, Counter>, rule: Rule, now: int): int
    requires rule.identity.Some?
  {
    Max(1, CeilSeconds(ResultOf(Count(counters, rule, now), now).ttlMs))
  }

  /** What one rule alone would show. */
  function Own(counters: map<Key, Counter>, rule: Rule, now: int): Headers
    requires rule.identity.Some?
  {
    Headers(rule.max, Remaining(counters, rule, now), RetrySeconds(counters, rule, now))
  }

  function Combine(shown: Option<Headers>, own: Headers): Headers {
    match shown
    case None => own
    case Some(h) => Headers(Min(h.limit, own.limit), Min(h.remaining, own.remaining), Max(h.reset, own.reset))
  }

  /** What the rules show together; nothing when none applies. */
  function Shown(counters: map<Key, Counter>, rules: seq<Rule>, now: int): Option<Headers> {
    if rules == [] then None
    else
      var before, rule := Shown(counters, rules[..|rules| - 1], now), rules[|rules| - 1];
      if rule.identity.None? then before else Some(Combine(before, Own(counters, rule, now)))
  }

  predicate Applies(rules: seq<Rule>, rule: Rule) {
    rule in rules && rule.identity.Some?
  }

  /** The limit and the remaining count are the least and the wait the longest over the rules that apply, and each
      is some rule's own. */
  ghost predicate Tightest(counters: map<Key, Counter>, rules: seq<Rule>, now: int, h: Headers) {
    && (forall rule :: Applies(rules, rule) ==>
      h.limit <= rule.max && h.remaining <= Remaining(counters, rule, now) &&
      h.reset >= RetrySeconds(counters, rule, now))
    && (exists rule :: Applies(rules, rule) && h.limit == rule.max)
    && (exists rule :: Applies(rules, rule) && h.remaining == Remaining(counters, rule, now))
    && (exists rule :: Applies(rules, rule) && h.reset == RetrySeconds(counters, rule, now))
  }

  /** The wait is the least whole number of seconds, at least one, that reaches the end of the counter's window, and
      what remains are the calls the rule still admits in that window. */
  lemma ShownRead(counters: map<Key, Counter>, rule: Rule, now: int, seconds: int, left: int)
    requires rule.identity.Some? && rule.windowMs >= 1
    ensures var counter := Count(counters, rule, now);
            && (RetrySeconds(counters, rule, now) == seconds <==>
                  seconds >= 1 && now + 1000 * seconds >= counter.resetAt > now + 1000 * (seconds - 1))
            && (Remaining(counters, rule, now) == left <==>
                  if counter.count <= rule.max then counter.count + left == rule.max else left == 0)
  {
  }

  lemma AppliesStep(front: seq<Rule>, last: Rule)
    ensures forall rule :: Applies(front + [last], rule) <==>
              Applies(front, rule) || (rule == last && last.identity.Some?)
  {
  }

  /** One more rule that applies. */
  lemma TightestStep(counters: map<Key, Counter>, front: seq<Rule>, last: Rule, now: int, shown: Option<Headers>)
    requires last.identity.Some?
    requires shown.Some? ==> Tightest(counters, front, now, shown.value)
    requires shown.None? ==> forall rule :: !Applies(front, rule)
    ensures Tightest(counters, front + [last], now, Combine(shown, Own(counters, last, now)))
  {
    AppliesStep(front, last);
    hide Remaining, RetrySeconds;
    assert Applies(front + [last], last);
    if shown.Some? {
      var x :| Applies(front, x) && shown.value.limit == x.max;
      var y :| Applies(front, y) && shown.value.remaining == Remaining(counters, y, now);
      var z :| Applies(front, z) && shown.value.reset == RetrySeconds(counters, z, now);
      assert Applies(front + [last], x) && Applies(front + [last], y) && Applies(front + [last], z);
    }
  }

  lemma {:induction false} ShownIsTightest(counters: map<Key, Counter>, rules: seq<Rule>, now: int)
    ensures Shown(counters, rules, now).None? <==> forall rule :: !Applies(rules, rule)
    ensures var shown := Shown(counters, rules, now); shown.Some? ==> Tightest(counters, rules, now, shown.value)
    decreases |rules|
  {
    if rules != [] {
      var front, last := rules[..|rules| - 1], rules[|rules| - 1];
      ShownIsTightest(counters, front, now);
      assert rules == front + [last];
      AppliesStep(front, last);
      if last.identity.Some? {
        TightestStep(counters, front, last, now, Shown(counters, front, now));
        assert Applies(rules, last);
      }
      hide Tightest, Combine, Own, Applies;
    }
  }

  /** The counters once the rules that apply have counted the request. */
  function Charged(counters: map<Key, Counter>, rules: seq<Rule>, now: int): map<Key, Counter> {
    if rules == [] then counters
    else
      var before, rule := Charged(counters, rules[..|rules| - 1], now), rules[|rules| - 1];
      if rule.identity.None? then before
      else before[KeyOf(rule) := Step(Lookup(before, KeyOf(rule)), now, rule.windowMs)]
  }

  /** The rule at which the limiter stops. */
  ghost predicate Exceeded(counters: map<Key, Counter>, rule: Rule, now: int) {
    rule.identity.Some? && Count(counters, rule, now).count > rule.max
  }

  /** The limiter: a request passes exactly when every rule that applies is within its maximum, and then shows
      what the rules show together; otherwise it names the first rule that is not and that rule's wait.  The
      request is counted by the rules up to that one. */
  method DistributedRateLimit(memory: MemoryCounters, rules: seq<Rule>, now: int) returns (answer: Answer)
    requires DistinctNames(rules)
    requires forall i :: 0 <= i < |rules| ==> rules[i].windowMs >= 1 && rules[i].max >= 1
    modifies memory
    ensures answer.Pass? <==> Within(old(memory.counters), rules, now)
    ensures answer.Pass? ==> answer.headers == Shown(old(memory.counters), rules, now)
    ensures answer.Pass? ==> memory.counters == Charged(old(memory.counters), rules, now)
    ensures answer.TooMany? ==>
              exists i :: 0 <= i < |rules| && Exceeded(old(memory.counters), rules[i], now) &&
                          Within(old(memory.counters), rules[..i], now) && answer.rule == rules[i].name &&
                          answer.retrySeconds == RetrySeconds(old(memory.counters), rules[i], now) &&
                          memory.counters == Charged(old(memory.counters), rules[..i + 1], now)
  {
    ghost var before := memory.counters;
    var tightest: Option<int> := None;
    var longest, exposed := 0, 0;
    var i := 0;
    while i < |rules|
      invariant 0 <= i <= |rules|
      invariant forall k :: i <= k < |rules| && rules[k].identity.Some? ==>
                  Lookup(memory.counters, KeyOf(rules[k])) == Lookup(before, KeyOf(rules[k]))
      invariant Within(before, rules[..i], now) && memory.counters == Charged(before, rules[..i], now)
      invariant longest >= 0 && (tightest.Some? ==> exposed >= 1) && (tightest.None? ==> longest == 0 && exposed == 0)
      invariant Shown(before, rules[..i], now)
             == if tightest.Some? then Some(Headers(exposed, tightest.value, longest)) else None
    {
      hide Within, Shown, Charged, DistinctNames, Step;
      var rule := rules[i];
      RulesGrow(before, rules, i, now);
      if rule.identity.Some? {
        var result := memory.Consume(KeyOf(rule), rule.windowMs, now);
        OtherKeys(rules, i);
        assert result == ResultOf(Count(before, rule, now), now);
        var remaining := Max(0, rule.max - result.count);
        var retrySeconds := Max(1, CeilSeconds(result.ttlMs));
        assert Own(before, rule, now) == Headers(rule.max, remaining, retrySeconds);
        if result.count > rule.max {
          OneOver(before, rules, i, now);
          return TooMany(rule.name, retrySeconds);
        }
        tightest := Some(if tightest.None? then remaining else Min(tightest.value, remaining));
        longest := Max(longest, retrySeconds);
        exposed := if exposed != 0 then Min(exposed, rule.max) else rule.max;
      }
      i := i + 1;
    }
    assert rules[..i] == rules;
    if tightest.Some? && exposed != 0 {
      return Pass(Some(Headers(exposed, tightest.value, longest)));
    }
    return Pass(None);
  }

  lemma OtherKeys(rules: seq<Rule>, i: nat)
    requires DistinctNames(rules) && i < |rules| && rules[i].identity.Some?
    ensures forall k :: i < k < |rules| && rules[k].identity.Some? ==> KeyOf(rules[k]) != KeyOf(rules[i])
  {
  }

  lemma OneOver(counters: map<Key, Counter>, rules: seq<Rule>, i: nat, now: int)
    requires i < |rules| && Exceeded(counters, rules[i], now)
    ensures !Within(counters, rules, now)
  {
  }

  lemma RulesGrow(counters: map<Key, Counter>, rules: seq<Rule>, i: nat, now: int)
    requires i < |rules|
    ensures Within(counters, rules[..i], now) && !Exceeded(counters, rules[i], now) ==>
            Within(counters, rules[..i + 1], now)
    ensures var before, rule := Shown(counters, rules[..i], now), rules[i];
            Shown(counters, rules[..i + 1], now) ==
            if rule.identity.None? then before else Some(Combine(before, Own(counters, rule, now)))
    ensures var before, rule := Charged(counters, rules[..i], now), rules[i];
            Charged(counters, rules[..i + 1], now) ==
            if rule.identity.None? then before
            else before[KeyOf(rule) := Step(Lookup(before, KeyOf(rule)), now, rule.windowMs)]
  {
    assert rules[..i + 1][..i] == rules[..i];
  }
}
