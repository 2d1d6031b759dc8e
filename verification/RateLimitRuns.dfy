/** The limiter when requests interleave: each waits for the store between its rules, and others are counted
    meanwhile. */
module RateLimitRuns {
  import opened Wrappers
  import opened RateLimit

  /** How far a request is: the next rule, and whether a rule refused it. */
  datatype Progress = Progress(next: nat, refused: bool)

  /** A counted call: the request, its rule, and what the counter said. */
  datatype Charge = Charge(request: nat, rule: nat, call: Call, count: int)

  datatype World = World(counters: map<Key, Counter>, progress: seq<Progress>, log: seq<Charge>)

  /** A request goes on with its next rule. */
  datatype Event = Event(request: nat, now: int)

  function Initial(requests: seq<seq<Rule>>): World {
    World(map[], seq(|requests|, _ => Progress(0, false)), [])
  }

  predicate Matches(requests: seq<seq<Rule>>, w: World) {
    |w.progress| == |requests| && forall r :: 0 <= r < |requests| ==> w.progress[r].next <= |requests[r]|
  }

  predicate Enabled(requests: seq<seq<Rule>>, w: World, e: Event) {
    Matches(requests, w) && e.request < |requests| && w.progress[e.request].next < |requests[e.request]| &&
    !w.progress[e.request].refused
  }

  /** One turn of the loop over the rules: the counters and the request's progress afterwards. */
  function Turn(counters: map<Key, Counter>, rule: Rule, p: Progress, now: int): (map<Key, Counter>, Progress) {
    if rule.identity.None? then (counters, p.(next := p.next + 1))
    else
      var counter := Count(counters, rule, now);
      (counters[KeyOf(rule) := counter],
       if counter.count > rule.max then p.(refused := true) else p.(next := p.next + 1))
  }

  function Next(requests: seq<seq<Rule>>, w: World, e: Event): World
    requires Enabled(requests, w, e)
  {
    var p := w.progress[e.request];
    var rule := requests[e.request][p.next];
    var (counters, after) := Turn(w.counters, rule, p, e.now);
    var log := if rule.identity.None? then w.log
               else w.log + [Charge(e.request, p.next, Call(KeyOf(rule), rule.windowMs, e.now),
                                    Count(w.counters, rule, e.now).count)];
    World(counters, w.progress[e.request := after], log)
  }

  function Run(requests: seq<seq<Rule>>, events: seq<Event>): Option<World> {
    if events == [] then Some(Initial(requests))
    else
      var before, e := Run(requests, events[..|events| - 1]), events[|events| - 1];
      if before.Some? && Enabled(requests, before.value, e) then Some(Next(requests, before.value, e)) else None
  }

  // ---------- one step of the loop ----------

  class Limiter {
    const rules: seq<Rule>
    var next: nat
    var refused: bool
    var headers: Option<Headers>

    constructor (rules: seq<Rule>)
      ensures this.rules == rules && next == 0 && !refused && headers == None
    {
      this.rules, next, refused, headers := rules, 0, false, None;
    }

    /** One turn of the loop over the rules, between two waits for the store. */
    method Advance(memory: MemoryCounters, now: int) returns (answer: Option<Answer>)
      requires next < |rules| && !refused && rules[next].windowMs >= 1
      modifies this, memory
      ensures (memory.counters, Progress(next, refused)) ==
              Turn(old(memory.counters), rules[old(next)], Progress(old(next), false), now)
      ensures next == if refused then old(next) else old(next) + 1
      ensures answer == (if refused then Some(TooMany(rules[old(next)].name,
                                                      RetrySeconds(old(memory.counters), rules[old(next)], now)))
                         else None)
      ensures headers == if refused || rules[old(next)].identity.None? then old(headers)
                         else Some(Combine(old(headers), Own(old(memory.counters), rules[old(next)], now)))
    {
      var rule := rules[next];
      answer := None;
      if rule.identity.Some? {
        ghost var before := memory.counters;
        var result := memory.Consume(KeyOf(rule), rule.windowMs, now);
        assert result == ResultOf(Count(before, rule, now), now);
        var remaining := Max(0, rule.max - result.count);
        var retrySeconds := Max(1, CeilSeconds(result.ttlMs));
        if result.count > rule.max {
          refused := true;
          return Some(TooMany(rule.name, retrySeconds));
        }
        headers := Some(Combine(headers, Headers(rule.max, remaining, retrySeconds)));
      }
      next := next + 1;
    }
  }

  // ---------- what the log says ----------

  function Calls(log: seq<Charge>): seq<Call> {
    seq(|log|, i requires 0 <= i < |log| => log[i].call)
  }

  /** Rules with the same key count over the same window. */
  predicate SameWindows(requests: seq<seq<Rule>>) {
    forall r, i, s, j ::
      0 <= r < |requests| && 0 <= i < |requests[r]| && 0 <= s < |requests| && 0 <= j < |requests[s]| ==>
      SameWindow(requests[r][i], requests[s][j])
  }

  predicate SameWindow(a: Rule, b: Rule) {
    a.identity.Some? && b.identity.Some? && KeyOf(a) == KeyOf(b) ==> a.windowMs == b.windowMs
  }

  /** Which call of its window the counted call `j` is, among all calls with its key by any request. */
  function Place(log: seq<Charge>, j: nat): int
    requires j < |log|
  {
    var times := TimesOf(Calls(log), j + 1, log[j].call.key);
    At(times, log[j].call.windowMs, |times| - 1).count
  }

  /** Entry `j` of the log is the call of rule `i` of request `r`. */
  predicate Counted(log: seq<Charge>, r: nat, i: nat, j: nat) {
    j < |log| && log[j].request == r && log[j].rule == i
  }

  predicate IsRule(requests: seq<seq<Rule>>, c: Charge) {
    c.request < |requests| && c.rule < |requests[c.request]| &&
    var rule := requests[c.request][c.rule];
    rule.identity.Some? && c.call.key == KeyOf(rule) && c.call.windowMs == rule.windowMs
  }

  /** A logged call has its place for a count; its rule is behind its request, or is the one that refused it. */
  predicate EntryFits(requests: seq<seq<Rule>>, w: World, j: nat) {
    j < |w.log| && IsRule(requests, w.log[j]) && w.log[j].request < |w.progress| &&
    var c, p := w.log[j], w.progress[w.log[j].request];
    var max := requests[c.request][c.rule].max;
    && c.count == Place(w.log, j)
    && (c.rule < p.next || (p.refused && c.rule == p.next))
    && (c.count <= max <==> c.rule < p.next)
  }

  /** A rule that applies and lies behind its request, or refused it, has been counted. */
  ghost predicate RuleFits(requests: seq<seq<Rule>>, w: World, r: nat, i: nat) {
    r < |requests| && r < |w.progress| && i < |requests[r]| && requests[r][i].identity.Some? &&
    (i < w.progress[r].next || (w.progress[r].refused && i == w.progress[r].next)) ==>
      exists j :: Counted(w.log, r, i, j)
  }

  ghost predicate RefusalFits(requests: seq<seq<Rule>>, w: World, r: nat) {
    r < |requests| && r < |w.progress| && w.progress[r].refused ==>
      w.progress[r].next < |requests[r]| && requests[r][w.progress[r].next].identity.Some?
  }

  ghost predicate Good(requests: seq<seq<Rule>>, w: World) {
    && Matches(requests, w)
    && w.counters == CountersAfter(Calls(w.log), |w.log|)
    && (forall j: nat :: j < |w.log| ==> EntryFits(requests, w, j))
    && (forall r: nat, i: nat :: RuleFits(requests, w, r, i))
    && (forall r: nat :: RefusalFits(requests, w, r))
  }

  lemma {:induction false} TimesPrefix(a: seq<Call>, b: seq<Call>, n: nat, key: Key)
    requires a <= b && n <= |a|
    ensures TimesOf(a, n, key) == TimesOf(b, n, key) && CountersAfter(a, n) == CountersAfter(b, n)
  {
    hide Step;
    if n > 0 {
      TimesPrefix(a, b, n - 1, key);
    }
  }

  lemma PlaceStays(log: seq<Charge>, c: Charge, j: nat)
    requires j < |log|
    ensures Place(log + [c], j) == Place(log, j)
  {
    hide At;
    assert Calls(log) <= Calls(log + [c]);
    TimesPrefix(Calls(log), Calls(log + [c]), j + 1, log[j].call.key);
  }

  /** What the counter says to a new call is its place. */
  lemma NewPlace(requests: seq<seq<Rule>>, w: World, r: nat, i: nat, now: int)
    requires Good(requests, w) && SameWindows(requests) && r < |requests| && i < |requests[r]|
    requires requests[r][i].identity.Some?
    ensures var rule := requests[r][i];
            var counter := Count(w.counters, rule, now);
            var log := w.log + [Charge(r, i, Call(KeyOf(rule), rule.windowMs, now), counter.count)];
            && counter.count == Place(log, |w.log|)
            && w.counters[KeyOf(rule) := counter] == CountersAfter(Calls(log), |log|)
  {
    var rule := requests[r][i];
    var counter, n := Count(w.counters, rule, now), |w.log|;
    var log := w.log + [Charge(r, i, Call(KeyOf(rule), rule.windowMs, now), counter.count)];
    var calls := Calls(log);
    assert Calls(w.log) <= calls && calls[n] == Call(KeyOf(rule), rule.windowMs, now);
    TimesPrefix(Calls(w.log), calls, n, KeyOf(rule));
    hide Step, At;
    forall k | 0 <= k < n + 1 && calls[k].key == KeyOf(rule) ensures calls[k].windowMs == rule.windowMs {
      if k < n {
        assert EntryFits(requests, w, k);
        var c := w.log[k];
        assert SameWindow(requests[c.request][c.rule], rule);
      }
    }
    KeysApart(calls, n + 1, KeyOf(rule), rule.windowMs);
    hide EntryFits;
  }

  lemma StepEntries(requests: seq<seq<Rule>>, w: World, e: Event, j: nat)
    requires Good(requests, w) && SameWindows(requests) && Enabled(requests, w, e)
    requires j < |Next(requests, w, e).log|
    ensures EntryFits(requests, Next(requests, w, e), j)
  {
    var v := Next(requests, w, e);
    if j < |w.log| {
      assert EntryFits(requests, w, j);
      if v.log != w.log {
        PlaceStays(w.log, v.log[|w.log|], j);
        assert v.log == w.log + [v.log[|w.log|]];
      }
      hide Place, Count;
    } else {
      NewPlace(requests, w, e.request, w.progress[e.request].next, e.now);
      hide Place, Count;
    }
  }

  lemma StepRules(requests: seq<seq<Rule>>, w: World, e: Event, r: nat, i: nat)
    requires Good(requests, w) && Enabled(requests, w, e)
    ensures RuleFits(requests, Next(requests, w, e), r, i) && RefusalFits(requests, Next(requests, w, e), r)
  {
    var v := Next(requests, w, e);
    assert RuleFits(requests, w, r, i) && RefusalFits(requests, w, r);
    hide EntryFits, Count, CountersAfter;
    if j :| Counted(w.log, r, i, j) {
      assert Counted(v.log, r, i, j);
    } else {
      assert |v.log| > |w.log| && v.log[|w.log|].request == r && v.log[|w.log|].rule == i ==>
             Counted(v.log, r, i, |w.log|);
    }
  }

  lemma StepGood(requests: seq<seq<Rule>>, w: World, e: Event)
    requires Good(requests, w) && SameWindows(requests) && Enabled(requests, w, e)
    ensures Good(requests, Next(requests, w, e))
  {
    var v := Next(requests, w, e);
    var p := w.progress[e.request];
    if requests[e.request][p.next].identity.Some? {
      NewPlace(requests, w, e.request, p.next, e.now);
    }
    assert v.counters == CountersAfter(Calls(v.log), |v.log|);
    assert Matches(requests, v) by {
      hide Count, CountersAfter;
    }
    hide CountersAfter, Calls, EntryFits, RuleFits, RefusalFits, Next, Matches;
    forall j: nat | j < |v.log| ensures EntryFits(requests, v, j) {
      StepEntries(requests, w, e, j);
    }
    forall r: nat, i: nat ensures RuleFits(requests, v, r, i) {
      StepRules(requests, w, e, r, i);
    }
    forall r: nat ensures RefusalFits(requests, v, r) {
      StepRules(requests, w, e, r, 0);
    }
  }

  lemma {:induction false} RunGood(requests: seq<seq<Rule>>, events: seq<Event>)
    requires SameWindows(requests) && Run(requests, events).Some?
    ensures Good(requests, Run(requests, events).value)
  {
    if events != [] {
      hide Good, SameWindows, Next;
      RunGood(requests, events[..|events| - 1]);
      StepGood(requests, Run(requests, events[..|events| - 1]).value, events[|events| - 1]);
    } else {
      assert Calls([]) == [];
    }
  }

  // ---------- when a request passes ----------

  predicate Finished(requests: seq<seq<Rule>>, w: World, r: nat)
    requires Matches(requests, w) && r < |requests|
  {
    w.progress[r].refused || w.progress[r].next == |requests[r]|
  }

  /** The rule counted this request among the first `max` calls of its key's window. */
  ghost predicate AmongFirst(requests: seq<seq<Rule>>, log: seq<Charge>, r: nat, i: nat)
    requires r < |requests| && i < |requests[r]|
  {
    exists j :: Counted(log, r, i, j) && Place(log, j) <= requests[r][i].max
  }

  /** However requests interleave, one that is done has passed exactly when every rule that applies to it counted it
      among the first `max` calls of the window, by whichever request they came. */
  lemma PassedIff(requests: seq<seq<Rule>>, events: seq<Event>, r: nat)
    requires SameWindows(requests) && Run(requests, events).Some? && r < |requests|
    requires Matches(requests, Run(requests, events).value) && Finished(requests, Run(requests, events).value, r)
    ensures var w := Run(requests, events).value;
            !w.progress[r].refused <==>
            forall i: nat :: i < |requests[r]| && requests[r][i].identity.Some? ==> AmongFirst(requests, w.log, r, i)
  {
    RunGood(requests, events);
    var w := Run(requests, events).value;
    hide Run, Place, CountersAfter, Calls;
    forall i: nat | i < |requests[r]| && requests[r][i].identity.Some?
      ensures AmongFirst(requests, w.log, r, i) <==> i < w.progress[r].next {
      assert RuleFits(requests, w, r, i);
      forall j | Counted(w.log, r, i, j) ensures Place(w.log, j) <= requests[r][i].max <==> i < w.progress[r].next {
        assert EntryFits(requests, w, j);
      }
    }
    assert RefusalFits(requests, w, r);
  }

  /** A refused request was counted over its maximum by one rule and by none behind it. */
  lemma RefusedBy(requests: seq<seq<Rule>>, events: seq<Event>, r: nat)
    requires SameWindows(requests) && Run(requests, events).Some? && r < |requests|
    requires Matches(requests, Run(requests, events).value) && Run(requests, events).value.progress[r].refused
    ensures var w := Run(requests, events).value;
            var i := w.progress[r].next;
            && i < |requests[r]| && requests[r][i].identity.Some?
            && (exists j: nat :: Counted(w.log, r, i, j) && Place(w.log, j) > requests[r][i].max)
            && (forall k: nat, j: nat :: Counted(w.log, r, k, j) ==> k <= i)
  {
    RunGood(requests, events);
    var w := Run(requests, events).value;
    hide Run, Place, CountersAfter, Calls;
    var i := w.progress[r].next;
    assert RefusalFits(requests, w, r) && RuleFits(requests, w, r, i);
    forall k, j | Counted(w.log, r, k, j) ensures k <= i && (k == i ==> Place(w.log, j) > requests[r][i].max) {
      assert EntryFits(requests, w, j);
    }
  }
}
