/** The stored counters that limit public viewing requests, in windows aligned to the clock. */
module PublicViewing {

  const WINDOW_MS: nat := 15 * 60_000

  /** The counter of one scope in one window. */
  datatype Key = Key(window: nat, scope: string)

  datatype Row = Row(count: nat, expiresAt: nat)

  datatype Verdict = Verdict(allowed: bool, remaining: nat, retryAfter: nat)

  function Window(now: nat): nat {
    now / WINDOW_MS
  }

  // ---------- one call ----------

  function Counted(rows: map<Key, Row>, scope: string, now: nat): Row {
    var key := Key(Window(now), scope);
    if key in rows then rows[key].(count := rows[key].count + 1) else Row(1, (Window(now) + 2) * WINDOW_MS)
  }

  /** The store's own removal of expired rows: whatever it picks, only rows past their time go. */
  function Swept(rows: map<Key, Row>, gone: set<Key>, now: nat): map<Key, Row> {
    map key | key in rows && !(key in gone && rows[key].expiresAt <= now) :: rows[key]
  }

  class Counters {
    var rows: map<Key, Row>

    constructor ()
      ensures rows == map[]
    {
      rows := map[];
    }

    /** Counts the call.  A refused caller told to wait `retryAfter` seconds comes back in a later window, and one
        second less would not have been enough. */
    method Consume(scope: string, limit: nat, now: nat) returns (v: Verdict)
      modifies this
      ensures rows == old(rows)[Key(Window(now), scope) := Counted(old(rows), scope, now)]
      ensures v.allowed <==> Counted(old(rows), scope, now).count <= limit
      ensures v.allowed ==> v.remaining + Counted(old(rows), scope, now).count == limit
      ensures !v.allowed ==> v.remaining == 0
      ensures v.retryAfter >= 1 && (now + (v.retryAfter - 1) * 1000) / 900_000 == now / 900_000
      ensures (now + v.retryAfter * 1000) / 900_000 > now / 900_000
      ensures Key(now / 900_000, scope) !in old(rows) ==>
                rows[Key(now / 900_000, scope)] == Row(1, (now / 900_000 + 2) * 900_000)
    {
      var window := Window(now);
      var key := Key(window, scope);
      if key !in rows {
        rows := rows[key := Row(0, (window + 2) * WINDOW_MS)];
      }
      rows := rows[key := rows[key].(count := rows[key].count + 1)];
      var count := rows[key].count;
      var left := (window + 1) * WINDOW_MS - now;
      RetryLater(now);
      return Verdict(count <= limit, if count <= limit then limit - count else 0, (left + 999) / 1000);
    }
  }

  lemma RetryLater(now: nat)
    ensures var left := (Window(now) + 1) * WINDOW_MS - now;
            && 0 < left <= WINDOW_MS
            && var wait := (left + 999) / 1000;
               1 <= wait <= 900 && Window(now + wait * 1000) > Window(now)
                 && Window(now + (wait - 1) * 1000) == Window(now)
  {
    var w := Window(now);
    var left := (w + 1) * WINDOW_MS - now;
    var wait := (left + 999) / 1000;
    assert left <= wait * 1000 < left + 1000;
    WindowOf(now + (wait - 1) * 1000, w);
    WindowOf(now + wait * 1000, Window(now + wait * 1000));
    assert now + wait * 1000 >= (w + 1) * WINDOW_MS;
  }

  lemma WindowOf(at: nat, w: nat)
    ensures Window(at) == w <==> w * WINDOW_MS <= at < (w + 1) * WINDOW_MS
  {
  }

  // ---------- a history of calls and removals ----------

  datatype Event = Call(scope: string, now: nat) | Sweep(gone: set<Key>, now: nat)

  predicate Ordered(h: seq<Event>) {
    forall i, j :: 0 <= i < j < |h| ==> h[i].now <= h[j].now
  }

  function Rows(h: seq<Event>): map<Key, Row> {
    if h == [] then map[]
    else
      var before := Rows(h[..|h| - 1]);
      match h[|h| - 1]
      case Call(scope, now) => before[Key(Window(now), scope) := Counted(before, scope, now)]
      case Sweep(gone, now) => Swept(before, gone, now)
  }

  predicate IsCall(e: Event, key: Key) {
    e.Call? && e.scope == key.scope && Window(e.now) == key.window
  }

  function Calls(h: seq<Event>, key: Key): nat {
    if h == [] then 0 else Calls(h[..|h| - 1], key) + if IsCall(h[|h| - 1], key) then 1 else 0
  }

  /** Until the row of a window may expire, it counts every call made in that window. */
  ghost predicate Exact(h: seq<Event>, key: Key) {
    var row := Rows(h);
    if Calls(h, key) == 0 then key !in row
    else key in row && row[key] == Row(Calls(h, key), (key.window + 2) * WINDOW_MS)
  }

  lemma {:induction false} RowsExact(h: seq<Event>, key: Key, now: nat)
    requires Ordered(h) && (h != [] ==> h[|h| - 1].now <= now) && now < (key.window + 2) * WINDOW_MS
    ensures Exact(h, key)
  {
    hide Window;
    if h != [] {
      var last := h[|h| - 1];
      RowsExact(h[..|h| - 1], key, last.now);
    }
  }

  /** The verdict on a call after this history. */
  predicate Allowed(h: seq<Event>, scope: string, now: nat, limit: nat) {
    Counted(Rows(h), scope, now).count <= limit
  }

  /** Exactly the first `limit` calls of each window are allowed, whenever the store removes expired rows. */
  lemma AllowedIff(h: seq<Event>, scope: string, now: nat, limit: nat)
    requires Ordered(h + [Call(scope, now)])
    ensures Allowed(h, scope, now, limit) <==> Calls(h, Key(Window(now), scope)) < limit
  {
    var all := h + [Call(scope, now)];
    assert forall i :: 0 <= i < |h| ==> all[i] == h[i] && all[i].now <= all[|h|].now;
    WindowOf(now, Window(now));
    RowsExact(h, Key(Window(now), scope), now);
  }

  // ---------- any stretch of one window's length ----------

  /** How many calls of the scope with `lo <= now < hi` were allowed. */
  function Admitted(h: seq<Event>, scope: string, limit: nat, lo: nat, hi: nat): nat {
    if h == [] then 0
    else
      var front, last := h[..|h| - 1], h[|h| - 1];
      Admitted(front, scope, limit, lo, hi) +
      if last.Call? && last.scope == scope && lo <= last.now < hi && Allowed(front, scope, last.now, limit)
      then 1 else 0
  }

  lemma {:induction false} AdmittedInWindow(h: seq<Event>, scope: string, limit: nat, w: nat)
    requires Ordered(h)
    ensures Admitted(h, scope, limit, w * WINDOW_MS, (w + 1) * WINDOW_MS) ==
            if Calls(h, Key(w, scope)) < limit then Calls(h, Key(w, scope)) else limit
  {
    hide Allowed, Window;
    if h != [] {
      var front, last := h[..|h| - 1], h[|h| - 1];
      AdmittedInWindow(front, scope, limit, w);
      WindowOf(last.now, w);
      if last.Call? && last.scope == scope {
        assert h == front + [Call(scope, last.now)];
        AllowedIff(front, scope, last.now, limit);
      }
    }
  }

  lemma {:induction false} AdmittedSplit(h: seq<Event>, scope: string, limit: nat, lo: nat, mid: nat, hi: nat)
    requires lo <= mid <= hi
    ensures Admitted(h, scope, limit, lo, hi) == Admitted(h, scope, limit, lo, mid) + Admitted(h, scope, limit, mid, hi)
  {
    hide Allowed;
    if h != [] {
      AdmittedSplit(h[..|h| - 1], scope, limit, lo, mid, hi);
    }
  }

  /** Any stretch as long as a window admits at most twice the limit. */
  lemma AtMostTwice(h: seq<Event>, scope: string, limit: nat, from: nat)
    requires Ordered(h)
    ensures Admitted(h, scope, limit, from, from + WINDOW_MS) <= 2 * limit
  {
    hide Admitted, Window;
    var w := Window(from);
    WindowOf(from, w);
    var a, b, c := w * WINDOW_MS, (w + 1) * WINDOW_MS, (w + 2) * WINDOW_MS;
    AdmittedInWindow(h, scope, limit, w);
    AdmittedInWindow(h, scope, limit, w + 1);
    AdmittedSplit(h, scope, limit, a, from, b);
    AdmittedSplit(h, scope, limit, from, b, from + WINDOW_MS);
    AdmittedSplit(h, scope, limit, b, from + WINDOW_MS, c);
  }
}
