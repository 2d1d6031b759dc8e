/** The audit of overlapping viewings: one pass over the viewings in order of tenant, date and start, with a
    pruned list of viewings still running, against the answer over all pairs. */
module ViewingSweep {
  import opened Wrappers
  import opened Identity

  datatype Viewing = Viewing(
    id: string, tenant: string, date: string, start: string, end: string, agent: string, property: string)

  datatype Finding = Overlapping(tenant: string, first: string, second: string)

  // ---------- text order and clock times ----------

  /** `a < b` on strings. */
  predicate Below(a: string, b: string) {
    b != "" && (a == "" || a[0] < b[0] || (a[0] == b[0] && Below(a[1..], b[1..])))
  }

  lemma {:induction false} BelowAsym(a: string, b: string)
    ensures !(Below(a, b) && Below(b, a))
    ensures a == b || Below(a, b) || Below(b, a)
    decreases |a|
  {
    if a != "" && b != "" {
      BelowAsym(a[1..], b[1..]);
      assert a == [a[0]] + a[1..] && b == [b[0]] + b[1..];
    }
  }

  lemma {:induction false} BelowTrans(a: string, b: string, c: string)
    requires !Below(b, a) && Below(b, c)
    ensures Below(a, c)
    decreases |a|
  {
    if a != "" && b != "" {
      if a[0] == b[0] && b[0] == c[0] {
        BelowTrans(a[1..], b[1..], c[1..]);
      }
    }
  }

  /** Zero-padded hours and minutes, `HH:MM`. */
  predicate IsClock(t: string) {
    |t| == 5 && IsDigit(t[0]) && IsDigit(t[1]) && t[2] == ':' && IsDigit(t[3]) && IsDigit(t[4]) &&
    Minutes(t) < 24 * 60 && t[3] < '6'
  }

  function Minutes(t: string): int
    requires |t| == 5
  {
    var h := (t[0] as int - '0' as int) * 10 + (t[1] as int - '0' as int);
    var m := (t[3] as int - '0' as int) * 10 + (t[4] as int - '0' as int);
    h * 60 + m
  }

  /** On clock times the order of the strings is the order of the times. */
  lemma ClockOrder(a: string, b: string)
    requires IsClock(a) && IsClock(b)
    ensures Below(a, b) <==> Minutes(a) < Minutes(b)
  {
    BelowFive(a, b);
  }

  lemma BelowFive(a: string, b: string)
    requires |a| == |b| == 5
    ensures Below(a, b) <==>
            a[0] < b[0] || (a[0] == b[0] && (a[1] < b[1] || (a[1] == b[1] && (a[2] < b[2] || (a[2] == b[2] &&
            (a[3] < b[3] || (a[3] == b[3] && a[4] < b[4])))))))
  {
    var a1, b1 := a[1..], b[1..];
    var a2, b2 := a1[1..], b1[1..];
    var a3, b3 := a2[1..], b2[1..];
    var a4, b4 := a3[1..], b3[1..];
    assert Below(a4, b4) <==> a4[0] < b4[0];
    assert Below(a3, b3) <==> a3[0] < b3[0] || (a3[0] == b3[0] && Below(a4, b4));
    assert Below(a2, b2) <==> a2[0] < b2[0] || (a2[0] == b2[0] && Below(a3, b3));
  }

  // ---------- conflicts ----------

  /** Half-open windows, compared as text. */
  predicate WindowsOverlap(start: string, end: string, otherStart: string, otherEnd: string) {
    Below(start, otherEnd) && Below(otherStart, end)
  }

  predicate SameBucket(a: Viewing, b: Viewing) {
    a.tenant == b.tenant && a.date == b.date
  }

  predicate SharesResource(a: Viewing, b: Viewing) {
    a.agent == b.agent || a.property == b.property
  }

  predicate Conflict(a: Viewing, b: Viewing) {
    SameBucket(a, b) && SharesResource(a, b) && WindowsOverlap(a.start, a.end, b.start, b.end)
  }

  ghost predicate During(v: Viewing, t: int)
    requires |v.start| == 5 && |v.end| == 5
  {
    Minutes(v.start) <= t < Minutes(v.end)
  }

  /** Viewings with clock windows conflict exactly when they share a minute as well as an agent or property. */
  lemma ConflictMeansCommonMinute(a: Viewing, b: Viewing)
    requires IsClock(a.start) && IsClock(a.end) && IsClock(b.start) && IsClock(b.end)
    requires Below(a.start, a.end) && Below(b.start, b.end)
    ensures Conflict(a, b) <==>
            SameBucket(a, b) && SharesResource(a, b) && exists t :: During(a, t) && During(b, t)
  {
    ClockOrder(a.start, b.end);
    ClockOrder(b.start, a.end);
    ClockOrder(a.start, a.end);
    ClockOrder(b.start, b.end);
    var t := if Minutes(a.start) < Minutes(b.start) then Minutes(b.start) else Minutes(a.start);
    if Minutes(a.start) < Minutes(b.end) && Minutes(b.start) < Minutes(a.end) {
      assert During(a, t) && During(b, t);
    }
    hide Below, Minutes, IsClock;
  }

  /** The bucket key of the pass. */
  function BucketKey(v: Viewing): string {
    v.tenant + ":" + v.date
  }

  /** Dates hold no colon, so the key tells tenant and date apart. */
  lemma KeyIsBucket(a: Viewing, b: Viewing)
    requires ':' !in a.date && ':' !in b.date
    ensures BucketKey(a) == BucketKey(b) <==> SameBucket(a, b)
  {
    var p, q := BucketKey(a), BucketKey(b);
    if p == q {
      assert p[|a.tenant|] == ':' && q[|b.tenant|] == ':';
      assert forall i :: |a.tenant| < i < |p| ==> p[i] == a.date[i - |a.tenant| - 1];
      assert forall i :: |b.tenant| < i < |q| ==> q[i] == b.date[i - |b.tenant| - 1];
      assert |a.tenant| == |b.tenant|;
      assert a.tenant == p[..|a.tenant|] && b.tenant == q[..|b.tenant|];
      assert a.date == p[|a.tenant| + 1..] && b.date == q[|b.tenant| + 1..];
    }
  }

  // ---------- the answer over all pairs ----------

  /** The earlier viewings among the first `m` that conflict with viewing `j`. */
  function ConflictsWith(rows: seq<Viewing>, j: nat, m: nat): seq<nat>
    requires m <= j < |rows|
  {
    if m == 0 then []
    else
      var before := ConflictsWith(rows, j, m - 1);
      if Conflict(rows[m - 1], rows[j]) then before + [m - 1] else before
  }

  function PairUp(earlier: seq<nat>, j: nat): seq<(nat, nat)> {
    seq(|earlier|, x requires 0 <= x < |earlier| => (earlier[x], j))
  }

  /** All conflicting pairs among the first `n` viewings. */
  function AllPairs(rows: seq<Viewing>, n: nat): seq<(nat, nat)>
    requires n <= |rows|
  {
    if n == 0 then [] else AllPairs(rows, n - 1) + PairUp(ConflictsWith(rows, n - 1, n - 1), n - 1)
  }

  function Report(rows: seq<Viewing>, pairs: seq<(nat, nat)>): seq<Finding>
    requires forall x :: 0 <= x < |pairs| ==> pairs[x].0 < |rows| && pairs[x].1 < |rows|
  {
    seq(|pairs|, x requires 0 <= x < |pairs| =>
      Overlapping(rows[pairs[x].1].tenant, rows[pairs[x].0].id, rows[pairs[x].1].id))
  }

  ghost function ConflictSet(rows: seq<Viewing>, n: nat): set<(nat, nat)>
    requires n <= |rows|
  {
    set i: nat, j: nat | i < j < n && Conflict(rows[i], rows[j]) :: (i, j)
  }

  lemma {:induction false} ConflictsWithAre(rows: seq<Viewing>, j: nat, m: nat)
    requires m <= j < |rows|
    ensures NoRepeats(ConflictsWith(rows, j, m))
    ensures forall i :: i in ConflictsWith(rows, j, m) <==> 0 <= i < m && Conflict(rows[i], rows[j])
  {
    hide Conflict;
    if m > 0 {
      ConflictsWithAre(rows, j, m - 1);
      var before := ConflictsWith(rows, j, m - 1);
      assert forall x :: 0 <= x < |before| ==> before[x] in before;
    }
  }

  /** The list of pairs is exactly the set of conflicting pairs, none twice. */
  lemma {:induction false} AllPairsAre(rows: seq<Viewing>, n: nat)
    requires n <= |rows|
    ensures NoRepeats(AllPairs(rows, n))
    ensures forall p :: p in AllPairs(rows, n) <==> p in ConflictSet(rows, n)
  {
    hide Conflict;
    if n > 0 {
      AllPairsAre(rows, n - 1);
      ConflictsWithAre(rows, n - 1, n - 1);
      var before, more := AllPairs(rows, n - 1), PairUp(ConflictsWith(rows, n - 1, n - 1), n - 1);
      PairUpAre(ConflictsWith(rows, n - 1, n - 1), n - 1);
      ConflictSetGrows(rows, n);
      hide ConflictSet, AllPairs, ConflictsWith, PairUp;
      assert AllPairs(rows, n) == before + more by {
        AllPairsStep(rows, n);
      }
      JoinNoRepeats(before, more);
    }
  }

  lemma AllPairsStep(rows: seq<Viewing>, n: nat)
    requires 0 < n <= |rows|
    ensures AllPairs(rows, n) == AllPairs(rows, n - 1) + PairUp(ConflictsWith(rows, n - 1, n - 1), n - 1)
  {
  }

  lemma PairUpAre(earlier: seq<nat>, j: nat)
    requires NoRepeats(earlier)
    ensures NoRepeats(PairUp(earlier, j)) && forall p :: p in PairUp(earlier, j) <==> p.0 in earlier && p.1 == j
  {
    forall p: (nat, nat) | p.0 in earlier && p.1 == j ensures p in PairUp(earlier, j) {
      var x :| 0 <= x < |earlier| && earlier[x] == p.0;
      assert PairUp(earlier, j)[x] == p;
    }
  }

  lemma ConflictSetGrows(rows: seq<Viewing>, n: nat)
    requires 0 < n <= |rows|
    ensures forall p :: p in ConflictSet(rows, n) <==>
              p in ConflictSet(rows, n - 1) || (p.0 < n - 1 && p.1 == n - 1 && Conflict(rows[p.0], rows[n - 1]))
    ensures forall p :: p in ConflictSet(rows, n - 1) ==> p.1 != n - 1
  {
    hide Conflict;
  }

  lemma JoinNoRepeats<T>(a: seq<T>, b: seq<T>)
    requires NoRepeats(a) && NoRepeats(b) && forall x :: x in a ==> x !in b
    ensures NoRepeats(a + b)
  {
    forall x, y | 0 <= x < y < |a + b| ensures (a + b)[x] != (a + b)[y] {
      if x < |a| <= y {
        assert a[x] in a && b[y - |a|] in b;
      }
    }
  }

  lemma {:induction false} SizeOfList<T>(items: seq<T>, all: set<T>)
    requires NoRepeats(items) && forall x :: x in items <==> x in all
    ensures |items| == |all|
    decreases |items|
  {
    if items != [] {
      var front, last := items[..|items| - 1], items[|items| - 1];
      assert items == front + [last];
      SizeOfList(front, all - {last});
    } else {
      assert all == {};
    }
  }

  // ---------- the pass ----------

  /** Not after, by tenant, date and start. */
  predicate InOrder(a: Viewing, b: Viewing) {
    Below(a.tenant, b.tenant) ||
    (a.tenant == b.tenant && (Below(a.date, b.date) || (a.date == b.date && !Below(b.start, a.start))))
  }

  ghost predicate Ordered(rows: seq<Viewing>) {
    && (forall i :: 0 <= i < |rows| ==> ':' !in rows[i].date)
    && (forall i, j :: 0 <= i < j < |rows| ==> InOrder(rows[i], rows[j]))
  }

  /** Where buckets change, no earlier viewing is in the new bucket. */
  lemma BucketsContiguous(a: Viewing, b: Viewing, c: Viewing)
    requires InOrder(a, b) && InOrder(b, c) && SameBucket(a, c)
    ensures SameBucket(b, c)
  {
    BelowAsym(a.tenant, b.tenant);
    BelowAsym(a.date, b.date);
  }

  predicate Running(previous: Viewing, row: Viewing) {
    Below(row.start, previous.end)
  }

  /** `active.filter(...)`. */
  function StillRunning(active: seq<Viewing>, row: Viewing): seq<Viewing> {
    if active == [] then []
    else
      var before, last := StillRunning(active[..|active| - 1], row), active[|active| - 1];
      if Running(last, row) then before + [last] else before
  }

  /** Of the first `m` viewings, those in the bucket of viewing `j` still running when it starts. */
  function Survivors(rows: seq<Viewing>, j: nat, m: nat): seq<Viewing>
    requires m <= j < |rows|
  {
    if m == 0 then []
    else
      var before, v := Survivors(rows, j, m - 1), rows[m - 1];
      if SameBucket(v, rows[j]) && Running(v, rows[j]) then before + [v] else before
  }

  /** The pruned list when viewing `j` is next: the survivors at viewing `j - 1`, and that viewing. */
  function ActiveBefore(rows: seq<Viewing>, j: nat): seq<Viewing>
    requires j <= |rows|
  {
    if j == 0 then [] else Survivors(rows, j - 1, j - 1) + [rows[j - 1]]
  }

  lemma StillRunningAppend(active: seq<Viewing>, v: Viewing, row: Viewing)
    ensures var before := StillRunning(active, row);
            StillRunning(active + [v], row) == if Running(v, row) then before + [v] else before
  {
    assert (active + [v])[..|active|] == active;
  }

  /** Viewing `j` and the one before are of one bucket. */
  ghost predicate InBucket(rows: seq<Viewing>, j: nat) {
    Ordered(rows) && 0 < j < |rows| && SameBucket(rows[j - 1], rows[j])
  }

  /** Within a bucket, whoever runs at viewing `j` already ran at the viewing before. */
  lemma RanBefore(rows: seq<Viewing>, j: nat, v: Viewing)
    requires InBucket(rows, j)
    ensures SameBucket(v, rows[j - 1]) <==> SameBucket(v, rows[j])
    ensures Running(v, rows[j]) ==> Running(v, rows[j - 1])
  {
    assert InOrder(rows[j - 1], rows[j]);
    hide Ordered, Below;
    BelowAsym(rows[j].tenant, rows[j].tenant);
    BelowAsym(rows[j].date, rows[j].date);
    if Running(v, rows[j]) {
      BelowTrans(rows[j - 1].start, rows[j].start, v.end);
    }
  }

  lemma SurvivorsStep(rows: seq<Viewing>, j: nat, m: nat)
    requires 0 < m <= j < |rows|
    ensures var before, v := Survivors(rows, j, m - 1), rows[m - 1];
            Survivors(rows, j, m) == if SameBucket(v, rows[j]) && Running(v, rows[j]) then before + [v] else before
  {
    hide SameBucket, Running;
  }

  lemma SurvivorsNone(rows: seq<Viewing>, j: nat)
    requires j < |rows|
    ensures Survivors(rows, j, 0) == [] && StillRunning([], rows[j]) == []
  {
  }

  /** What pruning the pruned list keeps of viewing `m - 1` is what pruning all earlier viewings keeps. */
  lemma PruneStep(rows: seq<Viewing>, j: nat, m: nat)
    requires 0 < m < j < |rows| && InBucket(rows, j)
    requires StillRunning(Survivors(rows, j - 1, m - 1), rows[j]) == Survivors(rows, j, m - 1)
    ensures StillRunning(Survivors(rows, j - 1, m), rows[j]) == Survivors(rows, j, m)
  {
    hide *;
    var v := rows[m - 1];
    SurvivorsStep(rows, j - 1, m);
    SurvivorsStep(rows, j, m);
    RanBefore(rows, j, v);
    if SameBucket(v, rows[j]) {
      if Running(v, rows[j - 1]) {
        StillRunningAppend(Survivors(rows, j - 1, m - 1), v, rows[j]);
      }
    }
  }

  /** Pruning at viewing `j - 1` lost nothing that viewing `j` of the same bucket still meets. */
  lemma {:induction false} PruneAgain(rows: seq<Viewing>, j: nat, m: nat)
    requires m < j < |rows| && InBucket(rows, j)
    ensures StillRunning(Survivors(rows, j - 1, m), rows[j]) == Survivors(rows, j, m)
  {
    if m == 0 {
      SurvivorsNone(rows, j - 1);
      SurvivorsNone(rows, j);
    } else {
      hide *;
      PruneAgain(rows, j, m - 1);
      PruneStep(rows, j, m);
    }
  }

  lemma NotInNewBucket(rows: seq<Viewing>, j: nat, i: nat)
    requires Ordered(rows) && i < j < |rows| && !SameBucket(rows[j - 1], rows[j])
    ensures !SameBucket(rows[i], rows[j])
  {
    assert InOrder(rows[j - 1], rows[j]) && (i < j - 1 ==> InOrder(rows[i], rows[j - 1]));
    hide Ordered, InOrder;
    if i < j - 1 && SameBucket(rows[i], rows[j]) {
      BucketsContiguous(rows[i], rows[j - 1], rows[j]);
    }
  }

  lemma {:induction false} NewBucket(rows: seq<Viewing>, j: nat, m: nat)
    requires Ordered(rows) && 0 < j < |rows| && m <= j && !SameBucket(rows[j - 1], rows[j])
    ensures Survivors(rows, j, m) == []
  {
    if m > 0 {
      NewBucket(rows, j, m - 1);
      NotInNewBucket(rows, j, m - 1);
      hide Ordered, SameBucket, Running;
    }
  }

  /** After the bucket check and the filter, the list holds the survivors at viewing `j`. */
  lemma PrunedList(rows: seq<Viewing>, j: nat)
    requires Ordered(rows) && j < |rows|
    ensures var active := if j > 0 && SameBucket(rows[j - 1], rows[j]) then ActiveBefore(rows, j) else [];
            StillRunning(active, rows[j]) == Survivors(rows, j, j)
  {
    SurvivorsNone(rows, j);
    if j > 0 {
      if SameBucket(rows[j - 1], rows[j]) {
        PrunedOnce(rows, j);
      } else {
        NewBucket(rows, j, j);
      }
    }
    hide ActiveBefore, StillRunning, Survivors, Ordered, SameBucket;
  }

  /** Within a bucket: the survivors at the viewing before, and that viewing if it still runs. */
  lemma PrunedOnce(rows: seq<Viewing>, j: nat)
    requires InBucket(rows, j)
    ensures StillRunning(ActiveBefore(rows, j), rows[j]) == Survivors(rows, j, j)
  {
    hide StillRunning, Survivors, Ordered, SameBucket, Running;
    PruneAgain(rows, j, j - 1);
    StillRunningAppend(Survivors(rows, j - 1, j - 1), rows[j - 1], rows[j]);
    SurvivorsStep(rows, j, j);
  }

  /** The bucket variable when viewing `j` is next. */
  function KeyBefore(rows: seq<Viewing>, j: nat): string
    requires j <= |rows|
  {
    if j == 0 then "" else BucketKey(rows[j - 1])
  }

  lemma PrunedByKey(rows: seq<Viewing>, j: nat)
    requires Ordered(rows) && j < |rows|
    ensures var active := if BucketKey(rows[j]) != KeyBefore(rows, j) then [] else ActiveBefore(rows, j);
            StillRunning(active, rows[j]) == Survivors(rows, j, j)
    ensures ActiveBefore(rows, j + 1) == Survivors(rows, j, j) + [rows[j]]
    ensures KeyBefore(rows, j + 1) == BucketKey(rows[j])
  {
    PrunedList(rows, j);
    if j > 0 {
      KeyIsBucket(rows[j - 1], rows[j]);
    }
    hide StillRunning, Survivors, SameBucket, Ordered;
  }

  /** What the inner loop records for a row. */
  function Recorded(active: seq<Viewing>, row: Viewing): seq<Finding> {
    if active == [] then []
    else
      var before, last := Recorded(active[..|active| - 1], row), active[|active| - 1];
      if SharesResource(last, row) && WindowsOverlap(last.start, last.end, row.start, row.end)
      then before + [Overlapping(row.tenant, last.id, row.id)] else before
  }

  predicate InRows(rows: seq<Viewing>, places: seq<nat>) {
    forall x :: 0 <= x < |places| ==> places[x] < |rows|
  }

  /** The findings for a viewing and some earlier ones. */
  function Found(rows: seq<Viewing>, earlier: seq<nat>, j: nat): seq<Finding>
    requires j < |rows| && InRows(rows, earlier)
  {
    Report(rows, PairUp(earlier, j))
  }

  lemma FoundAppend(rows: seq<Viewing>, earlier: seq<nat>, i: nat, j: nat)
    requires i < |rows| && j < |rows| && InRows(rows, earlier)
    ensures InRows(rows, earlier + [i])
    ensures Found(rows, earlier + [i], j) ==
            Found(rows, earlier, j) + [Overlapping(rows[j].tenant, rows[i].id, rows[j].id)]
  {
  }

  lemma RecordedAppend(active: seq<Viewing>, v: Viewing, row: Viewing)
    ensures var before := Recorded(active, row);
            Recorded(active + [v], row) ==
            if SharesResource(v, row) && WindowsOverlap(v.start, v.end, row.start, row.end)
            then before + [Overlapping(row.tenant, v.id, row.id)] else before
  {
    assert (active + [v])[..|active|] == active;
  }

  lemma ConflictRuns(v: Viewing, row: Viewing)
    ensures Conflict(v, row) <==> SameBucket(v, row) && Running(v, row) && SharesResource(v, row) &&
                                  WindowsOverlap(v.start, v.end, row.start, row.end)
  {
  }

  lemma ConflictsStep(rows: seq<Viewing>, j: nat, m: nat)
    requires 0 < m <= j < |rows|
    ensures var before := ConflictsWith(rows, j, m - 1);
            ConflictsWith(rows, j, m) == if Conflict(rows[m - 1], rows[j]) then before + [m - 1] else before
  {
    hide Conflict;
  }

  /** The inner loop over the survivors finds every conflict with an earlier viewing. */
  lemma {:induction false} SurvivorsSuffice(rows: seq<Viewing>, j: nat, m: nat)
    requires m <= j < |rows|
    ensures InRows(rows, ConflictsWith(rows, j, m))
    ensures Recorded(Survivors(rows, j, m), rows[j]) == Found(rows, ConflictsWith(rows, j, m), j)
  {
    if m > 0 {
      hide *;
      SurvivorsSuffice(rows, j, m - 1);
      SufficeStep(rows, j, m);
    }
  }

  lemma SufficeStep(rows: seq<Viewing>, j: nat, m: nat)
    requires 0 < m <= j < |rows| && InRows(rows, ConflictsWith(rows, j, m - 1))
    requires Recorded(Survivors(rows, j, m - 1), rows[j]) == Found(rows, ConflictsWith(rows, j, m - 1), j)
    ensures InRows(rows, ConflictsWith(rows, j, m))
    ensures Recorded(Survivors(rows, j, m), rows[j]) == Found(rows, ConflictsWith(rows, j, m), j)
  {
    hide *;
    var kept, found, v := Survivors(rows, j, m - 1), ConflictsWith(rows, j, m - 1), rows[m - 1];
    SurvivorsStep(rows, j, m);
    ConflictsStep(rows, j, m);
    ConflictRuns(v, rows[j]);
    if SameBucket(v, rows[j]) && Running(v, rows[j]) {
      RecordedAppend(kept, v, rows[j]);
      if Conflict(v, rows[j]) {
        FoundAppend(rows, found, m - 1, j);
      }
    }
  }

  function Take(findings: seq<Finding>): seq<Finding> {
    if |findings| < 500 then findings else findings[..500]
  }

  lemma {:induction false} PairsInRange(rows: seq<Viewing>, n: nat)
    requires n <= |rows|
    ensures forall x :: 0 <= x < |AllPairs(rows, n)| ==> AllPairs(rows, n)[x].0 < n && AllPairs(rows, n)[x].1 < n
  {
    AllPairsAre(rows, n);
    hide Conflict;
    forall x | 0 <= x < |AllPairs(rows, n)| ensures AllPairs(rows, n)[x].0 < n && AllPairs(rows, n)[x].1 < n {
      assert AllPairs(rows, n)[x] in ConflictSet(rows, n);
    }
  }

  /** The findings of the first `n` viewings, all of them. */
  function Findings(rows: seq<Viewing>, n: nat): seq<Finding>
    requires n <= |rows|
  {
    PairsInRange(rows, n);
    Report(rows, AllPairs(rows, n))
  }

  lemma FindingsStep(rows: seq<Viewing>, n: nat)
    requires n < |rows|
    ensures Findings(rows, n + 1) == Findings(rows, n) + Recorded(Survivors(rows, n, n), rows[n])
  {
    PairsInRange(rows, n);
    PairsInRange(rows, n + 1);
    SurvivorsSuffice(rows, n, n);
    hide Conflict;
  }

  // ---------- the answer read off the viewings ----------

  /** Two viewings of one tenant and day, with one agent or one property, each beginning before the other ends. */
  predicate Clash(a: Viewing, b: Viewing) {
    && a.tenant == b.tenant && a.date == b.date
    && (a.agent == b.agent || a.property == b.property)
    && Below(a.start, b.end) && Below(b.start, a.end)
  }

  /** The places of all clashing pairs, in the order of the later viewing and then of the earlier. */
  ghost predicate ListsClashes(rows: seq<Viewing>, pairs: seq<(nat, nat)>) {
    && (forall p :: p in pairs <==> p.0 < p.1 < |rows| && Clash(rows[p.0], rows[p.1]))
    && (forall x, y :: 0 <= x < y < |pairs| ==> Sooner(pairs[x], pairs[y]))
  }

  predicate Sooner(p: (nat, nat), q: (nat, nat)) {
    p.1 < q.1 || (p.1 == q.1 && p.0 < q.0)
  }

  lemma ClashIs(a: Viewing, b: Viewing)
    ensures Conflict(a, b) <==> Clash(a, b)
  {
    hide Below;
  }

  predicate Rising(places: seq<nat>, bound: nat) {
    && (forall x :: 0 <= x < |places| ==> places[x] < bound)
    && (forall x, y :: 0 <= x < y < |places| ==> places[x] < places[y])
  }

  lemma {:induction false} ConflictsRise(rows: seq<Viewing>, j: nat, m: nat)
    requires m <= j < |rows|
    ensures Rising(ConflictsWith(rows, j, m), m)
  {
    hide Conflict;
    if m > 0 {
      ConflictsRise(rows, j, m - 1);
    }
  }

  lemma {:induction false} PairsRise(rows: seq<Viewing>, n: nat)
    requires n <= |rows|
    ensures var pairs := AllPairs(rows, n);
            && (forall x :: 0 <= x < |pairs| ==> pairs[x].1 < n)
            && forall x, y :: 0 <= x < y < |pairs| ==> Sooner(pairs[x], pairs[y])
  {
    hide Conflict, ConflictsWith;
    if n > 0 {
      PairsRise(rows, n - 1);
      ConflictsRise(rows, n - 1, n - 1);
      hide Sooner;
      var earlier := ConflictsWith(rows, n - 1, n - 1);
      var before, more := AllPairs(rows, n - 1), PairUp(earlier, n - 1);
      AllPairsStep(rows, n);
      hide AllPairs;
      forall x, y | 0 <= x < y < |before + more| ensures Sooner((before + more)[x], (before + more)[y]) {
        if x < |before| {
          if y >= |before| {
            SoonerBy(before[x], more[y - |before|]);
          }
        } else {
          SoonerBy(more[x - |before|], more[y - |before|]);
        }
      }
    }
  }

  lemma SoonerBy(p: (nat, nat), q: (nat, nat))
    requires p.1 < q.1 || (p.1 == q.1 && p.0 < q.0)
    ensures Sooner(p, q)
  {
  }

  /** What the quadratic list reports, pair by pair. */
  lemma FindingsRead(rows: seq<Viewing>)
    ensures var pairs := AllPairs(rows, |rows|);
            && ListsClashes(rows, pairs) && |Findings(rows, |rows|)| == |pairs|
            && forall x :: 0 <= x < |pairs| ==> ReportsPair(rows, pairs[x], Findings(rows, |rows|)[x])
  {
    hide Conflict, Clash, AllPairs, Sooner;
    var pairs := AllPairs(rows, |rows|);
    AllPairsAre(rows, |rows|);
    PairsRise(rows, |rows|);
    PairsInRange(rows, |rows|);
    forall p: (nat, nat) | p.0 < p.1 < |rows| ensures Conflict(rows[p.0], rows[p.1]) <==> Clash(rows[p.0], rows[p.1]) {
      ClashIs(rows[p.0], rows[p.1]);
    }
    forall p: (nat, nat)
      ensures p in pairs <==> p.0 < p.1 < |rows| && Clash(rows[p.0], rows[p.1])
    {
      assert p in pairs <==> p in ConflictSet(rows, |rows|);
    }
    forall x | 0 <= x < |pairs| ensures ReportsPair(rows, pairs[x], Findings(rows, |rows|)[x]) {
      assert pairs[x] in pairs;
      ClashTenant(rows[pairs[x].0], rows[pairs[x].1]);
    }
  }

  lemma ClashTenant(a: Viewing, b: Viewing)
    requires Clash(a, b)
    ensures a.tenant == b.tenant
  {
  }

  predicate ReportsPair(rows: seq<Viewing>, p: (nat, nat), f: Finding) {
    p.0 < |rows| && p.1 < |rows| &&
    f.tenant == rows[p.0].tenant == rows[p.1].tenant && f.first == rows[p.0].id && f.second == rows[p.1].id
  }

  class Audit {
    var count: nat
    var findings: seq<Finding>

    constructor ()
      ensures count == 0 && findings == []
    {
      count, findings := 0, [];
    }

    method Record(finding: Finding)
      modifies this
      ensures count == old(count) + 1
      ensures findings == if |old(findings)| < 500 then old(findings) + [finding] else old(findings)
    {
      count := count + 1;
      if |findings| < 500 {
        findings := findings + [finding];
      }
    }
  }

  /** The viewing pass of the audit: it counts every conflicting pair, and keeps the first 500. */
  method Sweep(rows: seq<Viewing>) returns (audit: Audit)
    requires Ordered(rows)
    ensures audit.count == |Findings(rows, |rows|)| == |ConflictSet(rows, |rows|)|
    ensures audit.findings == Take(Findings(rows, |rows|))
    ensures exists pairs ::
              && ListsClashes(rows, pairs) && audit.count == |pairs|
              && |audit.findings| == (if |pairs| < 500 then |pairs| else 500)
              && forall x :: 0 <= x < |audit.findings| ==> ReportsPair(rows, pairs[x], audit.findings[x])
  {
    audit := new Audit();
    var bucket, active := "", [];
    ghost var all: seq<Finding> := Findings(rows, 0);
    assert all == [];
    var i := 0;
    while i < |rows|
      invariant 0 <= i <= |rows|
      invariant active == ActiveBefore(rows, i)
      invariant bucket == KeyBefore(rows, i)
      invariant all == Findings(rows, i) && audit.count == |all| && audit.findings == Take(all)
      modifies audit
    {
      PrunedByKey(rows, i);
      FindingsStep(rows, i);
      hide *;
      var row := rows[i];
      if BucketKey(row) != bucket {
        active := [];
        bucket := BucketKey(row);
      }
      active := StillRunning(active, row);
      RecordAll(audit, active, row, all);
      all := Findings(rows, i + 1);
      active := active + [row];
      i := i + 1;
    }
    AllPairsAre(rows, |rows|);
    SizeOfList(AllPairs(rows, |rows|), ConflictSet(rows, |rows|));
    FindingsRead(rows);
  }

  /** The inner loop of the pass. */
  method RecordAll(audit: Audit, active: seq<Viewing>, row: Viewing, ghost all: seq<Finding>)
    requires audit.count == |all| && audit.findings == Take(all)
    modifies audit
    ensures audit.count == |all + Recorded(active, row)| && audit.findings == Take(all + Recorded(active, row))
  {
    var k := 0;
    while k < |active|
      invariant 0 <= k <= |active|
      invariant audit.count == |all + Recorded(active[..k], row)|
      invariant audit.findings == Take(all + Recorded(active[..k], row))
    {
      hide Below;
      var previous := active[k];
      assert active[..k + 1][..k] == active[..k];
      ghost var sofar := all + Recorded(active[..k], row);
      if SharesResource(previous, row) && WindowsOverlap(previous.start, previous.end, row.start, row.end) {
        audit.Record(Overlapping(row.tenant, previous.id, row.id));
        assert all + Recorded(active[..k + 1], row) == sofar + [Overlapping(row.tenant, previous.id, row.id)];
      } else {
        assert all + Recorded(active[..k + 1], row) == sofar;
      }
      k := k + 1;
    }
    assert active[..k] == active;
  }
}
