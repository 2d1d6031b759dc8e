/** Replacing the current version of each plan family by a canonical one, with a compare-and-set and an insert. */
module PlanReplacement {
  import opened Wrappers
  import opened PlanLifecycle

  // ---------- the decision for one family ----------

  /** The stored status, else the one the older fields stand for. */
  function Resolve(row: Plan, now: int): Status {
    if row.status.Some? then row.status.value
    else if !row.isActive then Retired
    else if row.from.Some? && row.from.value > now then Scheduled
    else if row.isCurrent then Current
    else Grandfathered
  }

  /** Already in the new form. */
  predicate Ready(limits: Limits) {
    limits.tierRank.Some? && limits.base.Some? && limits.base.value >= 0 && limits.hasAddonLimit
      && limits.forbidden == {}
  }

  /** Can be put into the new form: none of the checks before a replacement blocks it. */
  predicate Replaceable(limits: Limits) {
    && limits.fixedPolicy
    && limits.base.Some? && limits.base.value >= 0
    && (forall i :: 0 <= i < |limits.legacyLeads| ==> limits.legacyLeads[i] == limits.base.value)
    && limits.tierRank.Some? && limits.tierRank.value >= 0
    && limits.hasAddonLimit
  }

  predicate Pending(rows: seq<Plan>, planId: string, now: int, i: int) {
    0 <= i < |rows| && rows[i].planId == planId && Resolve(rows[i], now) == Scheduled && rows[i].isActive
  }

  predicate IsCurrent(rows: seq<Plan>, planId: string, now: int, i: int) {
    0 <= i < |rows| && rows[i].planId == planId && Resolve(rows[i], now) == Current
  }

  /** The highest version of the family, at least 0. */
  function LatestVersion(rows: seq<Plan>, planId: string): (v: int)
    ensures v >= 0
    ensures forall i :: 0 <= i < |rows| && rows[i].planId == planId ==> rows[i].version <= v
  {
    if rows == [] then 0
    else
      var v, row := LatestVersion(rows[..|rows| - 1], planId), rows[|rows| - 1];
      if row.planId == planId && row.version > v then row.version else v
  }

  /** The first current version among the first `n` rows. */
  function FirstCurrent(rows: seq<Plan>, planId: string, now: int, n: nat): (i: Option<nat>)
    requires n <= |rows|
    ensures i.Some? ==> i.value < n && IsCurrent(rows, planId, now, i.value)
    ensures forall k :: 0 <= k < (if i.Some? then i.value else n) ==> !IsCurrent(rows, planId, now, k)
  {
    if n == 0 then None
    else
      var i := FirstCurrent(rows, planId, now, n - 1);
      if i.Some? then i else if IsCurrent(rows, planId, now, n - 1) then Some(n - 1) else None
  }

  predicate HasPending(rows: seq<Plan>, planId: string, now: int) {
    exists k :: 0 <= k < |rows| && Pending(rows, planId, now, k)
  }

  predicate CurrentAfter(rows: seq<Plan>, planId: string, now: int, i: nat) {
    exists k :: i < k < |rows| && IsCurrent(rows, planId, now, k)
  }

  datatype Decision = Keep | Blocked | Replace(i: nat)

  function Decide(rows: seq<Plan>, planId: string, now: int): (d: Decision)
    ensures d.Replace? ==> IsCurrent(rows, planId, now, d.i) && Replaceable(rows[d.i].limits)
  {
    var i := FirstCurrent(rows, planId, now, |rows|);
    if HasPending(rows, planId, now) then Blocked
    else if i.None? then Keep
    else if CurrentAfter(rows, planId, now, i.value) then Blocked
    else if Ready(rows[i.value].limits) then Keep
    else if !Replaceable(rows[i.value].limits) then Blocked
    else Replace(i.value)
  }

  // ---------- the two writes of a replacement ----------

  function Demoted(row: Plan, now: int): Plan {
    row.(status := Some(Grandfathered), isCurrent := false, isActive := true, to := Some(now),
         appliedAt := if row.appliedAt.Some? then row.appliedAt else Some(now))
  }

  /** The canonical version: the same plan, numbered after all of its versions, without the forbidden fields. */
  function Next(row: Plan, id: string, version: int, now: int): Plan
    requires row.limits.base.Some?
  {
    Plan(id, row.planId, version, Some(Current), true, true, Some(now), None, Some(now),
         row.limits.(fixedPolicy := true, legacyLeads := [row.limits.base.value], forbidden := {}))
  }

  /** What the filter of the compare-and-set accepts. */
  predicate StillCurrent(row: Plan) {
    row.status == Some(Current) || (row.status == None && row.isCurrent)
  }

  function Step(rows: seq<Plan>, planId: string, now: int, mint: string -> string): seq<Plan> {
    match Decide(rows, planId, now)
    case Replace(i) =>
      rows[i := Demoted(rows[i], now)] + [Next(rows[i], mint(planId), LatestVersion(rows, planId) + 1, now)]
    case _ => rows
  }

  /** The rows after the first `n` families. */
  function Replaced(rows: seq<Plan>, families: seq<string>, now: int, mint: string -> string, n: nat): seq<Plan>
    requires n <= |families|
  {
    if n == 0 then rows else Step(Replaced(rows, families, now, mint, n - 1), families[n - 1], now, mint)
  }

  predicate HasPlan(rows: seq<Plan>, f: string) {
    exists i :: 0 <= i < |rows| && rows[i].planId == f
  }

  ghost predicate Listed(families: seq<string>, rows: seq<Plan>) {
    && (forall i, j :: 0 <= i < j < |families| ==> families[i] != families[j])
    && (forall f :: f in families <==> HasPlan(rows, f))
  }

  /** The plan ids in the order of their first rows. */
  function Families(rows: seq<Plan>): (r: seq<string>)
    ensures Listed(r, rows)
  {
    if rows == [] then []
    else
      var before, f := Families(rows[..|rows| - 1]), rows[|rows| - 1].planId;
      if f in before then before else before + [f]
  }

  predicate Unblocked(rows: seq<Plan>, now: int) {
    forall i :: 0 <= i < |Families(rows)| ==> Decide(rows, Families(rows)[i], now) != Blocked
  }

  // ---------- a compare-and-set and an insert, whatever else happened to the rows ----------

  class PlanRows {
    var rows: seq<Plan>

    constructor (rows: seq<Plan>)
      ensures this.rows == rows
    {
      this.rows := rows;
    }

    /** The compare-and-set: the row with this id, if it is still current, is grandfathered. */
    method Demote(id: string, appliedAt: Option<int>, now: int) returns (matched: bool)
      modifies this
      ensures |rows| == |old(rows)|
      ensures matched <==> exists i :: 0 <= i < |old(rows)| && old(rows)[i].id == id && StillCurrent(old(rows)[i])
      ensures !matched ==> rows == old(rows)
      ensures matched ==> exists i :: 0 <= i < |rows| && old(rows)[i].id == id && StillCurrent(old(rows)[i]) &&
                            rows == old(rows)[i := Demoted(old(rows)[i].(appliedAt := appliedAt), now)]
    {
      var i := 0;
      while i < |rows|
        invariant 0 <= i <= |rows|
        invariant rows == old(rows)
        invariant forall k :: 0 <= k < i ==> !(rows[k].id == id && StillCurrent(rows[k]))
      {
        if rows[i].id == id && StillCurrent(rows[i]) {
          rows := rows[i := Demoted(rows[i].(appliedAt := appliedAt), now)];
          return true;
        }
        i := i + 1;
      }
      return false;
    }

    /** One replacement as planned.  When the row is no longer current the run is aborted before the insert. */
    method Replace(current: Plan, next: Plan, now: int) returns (ok: bool)
      requires next.planId == current.planId
      requires forall i :: 0 <= i < |rows| && rows[i].id == current.id ==> rows[i].planId == current.planId
      modifies this
      ensures ok <==> exists i :: 0 <= i < |old(rows)| && old(rows)[i].id == current.id && StillCurrent(old(rows)[i])
      ensures !ok ==> rows == old(rows)
      ensures OneCurrent(old(rows)) ==> OneCurrent(rows)
      ensures ok ==> exists i :: 0 <= i < |old(rows)| && old(rows)[i].id == current.id && StillCurrent(old(rows)[i]) &&
                       rows == old(rows)[i := Demoted(old(rows)[i].(appliedAt := current.appliedAt), now)] + [next] &&
                       (OneFlag(old(rows)) && next.isCurrent ==> (OneFlag(rows) <==> NoStrayFlag(old(rows), i)))
      ensures SameVersions(old(rows), rows)
    {
      ok := Demote(current.id, current.appliedAt, now);
      if ok {
        ghost var was := old(rows);
        ghost var i :| 0 <= i < |rows| && was[i].id == current.id && StillCurrent(was[i]) &&
                       rows == was[i := Demoted(was[i].(appliedAt := current.appliedAt), now)];
        OneAfter(was, i, current.appliedAt, next, now);
        if OneFlag(was) && next.isCurrent {
          FlagAfter(was, i, current.appliedAt, next, now);
        }
        rows := rows + [next];
      }
    }

    /** The replacement of one family, if its rows as first read call for one. */
    method ReplaceFamily(read: seq<Plan>, ghost done: seq<string>, f: string, now: int, mint: string -> string)
      requires Unread(read, rows, done) && f !in done && UniqueIds(read)
      requires Decide(rows, f, now) == Decide(read, f, now) && LatestVersion(rows, f) == LatestVersion(read, f)
      modifies this
      ensures rows == Step(old(rows), f, now, mint)
    {
      hide *;
      var d := Decide(read, f, now);
      StepIs(rows, f, now, mint);
      if d.Replace? {
        IsRead(read, rows, done, f, now, d.i);
        var current, next := read[d.i], Next(read[d.i], mint(f), LatestVersion(read, f) + 1, now);
        NextIs(read[d.i], mint(f), LatestVersion(read, f) + 1, now);
        ghost var before := rows;
        var matched := Replace(current, next, now);
        ReplacedAt(before, rows, current, next, now, d.i);
      }
    }

    /** Carries out the replacements planned on the rows as first read; with a blocker nothing is written. */
    method Run(now: int, mint: string -> string) returns (ok: bool)
      requires UniqueIds(rows)
      requires FreshIds(rows, mint)
      modifies this
      ensures ok <==> Unblocked(old(rows), now)
      ensures rows == if ok then After(old(rows), now, mint) else old(rows)
    {
      hide *;
      ok := Unblocked(rows, now);
      if !ok {
        return;
      }
      var read, families := rows, Families(rows);
      UnreadFirst(read, families, now, mint);
      var n := 0;
      while n < |families|
        invariant 0 <= n <= |families|
        invariant rows == Replaced(read, families, now, mint, n)
        invariant Unread(read, rows, families[..n])
      {
        NotYetAt(read, families, now, mint, n);
        UnreadNext(read, rows, families[..n], families[n], now, mint);
        assert families[..n + 1] == families[..n] + [families[n]];
        ReplaceFamily(read, families[..n], families[n], now, mint);
        n := n + 1;
      }
      AfterIs(read, now, mint);
    }
  }

  predicate NewId(read: seq<Plan>, id: string) {
    forall i :: 0 <= i < |read| ==> read[i].id != id
  }

  /** The rows of the families still to come are as first read, and the added rows have ids of their own. */
  ghost predicate Unread(read: seq<Plan>, rows: seq<Plan>, done: seq<string>) {
    && |read| <= |rows|
    && (forall k :: 0 <= k < |read| ==> rows[k].id == read[k].id && rows[k].planId == read[k].planId)
    && (forall k :: 0 <= k < |read| && read[k].planId !in done ==> rows[k] == read[k])
    && (forall k :: |read| <= k < |rows| ==> NewId(read, rows[k].id))
  }

  /** The ids handed out for new versions are not in use. */
  ghost predicate FreshIds(read: seq<Plan>, mint: string -> string) {
    forall f :: f in Families(read) ==> NewId(read, mint(f))
  }

  lemma UnreadFirst(read: seq<Plan>, families: seq<string>, now: int, mint: string -> string)
    ensures Replaced(read, families, now, mint, 0) == read && Unread(read, read, families[..0])
  {
  }

  lemma NotYetAt(read: seq<Plan>, families: seq<string>, now: int, mint: string -> string, n: nat)
    requires n < |families| && families == Families(read) && FreshIds(read, mint)
    ensures families[n] !in families[..n] && NewId(read, mint(families[n]))
    ensures var rows := Replaced(read, families, now, mint, n);
            && Decide(rows, families[n], now) == Decide(read, families[n], now)
            && LatestVersion(rows, families[n]) == LatestVersion(read, families[n])
            && Replaced(read, families, now, mint, n + 1) == Step(rows, families[n], now, mint)
  {
    hide Decide, LatestVersion, Step;
    assert families[n] !in families[..n];
    NotYet(read, families, now, now, mint, n, families[n]);
  }

  lemma StepIs(rows: seq<Plan>, f: string, now: int, mint: string -> string)
    ensures var d := Decide(rows, f, now);
            Step(rows, f, now, mint) ==
              if d.Replace? then rows[d.i := Demoted(rows[d.i], now)] +
                                 [Next(rows[d.i], mint(f), LatestVersion(rows, f) + 1, now)]
              else rows
  {
  }

  lemma NextIs(row: Plan, id: string, version: int, now: int)
    requires row.limits.base.Some?
    ensures Next(row, id, version, now).planId == row.planId
  {
  }

  lemma AfterIs(rows: seq<Plan>, now: int, mint: string -> string)
    ensures After(rows, now, mint) == Replaced(rows, Families(rows), now, mint, |Families(rows)|)
  {
  }

  lemma UnreadNext(read: seq<Plan>, rows: seq<Plan>, done: seq<string>, f: string, now: int, mint: string -> string)
    requires Unread(read, rows, done) && Decide(rows, f, now) == Decide(read, f, now) && NewId(read, mint(f))
    ensures Unread(read, Step(rows, f, now, mint), done + [f])
  {
    var d := Decide(read, f, now);
    hide Decide, LatestVersion, NewId;
  }

  lemma ReplacedAt(before: seq<Plan>, rows: seq<Plan>, current: Plan, next: Plan, now: int, i: nat)
    requires i < |before| && before[i] == current
             && forall k :: 0 <= k < |before| && before[k].id == current.id ==> k == i
    requires exists k :: 0 <= k < |before| && before[k].id == current.id && StillCurrent(before[k]) &&
                         rows == before[k := Demoted(before[k].(appliedAt := current.appliedAt), now)] + [next]
    ensures rows == before[i := Demoted(before[i], now)] + [next]
  {
  }

  /** The row to replace is as first read, and the compare-and-set finds it and only it. */
  lemma IsRead(read: seq<Plan>, rows: seq<Plan>, done: seq<string>, f: string, now: int, i: nat)
    requires Unread(read, rows, done) && f !in done && UniqueIds(read) && Decide(read, f, now) == Replace(i)
    ensures i < |read| <= |rows| && rows[i] == read[i] && StillCurrent(rows[i]) && read[i].limits.base.Some?
    ensures forall k :: 0 <= k < |rows| && rows[k].id == read[i].id ==> k == i
  {
    hide Decide, Ready;
    forall k | 0 <= k < |rows| && k != i ensures rows[k].id != read[i].id {
      if k >= |read| {
        assert NewId(read, rows[k].id);
      }
    }
  }

  /** Counts as current by its status or by its flag. */
  predicate Holds(row: Plan) {
    row.isCurrent || row.status == Some(Current)
  }

  predicate OneCurrent(rows: seq<Plan>) {
    forall i, j :: 0 <= i < j < |rows| && rows[i].planId == rows[j].planId ==> !(Holds(rows[i]) && Holds(rows[j]))
  }

  /** Every version there was is still there, under its id and number, so no tenant's assigned version is lost. */
  predicate SameVersions(before: seq<Plan>, after: seq<Plan>) {
    |before| <= |after| &&
    forall i :: 0 <= i < |before| ==>
      after[i].id == before[i].id && after[i].planId == before[i].planId && after[i].version == before[i].version &&
      after[i].limits == before[i].limits
  }

  /** Both after the demotion and after the insert there is at most one current version per family. */
  lemma OneAfter(rows: seq<Plan>, i: nat, appliedAt: Option<int>, next: Plan, now: int)
    requires i < |rows| && StillCurrent(rows[i]) && next.planId == rows[i].planId
    ensures OneCurrent(rows) ==> OneCurrent(rows[i := Demoted(rows[i].(appliedAt := appliedAt), now)])
    ensures OneCurrent(rows) ==> OneCurrent(rows[i := Demoted(rows[i].(appliedAt := appliedAt), now)] + [next])
    ensures SameVersions(rows, rows[i := Demoted(rows[i].(appliedAt := appliedAt), now)] + [next])
  {
    var less := rows[i := Demoted(rows[i].(appliedAt := appliedAt), now)];
    var more := less + [next];
    if OneCurrent(rows) {
      forall k, m | 0 <= k < m < |more| && more[k].planId == more[m].planId
        ensures !(Holds(more[k]) && Holds(more[m])) {
        if m == |rows| && k != i {
          assert rows[k].planId == rows[i].planId;
        }
      }
      forall k, m | 0 <= k < m < |less| && less[k].planId == less[m].planId
        ensures !(Holds(less[k]) && Holds(less[m])) {
      }
    }
  }

  // ---------- the flag alone ----------

  /** No other row of the family of row `i` carries the flag. */
  predicate NoStrayFlag(rows: seq<Plan>, i: int)
    requires 0 <= i < |rows|
  {
    forall k :: 0 <= k < |rows| && k != i && rows[k].planId == rows[i].planId ==> !rows[k].isCurrent
  }

  /** The demotion keeps at most one flag per family; the insert does exactly when no other version carries one. */
  lemma FlagAfter(rows: seq<Plan>, i: nat, appliedAt: Option<int>, next: Plan, now: int)
    requires i < |rows| && OneFlag(rows) && next.planId == rows[i].planId && next.isCurrent
    ensures OneFlag(rows[i := Demoted(rows[i].(appliedAt := appliedAt), now)])
    ensures OneFlag(rows[i := Demoted(rows[i].(appliedAt := appliedAt), now)] + [next]) <==> NoStrayFlag(rows, i)
  {
    var less := rows[i := Demoted(rows[i].(appliedAt := appliedAt), now)];
    var more := less + [next];
    if NoStrayFlag(rows, i) {
      forall k, m | 0 <= k < m < |more| && more[k].planId == more[m].planId
        ensures !(more[k].isCurrent && more[m].isCurrent) {
        assert m < |rows| && k != i && m != i ==> more[k] == rows[k] && more[m] == rows[m];
      }
    } else {
      var k :| 0 <= k < |rows| && k != i && rows[k].planId == rows[i].planId && rows[k].isCurrent;
      assert more[k] == rows[k] && more[|rows|] == next;
    }
  }

  /** The family has no version to replace, or no flag beside it. */
  predicate FlagFit(rows: seq<Plan>, f: string, now: int) {
    var d := Decide(rows, f, now);
    d.Replace? ==> NoStrayFlag(rows, d.i)
  }

  /** A step keeps at most one flag per family exactly when the family it replaces has no stray one. */
  lemma StepFlagIff(rows: seq<Plan>, f: string, now: int, mint: string -> string)
    requires OneFlag(rows)
    ensures OneFlag(Step(rows, f, now, mint)) <==> FlagFit(rows, f, now)
  {
    hide Decide, LatestVersion, OneFlag, NoStrayFlag;
    StepIs(rows, f, now, mint);
    var d := Decide(rows, f, now);
    if d.Replace? {
      assert rows[d.i].(appliedAt := rows[d.i].appliedAt) == rows[d.i];
      FlagAfter(rows, d.i, rows[d.i].appliedAt, Next(rows[d.i], mint(f), LatestVersion(rows, f) + 1, now), now);
    }
  }

  // ---------- one family's step and the others ----------

  lemma {:induction false} VersionOther(rows: seq<Plan>, i: nat, row: Plan, f: string)
    requires i < |rows| && row.planId == rows[i].planId && (row.planId == f ==> row.version == rows[i].version)
    ensures LatestVersion(rows[i := row], f) == LatestVersion(rows, f)
    decreases |rows|
  {
    var n := |rows| - 1;
    if i < n {
      VersionOther(rows[..n], i, row, f);
      assert rows[i := row][..n] == rows[..n][i := row];
    } else {
      assert rows[i := row][..n] == rows[..n];
    }
  }

  /** The step of another family leaves the latest version of this one. */
  lemma StepVersionOther(rows: seq<Plan>, g: string, f: string, now: int, mint: string -> string)
    requires f != g
    ensures LatestVersion(Step(rows, g, now, mint), f) == LatestVersion(rows, f)
  {
    var d := Decide(rows, g, now);
    if d.Replace? {
      var less := rows[d.i := Demoted(rows[d.i], now)];
      VersionOther(rows, d.i, Demoted(rows[d.i], now), f);
      var after := Step(rows, g, now, mint);
      assert after[..|after| - 1] == less;
    }
  }

  lemma {:induction false} FirstSame(a: seq<Plan>, b: seq<Plan>, f: string, t: int, n: nat)
    requires |a| <= |b| && n <= |a|
    requires forall k :: 0 <= k < |a| ==> IsCurrent(b, f, t, k) == IsCurrent(a, f, t, k)
    ensures FirstCurrent(b, f, t, n) == FirstCurrent(a, f, t, n)
  {
    hide IsCurrent;
    if n > 0 {
      FirstSame(a, b, f, t, n - 1);
    }
  }

  /** Rows that agree for a family, but for rows of other families at the end, get the same decision. */
  lemma DecideSame(a: seq<Plan>, b: seq<Plan>, f: string, t: int)
    requires |a| <= |b| <= |a| + 1
    requires forall k :: 0 <= k < |a| ==> b[k].limits == a[k].limits
    requires forall k :: 0 <= k < |b| ==> SameFor(a, b, f, t, k)
    ensures Decide(b, f, t) == Decide(a, f, t)
  {
    hide IsCurrent, Pending, Ready, Replaceable;
    forall k | 0 <= k < |a| ensures IsCurrent(b, f, t, k) == IsCurrent(a, f, t, k) {
      assert SameFor(a, b, f, t, k);
    }
    FirstSame(a, b, f, t, |a|);
    assert |b| > |a| ==> SameFor(a, b, f, t, |a|);
    assert FirstCurrent(b, f, t, |b|) == FirstCurrent(a, f, t, |a|);
    assert HasPending(b, f, t) == HasPending(a, f, t) by {
      forall k | 0 <= k < |a| && Pending(a, f, t, k) ensures Pending(b, f, t, k) {
        assert SameFor(a, b, f, t, k);
      }
      forall k | 0 <= k < |b| && Pending(b, f, t, k) ensures k < |a| && Pending(a, f, t, k) {
        assert SameFor(a, b, f, t, k);
      }
    }
    var i := FirstCurrent(a, f, t, |a|);
    if i.Some? {
      forall k | i.value < k < |a| && IsCurrent(a, f, t, k) ensures IsCurrent(b, f, t, k) {
        assert SameFor(a, b, f, t, k);
      }
      forall k | i.value < k < |b| && IsCurrent(b, f, t, k) ensures k < |a| && IsCurrent(a, f, t, k) {
        assert SameFor(a, b, f, t, k);
      }
    }
  }

  predicate SameFor(a: seq<Plan>, b: seq<Plan>, f: string, t: int, k: int) {
    if k < |a| then IsCurrent(b, f, t, k) == IsCurrent(a, f, t, k) && Pending(b, f, t, k) == Pending(a, f, t, k)
    else !IsCurrent(b, f, t, k) && !Pending(b, f, t, k)
  }

  /** The step of another family leaves the decision for this one, at any instant. */
  lemma StepDecideOther(rows: seq<Plan>, g: string, f: string, now: int, t: int, mint: string -> string)
    requires f != g
    ensures Decide(Step(rows, g, now, mint), f, t) == Decide(rows, f, t)
  {
    var d, after := Decide(rows, g, now), Step(rows, g, now, mint);
    if d.Replace? {
      hide Decide, Resolve, LatestVersion;
      assert after[d.i].planId == g && rows[d.i].planId == g && after[|rows|].planId == g;
      assert forall k :: 0 <= k < |rows| && k != d.i ==> after[k] == rows[k];
      assert forall k :: 0 <= k < |after| ==> SameFor(rows, after, f, t, k);
      DecideSame(rows, after, f, t);
    }
  }

  lemma ResolveLater(row: Plan, now: int, t: int)
    requires now <= t && (Resolve(row, now) != Scheduled || row.status.Some?)
    ensures Resolve(row, t) == Resolve(row, now)
  {
  }

  lemma KeepLater(rows: seq<Plan>, f: string, now: int, t: int)
    requires now <= t && Decide(rows, f, now) != Blocked
    ensures Decide(rows, f, t) == Decide(rows, f, now)
  {
    hide Ready, Replaceable;
    forall k | 0 <= k < |rows|
      ensures IsCurrent(rows, f, t, k) == IsCurrent(rows, f, now, k)
      ensures Pending(rows, f, t, k) == Pending(rows, f, now, k) {
      assert !Pending(rows, f, now, k);
      if rows[k].planId == f && (Resolve(rows[k], now) != Scheduled || rows[k].status.Some?) {
        ResolveLater(rows[k], now, t);
      }
    }
    hide IsCurrent, Pending;
    FirstLater(rows, f, now, t, |rows|);
  }

  lemma {:induction false} FirstLater(rows: seq<Plan>, f: string, now: int, t: int, n: nat)
    requires n <= |rows|
    requires forall k :: 0 <= k < |rows| ==> IsCurrent(rows, f, t, k) == IsCurrent(rows, f, now, k)
    ensures FirstCurrent(rows, f, t, n) == FirstCurrent(rows, f, now, n)
  {
    hide IsCurrent;
    if n > 0 {
      FirstLater(rows, f, now, t, n - 1);
    }
  }

  /** After its own step a family is kept as it is, then and later. */
  lemma StepDone(rows: seq<Plan>, f: string, now: int, t: int, mint: string -> string)
    requires now <= t && Decide(rows, f, now) != Blocked
    ensures Decide(Step(rows, f, now, mint), f, t) == Keep
  {
    var d := Decide(rows, f, now);
    if d.Replace? {
      KeepLater(rows, f, now, t);
      OnlyCurrent(rows, f, t, d.i);
      StepKept(rows, f, now, t, d.i, Step(rows, f, now, mint), LatestVersion(rows, f) + 1, mint(f));
    } else {
      KeepLater(rows, f, now, t);
    }
  }

  lemma OnlyCurrent(rows: seq<Plan>, f: string, t: int, i: nat)
    requires Decide(rows, f, t) == Replace(i)
    ensures forall k :: 0 <= k < |rows| ==> !Pending(rows, f, t, k) && (IsCurrent(rows, f, t, k) <==> k == i)
  {
  }

  lemma StepKept(rows: seq<Plan>, f: string, now: int, t: int, i: nat, after: seq<Plan>, version: int, id: string)
    requires i < |rows| && Replaceable(rows[i].limits) && rows[i].planId == f
    requires forall k :: 0 <= k < |rows| ==> !Pending(rows, f, t, k) && (IsCurrent(rows, f, t, k) <==> k == i)
    requires after == rows[i := Demoted(rows[i], now)] + [Next(rows[i], id, version, now)]
    ensures Decide(after, f, t) == Keep
  {
    forall k | 0 <= k < |after| ensures !Pending(after, f, t, k) && (IsCurrent(after, f, t, k) <==> k == |rows|) {
      if k < |rows| && k != i {
        assert after[k] == rows[k];
        assert !Pending(rows, f, t, k) && !IsCurrent(rows, f, t, k);
      }
    }
    hide IsCurrent, Pending;
  }

  // ---------- all families ----------

  lemma {:induction false} NotYet(
    rows: seq<Plan>, families: seq<string>, now: int, t: int, mint: string -> string, n: nat, f: string)
    requires n <= |families| && f !in families[..n]
    ensures Decide(Replaced(rows, families, now, mint, n), f, t) == Decide(rows, f, t)
    ensures LatestVersion(Replaced(rows, families, now, mint, n), f) == LatestVersion(rows, f)
  {
    hide Decide, Step, LatestVersion;
    if n > 0 {
      assert families[..n] == families[..n - 1] + [families[n - 1]];
      var before := Replaced(rows, families, now, mint, n - 1);
      NotYet(rows, families, now, t, mint, n - 1, f);
      StepDecideOther(before, families[n - 1], f, now, t, mint);
      StepVersionOther(before, families[n - 1], f, now, mint);
    }
  }

  lemma {:induction false} DoneKept(
    rows: seq<Plan>, families: seq<string>, now: int, t: int, mint: string -> string, n: nat, k: nat)
    requires k < n <= |families| && now <= t && Decide(rows, families[k], now) != Blocked
    requires forall i, j :: 0 <= i < j < |families| ==> families[i] != families[j]
    ensures Decide(Replaced(rows, families, now, mint, n), families[k], t) == Keep
  {
    hide Decide, Step;
    var before := Replaced(rows, families, now, mint, n - 1);
    if k == n - 1 {
      assert families[k] !in families[..k];
      NotYet(rows, families, now, now, mint, k, families[k]);
      StepDone(before, families[k], now, t, mint);
    } else {
      DoneKept(rows, families, now, t, mint, n - 1, k);
      StepDecideOther(before, families[n - 1], families[k], now, t, mint);
    }
  }

  function After(rows: seq<Plan>, now: int, mint: string -> string): seq<Plan> {
    Replaced(rows, Families(rows), now, mint, |Families(rows)|)
  }

  lemma StepFamilies(rows: seq<Plan>, planId: string, now: int, mint: string -> string, f: string)
    requires HasPlan(Step(rows, planId, now, mint), f)
    ensures HasPlan(rows, f)
  {
    hide Decide, LatestVersion;
    var after, d := Step(rows, planId, now, mint), Decide(rows, planId, now);
    var i :| 0 <= i < |after| && after[i].planId == f;
    if d.Replace? && i == |rows| {
      assert rows[d.i].planId == f;
    } else {
      assert rows[i].planId == f;
    }
  }

  lemma {:induction false} SameFamilies(
    rows: seq<Plan>, families: seq<string>, now: int, mint: string -> string, n: nat, f: string)
    requires n <= |families|
    requires HasPlan(Replaced(rows, families, now, mint, n), f)
    ensures HasPlan(rows, f)
  {
    hide HasPlan, Step;
    if n > 0 {
      StepFamilies(Replaced(rows, families, now, mint, n - 1), families[n - 1], now, mint, f);
      SameFamilies(rows, families, now, mint, n - 1, f);
    }
  }

  lemma {:induction false} NothingToReplace(rows: seq<Plan>, families: seq<string>, t: int, mint: string -> string,
    n: nat)
    requires n <= |families| && forall k :: 0 <= k < |families| ==> Decide(rows, families[k], t) == Keep
    ensures Replaced(rows, families, t, mint, n) == rows
  {
    hide Decide;
    if n > 0 {
      NothingToReplace(rows, families, t, mint, n - 1);
    }
  }

  /** After a run nothing is left to replace or to block: a later run changes nothing. */
  lemma SecondRunIdle(rows: seq<Plan>, now: int, t: int, mint: string -> string, again: string -> string)
    requires now <= t && Unblocked(rows, now)
    ensures Unblocked(After(rows, now, mint), t) && After(After(rows, now, mint), t, again) == After(rows, now, mint)
  {
    hide Decide, Replaced, Families;
    var families, after := Families(rows), After(rows, now, mint);
    forall k | 0 <= k < |Families(after)| ensures Decide(after, Families(after)[k], t) == Keep {
      var f := Families(after)[k];
      assert f in Families(after);
      SameFamilies(rows, families, now, mint, |families|, f);
      assert f in families;
      var i :| 0 <= i < |families| && families[i] == f;
      DoneKept(rows, families, now, t, mint, |families|, i);
    }
    NothingToReplace(after, Families(after), t, again, |Families(after)|);
  }

  /** A replacement gets a version above every earlier one of its plan. */
  lemma NextIsHighest(rows: seq<Plan>, f: string, now: int, mint: string -> string)
    requires Decide(rows, f, now).Replace?
    ensures var after := Step(rows, f, now, mint);
            |after| == |rows| + 1 && after[|rows|].planId == f && Ready(after[|rows|].limits) &&
            Resolve(after[|rows|], now) == Current &&
            forall k :: 0 <= k < |rows| && rows[k].planId == f ==> after[k].version < after[|rows|].version
  {
  }

  /** Over the whole run no family gets a second current version and no version is lost. */
  lemma {:induction false} RunKeeps(rows: seq<Plan>, families: seq<string>, now: int, mint: string -> string, n: nat)
    requires n <= |families|
    ensures OneCurrent(rows) ==> OneCurrent(Replaced(rows, families, now, mint, n))
    ensures SameVersions(rows, Replaced(rows, families, now, mint, n))
  {
    hide OneCurrent, Decide, LatestVersion;
    if n > 0 {
      var before, f := Replaced(rows, families, now, mint, n - 1), families[n - 1];
      RunKeeps(rows, families, now, mint, n - 1);
      StepIs(before, f, now, mint);
      var d := Decide(before, f, now);
      if d.Replace? {
        NextIs(before[d.i], mint(f), LatestVersion(before, f) + 1, now);
        OneAfter(before, d.i, before[d.i].appliedAt,
          Next(before[d.i], mint(f), LatestVersion(before, f) + 1, now), now);
        assert before[d.i].(appliedAt := before[d.i].appliedAt) == before[d.i];
      }
    }
  }

  /** The step of another family leaves the flags of this one. */
  lemma FitOther(rows: seq<Plan>, g: string, f: string, now: int, mint: string -> string)
    requires f != g
    ensures FlagFit(Step(rows, g, now, mint), f, now) <==> FlagFit(rows, f, now)
  {
    StepDecideOther(rows, g, f, now, now, mint);
    var d, e, after := Decide(rows, f, now), Decide(rows, g, now), Step(rows, g, now, mint);
    hide Decide, LatestVersion;
    if d.Replace? && e.Replace? {
      assert forall k :: 0 <= k < |rows| && k != e.i ==> after[k] == rows[k];
      assert after[e.i].planId == g && after[|rows|].planId == g;
    }
  }

  lemma {:induction false} FitNotYet(
    rows: seq<Plan>, families: seq<string>, now: int, mint: string -> string, n: nat, f: string)
    requires n <= |families| && f !in families[..n]
    ensures FlagFit(Replaced(rows, families, now, mint, n), f, now) <==> FlagFit(rows, f, now)
  {
    hide FlagFit, Step;
    if n > 0 {
      assert families[..n] == families[..n - 1] + [families[n - 1]];
      FitNotYet(rows, families, now, mint, n - 1, f);
      FitOther(Replaced(rows, families, now, mint, n - 1), families[n - 1], f, now, mint);
    }
  }

  /** After each of the first `n` families' replacements there is at most one flag per family. */
  ghost predicate FlagsKept(rows: seq<Plan>, families: seq<string>, now: int, mint: string -> string, n: nat)
    requires n <= |families|
  {
    forall m: nat :: m <= n ==> OneFlag(Replaced(rows, families, now, mint, m))
  }

  predicate AllFit(rows: seq<Plan>, families: seq<string>, now: int, n: nat)
    requires n <= |families|
  {
    forall k: nat :: k < n ==> FlagFit(rows, families[k], now)
  }

  lemma FlagsStep(rows: seq<Plan>, families: seq<string>, now: int, mint: string -> string, n: nat)
    requires n <= |families|
    ensures n == 0 ==> (FlagsKept(rows, families, now, mint, n) <==> OneFlag(rows))
    ensures n > 0 ==> (FlagsKept(rows, families, now, mint, n) <==>
                       FlagsKept(rows, families, now, mint, n - 1) &&
                       OneFlag(Step(Replaced(rows, families, now, mint, n - 1), families[n - 1], now, mint)))
  {
    hide OneFlag, Step;
    assert Replaced(rows, families, now, mint, 0) == rows;
    if n > 0 {
      var last := Replaced(rows, families, now, mint, n);
      assert last == Step(Replaced(rows, families, now, mint, n - 1), families[n - 1], now, mint);
      if FlagsKept(rows, families, now, mint, n) {
        assert OneFlag(last);
      }
    }
  }

  /** Replacements go on keeping at most one flag per family exactly as long as no family has a stray flag beside the
      version it replaces. */
  lemma {:induction false} RunFlagIff(rows: seq<Plan>, families: seq<string>, now: int, mint: string -> string, n: nat)
    requires n <= |families| && NoRepeats(families) && OneFlag(rows)
    ensures FlagsKept(rows, families, now, mint, n) <==> AllFit(rows, families, now, n)
  {
    hide OneFlag, FlagFit, Step, Replaced, FlagsKept;
    FlagsStep(rows, families, now, mint, n);
    if n > 0 {
      RunFlagIff(rows, families, now, mint, n - 1);
      var before, f := Replaced(rows, families, now, mint, n - 1), families[n - 1];
      assert f !in families[..n - 1];
      FitNotYet(rows, families, now, mint, n - 1, f);
      if FlagsKept(rows, families, now, mint, n - 1) {
        KeptLast(rows, families, now, mint, n - 1);
        StepFlagIff(before, f, now, mint);
      }
    }
  }

  lemma KeptLast(rows: seq<Plan>, families: seq<string>, now: int, mint: string -> string, n: nat)
    requires n <= |families| && FlagsKept(rows, families, now, mint, n)
    ensures OneFlag(Replaced(rows, families, now, mint, n))
  {
  }

  /** From at most one flag per family every write of a run keeps at most one exactly when no version to be replaced
      has a flagged one beside it. */
  lemma AfterFlagIff(rows: seq<Plan>, now: int, mint: string -> string)
    requires OneFlag(rows)
    ensures FlagsKept(rows, Families(rows), now, mint, |Families(rows)|) <==>
            forall f :: f in Families(rows) ==> FlagFit(rows, f, now)
  {
    var families := Families(rows);
    hide OneFlag, FlagFit, Replaced, Families, FlagsKept;
    RunFlagIff(rows, families, now, mint, |families|);
    forall f | f in families && AllFit(rows, families, now, |families|) ensures FlagFit(rows, f, now) {
      var k :| 0 <= k < |families| && families[k] == f;
    }
  }

  /** Version 1, grandfathered, still carries the flag; version 2 is current by its status alone.  Replacing version 2
      leaves two flags. */
  lemma StrayFlagDoubles(mint: string -> string)
    ensures var limits := Limits(true, Some(1), Some(0), true, [], {"maxLeads"});
            var rows := [Plan("a", "p", 1, Some(Grandfathered), true, true, Some(10), None, None, limits),
                         Plan("b", "p", 2, Some(Current), false, true, Some(20), None, None, limits)];
            && UniqueIds(rows) && OneFlag(rows) && Decide(rows, "p", 50) == Replace(1)
            && !OneFlag(Step(rows, "p", 50, mint))
  {
    var limits := Limits(true, Some(1), Some(0), true, [], {"maxLeads"});
    var rows := [Plan("a", "p", 1, Some(Grandfathered), true, true, Some(10), None, None, limits),
                 Plan("b", "p", 2, Some(Current), false, true, Some(20), None, None, limits)];
    assert IsCurrent(rows, "p", 50, 1) && !IsCurrent(rows, "p", 50, 0);
    assert FirstCurrent(rows, "p", 50, 0) == None && FirstCurrent(rows, "p", 50, 1) == None;
    assert FirstCurrent(rows, "p", 50, 2) == Some(1);
    assert "maxLeads" in limits.forbidden;
    assert Decide(rows, "p", 50) == Replace(1);
    assert rows[0].isCurrent && rows[0].planId == rows[1].planId;
    StepFlagIff(rows, "p", 50, mint);
  }

  // ---------- a run read off the rows before ----------

  /** Counts as current by its own fields: by its status, or without one by its flag while active and begun. */
  predicate ActsCurrent(row: Plan, now: int) {
    || row.status == Some(Current)
    || (row.status.None? && row.isActive && row.isCurrent && (row.from.Some? ==> row.from.value <= now))
  }

  /** Still to come: active, and scheduled by its status or, without one, by its beginning. */
  predicate ToCome(row: Plan, now: int) {
    row.isActive && (row.status == Some(Scheduled) || (row.status.None? && row.from.Some? && row.from.value > now))
  }

  /** A current version that is not in the new form. */
  predicate Outdated(row: Plan, now: int) {
    var l := row.limits;
    ActsCurrent(row, now) &&
    !(l.tierRank.Some? && l.base.Some? && l.base.value >= 0 && l.hasAddonLimit && l.forbidden == {})
  }

  /** Can be put into the new form: a fixed policy, integer base and rank from 0, an add-on limit, and no stored lead
      limit that differs from the base. */
  predicate Convertible(row: Plan) {
    var l := row.limits;
    && l.fixedPolicy && l.hasAddonLimit
    && l.tierRank.Some? && l.tierRank.value >= 0 && l.base.Some? && l.base.value >= 0
    && (forall n :: n in l.legacyLeads ==> n == l.base.value)
  }

  /** Nothing stands in the way of a run: no version is still to come, no plan has two current versions, and every
      outdated one can be converted. */
  ghost predicate Clear(rows: seq<Plan>, now: int) {
    && (forall i :: 0 <= i < |rows| ==> !ToCome(rows[i], now))
    && (forall i, j :: 0 <= i < j < |rows| && rows[i].planId == rows[j].planId ==>
          !(ActsCurrent(rows[i], now) && ActsCurrent(rows[j], now)))
    && (forall i :: 0 <= i < |rows| && Outdated(rows[i], now) ==> Convertible(rows[i]))
  }

  lemma CurrentRead(rows: seq<Plan>, f: string, now: int, i: int)
    ensures IsCurrent(rows, f, now, i) <==> 0 <= i < |rows| && rows[i].planId == f && ActsCurrent(rows[i], now)
    ensures Pending(rows, f, now, i) <==> 0 <= i < |rows| && rows[i].planId == f && ToCome(rows[i], now)
  {
  }

  lemma FormRead(row: Plan, now: int)
    ensures ActsCurrent(row, now) ==> (Outdated(row, now) <==> !Ready(row.limits))
    ensures Replaceable(row.limits) <==> Convertible(row)
  {
    var leads := row.limits.legacyLeads;
    assert forall i :: 0 <= i < |leads| ==> leads[i] in leads;
  }

  /** The decision for one plan, read off its rows. */
  lemma DecisionRead(rows: seq<Plan>, f: string, now: int)
    ensures Decide(rows, f, now) == Blocked <==> !ClearFor(rows, f, now)
    ensures forall i: nat :: Decide(rows, f, now) == Replace(i) <==>
              ClearFor(rows, f, now) && i < |rows| && rows[i].planId == f && Outdated(rows[i], now)
  {
    hide Ready, Replaceable, Outdated, Convertible, ActsCurrent, ToCome;
    forall i: int
      ensures IsCurrent(rows, f, now, i) <==> 0 <= i < |rows| && rows[i].planId == f && ActsCurrent(rows[i], now)
      ensures Pending(rows, f, now, i) <==> 0 <= i < |rows| && rows[i].planId == f && ToCome(rows[i], now)
      ensures 0 <= i < |rows| ==> (Replaceable(rows[i].limits) <==> Convertible(rows[i]))
      ensures 0 <= i < |rows| && ActsCurrent(rows[i], now) ==> (Outdated(rows[i], now) <==> !Ready(rows[i].limits))
      ensures 0 <= i < |rows| && Outdated(rows[i], now) ==> ActsCurrent(rows[i], now)
    {
      CurrentRead(rows, f, now, i);
      if 0 <= i < |rows| {
        FormRead(rows[i], now);
        OutdatedActs(rows[i], now);
      }
    }
    hide IsCurrent, Pending;
  }

  lemma OutdatedActs(row: Plan, now: int)
    ensures Outdated(row, now) ==> ActsCurrent(row, now)
  {
  }

  ghost predicate ClearFor(rows: seq<Plan>, f: string, now: int) {
    && (forall i :: 0 <= i < |rows| && rows[i].planId == f ==> !ToCome(rows[i], now))
    && (forall i, j :: 0 <= i < j < |rows| && rows[i].planId == f && rows[j].planId == f ==>
          !(ActsCurrent(rows[i], now) && ActsCurrent(rows[j], now)))
    && (forall i :: 0 <= i < |rows| && rows[i].planId == f && Outdated(rows[i], now) ==> Convertible(rows[i]))
  }

  /** A run writes exactly when nothing stands in its way. */
  lemma UnblockedIff(rows: seq<Plan>, now: int)
    ensures Unblocked(rows, now) <==> Clear(rows, now)
  {
    hide Decide, ToCome, ActsCurrent, Outdated, Convertible, Families;
    var families := Families(rows);
    assert Listed(families, rows);
    forall k: nat | k < |families|
      ensures Decide(rows, families[k], now) != Blocked <==> ClearFor(rows, families[k], now)
    {
      DecisionRead(rows, families[k], now);
    }
    if Unblocked(rows, now) {
      forall i | 0 <= i < |rows| ensures ClearFor(rows, rows[i].planId, now) {
        assert HasPlan(rows, rows[i].planId) && rows[i].planId in families;
      }
    }
    forall k: nat | k < |families| && Clear(rows, now) ensures ClearFor(rows, families[k], now) {
    }
  }

  /** What a version replaced at `now` becomes. */
  predicate Superseded(before: Plan, after: Plan, now: int) {
    after == before.(status := Some(Grandfathered), isCurrent := false, isActive := true, to := Some(now),
                     appliedAt := if before.appliedAt.Some? then before.appliedAt else Some(now))
  }

  /** One above the highest number of the plan, and at least 1. */
  ghost predicate OneAbove(rows: seq<Plan>, planId: string, version: int) {
    && (forall k :: 0 <= k < |rows| && rows[k].planId == planId ==> rows[k].version < version)
    && version >= 1
    && (version == 1 || exists k :: 0 <= k < |rows| && rows[k].planId == planId && rows[k].version + 1 == version)
  }

  /** The version that takes over: of the same plan, current from now on without an end, numbered one above the
      highest number of the plan, with the old limits in the new form. */
  ghost predicate Succeeds(rows: seq<Plan>, i: nat, next: Plan, id: string, now: int)
    requires i < |rows|
  {
    var l, m := rows[i].limits, next.limits;
    && next.id == id && next.planId == rows[i].planId
    && next.status == Some(Current) && next.isCurrent && next.isActive
    && next.from == Some(now) && next.to == None && next.appliedAt == Some(now)
    && OneAbove(rows, next.planId, next.version)
    && m.tierRank == l.tierRank && m.base == l.base && m.hasAddonLimit == l.hasAddonLimit
    && m.fixedPolicy && m.base.Some? && m.legacyLeads == [m.base.value] && m.forbidden == {}
  }

  lemma {:induction false} VersionIs(rows: seq<Plan>, f: string)
    ensures LatestVersion(rows, f) == 0 ||
            exists k :: 0 <= k < |rows| && rows[k].planId == f && rows[k].version == LatestVersion(rows, f)
  {
    if rows != [] {
      var less := rows[..|rows| - 1];
      VersionIs(less, f);
      if LatestVersion(rows, f) != 0 && LatestVersion(rows, f) == LatestVersion(less, f) {
        var k :| 0 <= k < |less| && less[k].planId == f && less[k].version == LatestVersion(less, f);
        assert rows[k] == less[k];
      } else {
        assert rows[|rows| - 1].version == LatestVersion(rows, f) || LatestVersion(rows, f) == 0;
      }
    }
  }

  /** The rows after the replacements of the plans in `done`, read off the rows before. */
  ghost predicate ReadUpTo(rows: seq<Plan>, after: seq<Plan>, done: seq<string>, now: int, mint: string -> string) {
    && RowsRead(rows, after, done, now)
    && Successors(rows, after, done, now, mint)
    && Added(rows, after, done, now, mint)
    && OneEach(rows, after)
  }

  predicate RowsRead(rows: seq<Plan>, after: seq<Plan>, done: seq<string>, now: int) {
    |rows| <= |after| && forall k :: 0 <= k < |rows| ==> RowRead(rows, after, done, now, k)
  }

  ghost predicate Successors(rows: seq<Plan>, after: seq<Plan>, done: seq<string>, now: int, mint: string -> string) {
    forall k: nat :: k < |rows| && rows[k].planId in done && Outdated(rows[k], now) ==>
      HasSuccessor(rows, after, now, mint, k)
  }

  ghost predicate Added(rows: seq<Plan>, after: seq<Plan>, done: seq<string>, now: int, mint: string -> string) {
    forall j: nat :: |rows| <= j < |after| ==> Replaces(rows, after[j], now, mint) && after[j].planId in done
  }

  ghost predicate HasSuccessor(rows: seq<Plan>, after: seq<Plan>, now: int, mint: string -> string, k: nat)
    requires k < |rows|
  {
    exists j: nat :: |rows| <= j < |after| && Succeeds(rows, k, after[j], mint(rows[k].planId), now)
  }

  /** The added versions belong to different plans. */
  predicate OneEach(rows: seq<Plan>, after: seq<Plan>) {
    forall i: nat, j: nat :: |rows| <= i < j < |after| ==> after[i].planId != after[j].planId
  }

  predicate RowRead(rows: seq<Plan>, after: seq<Plan>, done: seq<string>, now: int, k: int)
    requires 0 <= k < |rows| <= |after|
  {
    if rows[k].planId in done && Outdated(rows[k], now) then Superseded(rows[k], after[k], now)
    else after[k] == rows[k]
  }

  /** The row is the successor of some outdated version. */
  ghost predicate Replaces(rows: seq<Plan>, next: Plan, now: int, mint: string -> string) {
    exists k: nat :: k < |rows| && Outdated(rows[k], now) && Succeeds(rows, k, next, mint(rows[k].planId), now)
  }

  lemma NextSucceeds(rows: seq<Plan>, i: nat, id: string, now: int)
    requires i < |rows| && rows[i].limits.base.Some?
    ensures Succeeds(rows, i, Next(rows[i], id, LatestVersion(rows, rows[i].planId) + 1, now), id, now)
    ensures Superseded(rows[i], Demoted(rows[i], now), now)
  {
    VersionIs(rows, rows[i].planId);
  }

  lemma ReadStep(rows: seq<Plan>, before: seq<Plan>, done: seq<string>, f: string, now: int, mint: string -> string)
    requires ReadUpTo(rows, before, done, now, mint) && f !in done && Decide(rows, f, now) != Blocked
    requires Decide(before, f, now) == Decide(rows, f, now) && LatestVersion(before, f) == LatestVersion(rows, f)
    ensures ReadUpTo(rows, Step(before, f, now, mint), done + [f], now, mint)
  {
    hide *;
    var d := Decide(rows, f, now);
    StepIs(before, f, now, mint);
    DecisionRead(rows, f, now);
    if d.Replace? {
      var i := d.i;
      DecidedHere(rows, before, f, now, i);
      OldRow(rows, before, done, f, now, mint, i);
      NextSucceeds(rows, i, mint(f), now);
      ReadAdd(rows, before, done, f, now, mint, i,
        Demoted(rows[i], now), Next(rows[i], mint(f), LatestVersion(rows, f) + 1, now));
    } else {
      forall k: nat | k < |rows| && rows[k].planId == f ensures !Outdated(rows[k], now) {
        assert Decide(rows, f, now) != Replace(k);
        NotBlocked(rows, f, now);
      }
      ReadKeep(rows, before, done, f, now, mint);
    }
  }

  lemma NotBlocked(rows: seq<Plan>, f: string, now: int)
    requires Decide(rows, f, now) != Blocked
    ensures ClearFor(rows, f, now)
  {
    DecisionRead(rows, f, now);
  }

  lemma DecidedHere(rows: seq<Plan>, before: seq<Plan>, f: string, now: int, i: nat)
    requires Decide(rows, f, now) == Replace(i)
    ensures i < |rows| && rows[i].planId == f && Outdated(rows[i], now) && rows[i].limits.base.Some?
    ensures forall k: nat :: k < |rows| && rows[k].planId == f && Outdated(rows[k], now) ==> k == i
  {
    DecisionRead(rows, f, now);
    hide Decide, Outdated, ClearFor;
    forall k: nat | k < |rows| && rows[k].planId == f && Outdated(rows[k], now) ensures k == i {
      assert Decide(rows, f, now) == Replace(k);
    }
    HasBase(rows, f, now, i);
  }

  lemma HasBase(rows: seq<Plan>, f: string, now: int, i: nat)
    requires Decide(rows, f, now) == Replace(i)
    ensures i < |rows| && rows[i].limits.base.Some?
  {
    hide Ready;
  }

  lemma OldRow(rows: seq<Plan>, before: seq<Plan>, done: seq<string>, f: string, now: int, mint: string -> string,
               i: nat)
    requires ReadUpTo(rows, before, done, now, mint) && i < |rows| && rows[i].planId == f && f !in done
    ensures i < |before| && before[i] == rows[i]
  {
    assert RowRead(rows, before, done, now, i);
  }

  lemma ReadKeep(rows: seq<Plan>, before: seq<Plan>, done: seq<string>, f: string, now: int, mint: string -> string)
    requires ReadUpTo(rows, before, done, now, mint)
    requires forall k: nat :: k < |rows| && rows[k].planId == f ==> !Outdated(rows[k], now)
    ensures ReadUpTo(rows, before, done + [f], now, mint)
  {
    hide Outdated, HasSuccessor, Superseded, Replaces, OneEach;
    forall k | 0 <= k < |rows| ensures RowRead(rows, before, done + [f], now, k) {
      assert RowRead(rows, before, done, now, k);
    }
  }

  lemma ReadAdd(rows: seq<Plan>, before: seq<Plan>, done: seq<string>, f: string, now: int, mint: string -> string,
                i: nat, demoted: Plan, next: Plan)
    requires ReadUpTo(rows, before, done, now, mint) && f !in done && i < |rows| && rows[i].planId == f
    requires Outdated(rows[i], now) && Superseded(rows[i], demoted, now) && Succeeds(rows, i, next, mint(f), now)
    requires forall k: nat :: k < |rows| && rows[k].planId == f && Outdated(rows[k], now) ==> k == i
    ensures i < |before| && ReadUpTo(rows, before[i := demoted] + [next], done + [f], now, mint)
  {
    hide *;
    ReadParts(rows, before, done, now, mint);
    var after := before[i := demoted] + [next];
    RowsAdd(rows, before, after, done, f, now, i, demoted, next);
    SucceedsPlan(rows, i, next, mint(f), now);
    ReplacesHere(rows, i, next, now, mint);
    SuccessorsAdd(rows, before, after, done, f, now, mint, i);
    AddedAdd(rows, before, after, done, f, now, mint);
    OneMore(rows, before, after, done);
    ReadParts(rows, after, done + [f], now, mint);
  }

  lemma ReadParts(rows: seq<Plan>, after: seq<Plan>, done: seq<string>, now: int, mint: string -> string)
    ensures ReadUpTo(rows, after, done, now, mint) <==>
            RowsRead(rows, after, done, now) && Successors(rows, after, done, now, mint) &&
            Added(rows, after, done, now, mint) && OneEach(rows, after)
    ensures RowsRead(rows, after, done, now) ==> |rows| <= |after|
    ensures Added(rows, after, done, now, mint) ==>
              forall j: nat :: |rows| <= j < |after| ==> after[j].planId in done
  {
    hide RowRead, HasSuccessor, Outdated, Replaces, OneEach;
  }

  lemma RowsAdd(rows: seq<Plan>, before: seq<Plan>, after: seq<Plan>, done: seq<string>, f: string, now: int, i: nat,
                demoted: Plan, next: Plan)
    requires RowsRead(rows, before, done, now) && f !in done && i < |rows| <= |before| && rows[i].planId == f
    requires Outdated(rows[i], now) && Superseded(rows[i], demoted, now)
    requires forall k: nat :: k < |rows| && rows[k].planId == f && Outdated(rows[k], now) ==> k == i
    requires after == before[i := demoted] + [next]
    ensures RowsRead(rows, after, done + [f], now)
  {
    hide Outdated, Superseded;
    forall k | 0 <= k < |rows| ensures RowRead(rows, after, done + [f], now, k) {
      assert RowRead(rows, before, done, now, k);
    }
  }

  lemma SuccessorsAdd(rows: seq<Plan>, before: seq<Plan>, after: seq<Plan>, done: seq<string>, f: string, now: int,
                      mint: string -> string, i: nat)
    requires Successors(rows, before, done, now, mint) && i < |rows| <= |before| < |after| && rows[i].planId == f
    requires forall j: nat :: |rows| <= j < |before| ==> after[j] == before[j]
    requires forall k: nat :: k < |rows| && rows[k].planId == f && Outdated(rows[k], now) ==> k == i
    requires Succeeds(rows, i, after[|after| - 1], mint(f), now)
    ensures Successors(rows, after, done + [f], now, mint)
  {
    hide Outdated, Succeeds, HasSuccessor;
    forall k: nat | k < |rows| && rows[k].planId in done + [f] && Outdated(rows[k], now)
      ensures HasSuccessor(rows, after, now, mint, k)
    {
      if rows[k].planId in done {
        SuccessorKept(rows, before, after, now, mint, k);
      } else {
        SuccessorHere(rows, after, now, mint, k);
      }
    }
  }

  lemma AddedAdd(rows: seq<Plan>, before: seq<Plan>, after: seq<Plan>, done: seq<string>, f: string, now: int,
                 mint: string -> string)
    requires Added(rows, before, done, now, mint) && |rows| <= |before| == |after| - 1
    requires forall j: nat :: |rows| <= j < |before| ==> after[j] == before[j]
    requires Replaces(rows, after[|before|], now, mint) && after[|before|].planId == f
    ensures Added(rows, after, done + [f], now, mint)
  {
    hide Replaces;
  }

  lemma SuccessorKept(rows: seq<Plan>, before: seq<Plan>, after: seq<Plan>, now: int, mint: string -> string, k: nat)
    requires k < |rows| <= |before| <= |after| && forall j :: |rows| <= j < |before| ==> after[j] == before[j]
    requires HasSuccessor(rows, before, now, mint, k)
    ensures HasSuccessor(rows, after, now, mint, k)
  {
    hide Succeeds;
    var j: nat :| |rows| <= j < |before| && Succeeds(rows, k, before[j], mint(rows[k].planId), now);
    assert after[j] == before[j];
  }

  lemma SuccessorHere(rows: seq<Plan>, after: seq<Plan>, now: int, mint: string -> string, k: nat)
    requires k < |rows| < |after| && Succeeds(rows, k, after[|after| - 1], mint(rows[k].planId), now)
    ensures HasSuccessor(rows, after, now, mint, k)
  {
    hide Succeeds;
  }

  lemma ReplacesHere(rows: seq<Plan>, i: nat, next: Plan, now: int, mint: string -> string)
    requires i < |rows| && Outdated(rows[i], now) && Succeeds(rows, i, next, mint(rows[i].planId), now)
    ensures Replaces(rows, next, now, mint)
  {
    hide Succeeds, Outdated;
  }

  lemma OneMore(rows: seq<Plan>, before: seq<Plan>, after: seq<Plan>, done: seq<string>)
    requires OneEach(rows, before) && |rows| <= |before| == |after| - 1
    requires forall j: nat :: |rows| <= j < |before| ==> after[j] == before[j] && before[j].planId in done
    requires after[|before|].planId !in done
    ensures OneEach(rows, after)
  {
  }

  lemma SucceedsPlan(rows: seq<Plan>, i: nat, next: Plan, id: string, now: int)
    requires i < |rows| && Succeeds(rows, i, next, id, now)
    ensures next.planId == rows[i].planId
  {
  }

  lemma {:induction false} ReplacedRead(rows: seq<Plan>, now: int, mint: string -> string, n: nat)
    requires Unblocked(rows, now) && n <= |Families(rows)|
    ensures ReadUpTo(rows, Replaced(rows, Families(rows), now, mint, n), Families(rows)[..n], now, mint)
  {
    hide ReadUpTo, Decide, Step, LatestVersion, Families;
    var families := Families(rows);
    if n == 0 {
      ReadNone(rows, now, mint);
      assert families[..0] == [];
    } else {
      ReplacedRead(rows, now, mint, n - 1);
      assert families[n - 1] !in families[..n - 1];
      NotYet(rows, families, now, now, mint, n - 1, families[n - 1]);
      ReadStep(rows, Replaced(rows, families, now, mint, n - 1), families[..n - 1], families[n - 1], now, mint);
      assert families[..n] == families[..n - 1] + [families[n - 1]];
    }
  }

  lemma ReadNone(rows: seq<Plan>, now: int, mint: string -> string)
    ensures ReadUpTo(rows, rows, [], now, mint)
  {
  }

  /** After a run that writes: every outdated current version is grandfathered, ends now and has exactly one successor,
      every other version is as before, and nothing else was added. */
  lemma RunEnds(rows: seq<Plan>, now: int, mint: string -> string)
    requires Clear(rows, now)
    ensures var after := After(rows, now, mint);
            && |rows| <= |after|
            && (forall k :: 0 <= k < |rows| ==>
                  if Outdated(rows[k], now) then Superseded(rows[k], after[k], now) else after[k] == rows[k])
            && (forall k: nat :: k < |rows| && Outdated(rows[k], now) ==> HasSuccessor(rows, after, now, mint, k))
            && (forall j :: |rows| <= j < |after| ==> Replaces(rows, after[j], now, mint))
            && OneEach(rows, after)
  {
    hide *;
    UnblockedIff(rows, now);
    var families := Families(rows);
    ReplacedRead(rows, now, mint, |families|);
    assert families[..|families|] == families;
    AfterIs(rows, now, mint);
    AllRead(rows, After(rows, now, mint), families, now, mint);
  }

  lemma AllRead(rows: seq<Plan>, after: seq<Plan>, families: seq<string>, now: int, mint: string -> string)
    requires families == Families(rows) && ReadUpTo(rows, after, families, now, mint)
    ensures |rows| <= |after|
    ensures forall k :: 0 <= k < |rows| ==>
              if Outdated(rows[k], now) then Superseded(rows[k], after[k], now) else after[k] == rows[k]
    ensures forall k: nat :: k < |rows| && Outdated(rows[k], now) ==> HasSuccessor(rows, after, now, mint, k)
    ensures forall j :: |rows| <= j < |after| ==> Replaces(rows, after[j], now, mint)
    ensures OneEach(rows, after)
  {
    hide Outdated, HasSuccessor, Superseded, Replaces, OneEach, Families;
    forall k | 0 <= k < |rows| ensures rows[k].planId in families && RowRead(rows, after, families, now, k) {
      assert HasPlan(rows, rows[k].planId);
    }
  }

  /** What the lifecycle migration leaves is where a replacement may start. */
  lemma PlannedOneCurrent(rows: seq<Plan>, now: int)
    requires UniqueIds(rows)
    ensures OneCurrent(PlanLifecycle.Planned(rows, now))
  {
    var planned := PlanLifecycle.Planned(rows, now);
    hide Latest;
    forall i, j | 0 <= i < j < |planned| && planned[i].planId == planned[j].planId
      ensures !(Holds(planned[i]) && Holds(planned[j])) {
      CurrentIffLatest(rows, now, i);
      CurrentIffLatest(rows, now, j);
      if Latest(rows, now, i) && Latest(rows, now, j) {
        LatestUnique(rows, now, i, j);
      }
    }
  }
}
