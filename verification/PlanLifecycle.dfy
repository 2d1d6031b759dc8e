/** The lifecycle migration of plan versions: one current version per plan family. */
module PlanLifecycle {
  import opened Wrappers

  datatype Status = Scheduled | Current | Grandfathered | Retired

  /** What the capacity checks of the later replacement read: the rules version, the rank and base when they are
      integers, whether the add-on limit is present, the lead limits still stored and the fields no new version has. */
  datatype Limits = Limits(
    fixedPolicy: bool, tierRank: Option<int>, base: Option<int>, hasAddonLimit: bool, legacyLeads: seq<int>,
    forbidden: set<string>)

  /** One version of a plan.  `isActive` is false only where it is stored as false; a version without a number is 0. */
  datatype Plan = Plan(
    id: string, planId: string, version: int, status: Option<Status>, isCurrent: bool, isActive: bool,
    from: Option<int>, to: Option<int>, appliedAt: Option<int>, limits: Limits)

  // ---------- the current version of a family ----------

  predicate Effective(row: Plan, now: int) {
    row.isActive && (row.from.None? || row.from.value <= now) && (row.to.None? || row.to.value > now)
  }

  function Since(row: Plan): int {
    if row.from.Some? then row.from.value else 0
  }

  /** Sorts before: effective later, or at the same time with a higher version. */
  predicate Ahead(a: Plan, b: Plan) {
    Since(a) > Since(b) || (Since(a) == Since(b) && a.version > b.version)
  }

  predicate InRun(row: Plan, planId: string, now: int) {
    row.planId == planId && Effective(row, now)
  }

  /** The head of the stable sort of the family's effective versions among the first `n` rows. */
  function Head(rows: seq<Plan>, planId: string, now: int, n: nat): (best: Option<nat>)
    requires n <= |rows|
    ensures best.Some? ==> best.value < n && InRun(rows[best.value], planId, now)
  {
    if n == 0 then None
    else
      var best := Head(rows, planId, now, n - 1);
      if InRun(rows[n - 1], planId, now) && (best.None? || Ahead(rows[n - 1], rows[best.value]))
      then Some(n - 1) else best
  }

  /** The latest effective version of its family; of several the first listed. */
  predicate Latest(rows: seq<Plan>, now: int, i: nat) {
    i < |rows| && Effective(rows[i], now) &&
    forall j :: 0 <= j < |rows| && InRun(rows[j], rows[i].planId, now) ==>
      if j < i then Ahead(rows[i], rows[j]) else !Ahead(rows[j], rows[i])
  }

  lemma {:induction false} HeadBeats(rows: seq<Plan>, planId: string, now: int, n: nat)
    requires n <= |rows|
    ensures var best := Head(rows, planId, now, n);
            && (best.None? ==> forall j :: 0 <= j < n ==> !InRun(rows[j], planId, now))
            && (best.Some? ==> forall j :: 0 <= j < n && InRun(rows[j], planId, now) ==>
                 if j < best.value then Ahead(rows[best.value], rows[j]) else !Ahead(rows[j], rows[best.value]))
  {
    if n > 0 {
      HeadBeats(rows, planId, now, n - 1);
    }
  }

  lemma HeadIsLatest(rows: seq<Plan>, now: int, i: nat)
    requires i < |rows|
    ensures Head(rows, rows[i].planId, now, |rows|) == Some(i) <==> Latest(rows, now, i)
  {
    HeadBeats(rows, rows[i].planId, now, |rows|);
    hide Effective, Head;
  }

  // ---------- what the migration writes ----------

  function StatusFor(rows: seq<Plan>, i: nat, now: int): Status
    requires i < |rows|
  {
    var row, best := rows[i], Head(rows, rows[i].planId, now, |rows|);
    if !row.isActive then Retired
    else if row.from.Some? && row.from.value > now then Scheduled
    else if best.Some? && rows[best.value].id == row.id then Current
    else Grandfathered
  }

  /** The fields set for a row of this status. */
  function Written(row: Plan, status: Status, now: int): Plan {
    row.(status := Some(status), isCurrent := status == Current, isActive := status != Retired,
         appliedAt := match status
           case Scheduled => None
           case Retired => row.appliedAt
           case _ => if row.appliedAt.Some? then row.appliedAt else Some(now),
         to := if status == Retired && row.to.None? then Some(now) else row.to)
  }

  function Planned(rows: seq<Plan>, now: int): seq<Plan> {
    seq(|rows|, i requires 0 <= i < |rows| => Written(rows[i], StatusFor(rows, i, now), now))
  }

  function Cleared(row: Plan): Plan {
    row.(isCurrent := false)
  }

  /** The rows after `k` single writes: first every row loses its flag, then every row is set. */
  function StateAfter(rows: seq<Plan>, now: int, k: nat): seq<Plan>
    requires k <= 2 * |rows|
  {
    seq(|rows|, i requires 0 <= i < |rows| =>
      if |rows| + i < k then Written(rows[i], StatusFor(rows, i, now), now)
      else if i < k then Cleared(rows[i])
      else rows[i])
  }

  predicate NamedPlans(rows: seq<Plan>) {
    forall i :: 0 <= i < |rows| ==> rows[i].planId != ""
  }

  class PlanCollection {
    var rows: seq<Plan>

    constructor (rows: seq<Plan>)
      ensures this.rows == rows
    {
      this.rows := rows;
    }

    /** Clears every flag, then sets the rows as planned; refused when a row has no plan id. */
    method Migrate(now: int) returns (ok: bool)
      modifies this
      ensures ok <==> NamedPlans(old(rows))
      ensures rows == if ok then Planned(old(rows), now) else old(rows)
    {
      ok := NamedPlans(rows);
      if !ok {
        return;
      }
      ghost var was := rows;
      var plan := Planned(rows, now);
      var i := 0;
      while i < |rows|
        invariant 0 <= i <= |rows| == |was|
        invariant rows == StateAfter(was, now, i)
      {
        hide StatusFor, Written;
        rows := rows[i := Cleared(rows[i])];
        i := i + 1;
        assert rows == StateAfter(was, now, i);
      }
      i := 0;
      while i < |rows|
        invariant 0 <= i <= |rows| == |was|
        invariant rows == StateAfter(was, now, |was| + i)
      {
        hide StatusFor, Written, Cleared;
        rows := rows[i := plan[i]];
        i := i + 1;
        assert rows == StateAfter(was, now, |was| + i);
      }
      hide StatusFor, Written;
      assert rows == plan;
    }
  }

  // ---------- at most one flag ----------

  predicate UniqueIds(rows: seq<Plan>) {
    forall i, j :: 0 <= i < j < |rows| ==> rows[i].id != rows[j].id
  }

  predicate OneFlag(rows: seq<Plan>) {
    forall i, j :: 0 <= i < j < |rows| && rows[i].planId == rows[j].planId ==> !(rows[i].isCurrent && rows[j].isCurrent)
  }

  predicate OneStatus(rows: seq<Plan>) {
    forall i, j :: 0 <= i < j < |rows| && rows[i].planId == rows[j].planId ==>
                     !(rows[i].status == Some(Current) && rows[j].status == Some(Current))
  }

  /** Exactly the latest effective version of each family becomes current. */
  lemma CurrentIffLatest(rows: seq<Plan>, now: int, i: nat)
    requires UniqueIds(rows) && i < |rows|
    ensures Planned(rows, now)[i].isCurrent <==> Latest(rows, now, i)
    ensures Planned(rows, now)[i].status == Some(Current) <==> Latest(rows, now, i)
  {
    HeadIsLatest(rows, now, i);
    hide Latest;
    var best := Head(rows, rows[i].planId, now, |rows|);
    if best.Some? {
      assert rows[best.value].id == rows[i].id <==> best.value == i;
    }
  }

  lemma LatestUnique(rows: seq<Plan>, now: int, i: nat, j: nat)
    requires Latest(rows, now, i) && Latest(rows, now, j) && rows[i].planId == rows[j].planId
    ensures i == j
  {
  }

  /** A family has a current version exactly when it has an effective one. */
  lemma CurrentExistsIff(rows: seq<Plan>, now: int, planId: string)
    ensures (exists i: nat :: i < |rows| && rows[i].planId == planId && Latest(rows, now, i)) <==>
            (exists i: nat :: i < |rows| && InRun(rows[i], planId, now))
  {
    var best := Head(rows, planId, now, |rows|);
    HeadBeats(rows, planId, now, |rows|);
    if best.Some? {
      HeadIsLatest(rows, now, best.value);
      hide Head;
      assert Latest(rows, now, best.value);
    }
  }

  /** Every single write keeps at most one flagged version per family. */
  lemma EveryWriteKeepsOneFlag(rows: seq<Plan>, now: int, k: nat)
    requires UniqueIds(rows) && OneFlag(rows) && k <= 2 * |rows|
    ensures OneFlag(StateAfter(rows, now, k))
  {
    hide StatusFor, Latest;
    var state := StateAfter(rows, now, k);
    forall i, j | 0 <= i < j < |state| && state[i].planId == state[j].planId
      ensures !(state[i].isCurrent && state[j].isCurrent) {
      CurrentIffLatest(rows, now, i);
      CurrentIffLatest(rows, now, j);
      if Latest(rows, now, i) && Latest(rows, now, j) {
        LatestUnique(rows, now, i, j);
      }
    }
  }

  /** At most one version with the stored status `current` is kept by every write exactly when no family's new current
      version is listed before the one it takes over from: clearing the flags does not clear the status. */
  lemma EveryWriteKeepsOneStatusIff(rows: seq<Plan>, now: int)
    requires UniqueIds(rows) && OneStatus(rows)
    ensures (forall k: nat :: k <= 2 * |rows| ==> OneStatus(StateAfter(rows, now, k))) <==>
            (forall i: nat, j: nat ::
               i < j < |rows| && rows[i].planId == rows[j].planId && rows[j].status == Some(Current) ==>
               !Latest(rows, now, i))
  {
    hide StatusFor, Latest, OneStatus;
    if i: nat, j: nat :| i < j < |rows| && rows[i].planId == rows[j].planId && rows[j].status == Some(Current) &&
                         Latest(rows, now, i) {
      TwoCurrent(rows, now, i, j);
    } else {
      forall k: nat | k <= 2 * |rows| ensures OneStatus(StateAfter(rows, now, k)) {
        OneCurrentStatus(rows, now, k);
      }
    }
  }

  lemma TwoCurrent(rows: seq<Plan>, now: int, i: nat, j: nat)
    requires UniqueIds(rows) && i < j < |rows| && rows[i].planId == rows[j].planId
    requires rows[j].status == Some(Current) && Latest(rows, now, i)
    ensures |rows| + i + 1 <= 2 * |rows| && !OneStatus(StateAfter(rows, now, |rows| + i + 1))
  {
    hide StatusFor, Latest;
    CurrentIffLatest(rows, now, i);
    var state := StateAfter(rows, now, |rows| + i + 1);
    assert state[i].status == Some(Current) && state[j].status == Some(Current);
  }

  lemma OneCurrentStatus(rows: seq<Plan>, now: int, k: nat)
    requires UniqueIds(rows) && OneStatus(rows) && k <= 2 * |rows|
    requires forall i: nat, j: nat ::
               i < j < |rows| && rows[i].planId == rows[j].planId && rows[j].status == Some(Current) ==>
               !Latest(rows, now, i)
    ensures OneStatus(StateAfter(rows, now, k))
  {
    hide StatusFor, Latest;
    var state := StateAfter(rows, now, k);
    forall i, j | 0 <= i < j < |state| && state[i].planId == state[j].planId
      ensures !(state[i].status == Some(Current) && state[j].status == Some(Current)) {
      CurrentIffLatest(rows, now, i);
      CurrentIffLatest(rows, now, j);
      if Latest(rows, now, i) && Latest(rows, now, j) {
        LatestUnique(rows, now, i, j);
      }
    }
  }

  /** Version 1, effective from 100, takes over from version 2, current since 50: after the third write, at 200, both
      have the status. */
  lemma LowerVersionTakesOver()
    ensures var limits := Limits(true, None, None, false, [], {});
            var rows := [Plan("a", "p", 1, None, false, true, Some(100), None, None, limits),
                         Plan("b", "p", 2, Some(Current), true, true, Some(50), None, None, limits)];
            UniqueIds(rows) && OneFlag(rows) && OneStatus(rows) && !OneStatus(StateAfter(rows, 200, 3))
  {
    var limits := Limits(true, None, None, false, [], {});
    var rows := [Plan("a", "p", 1, None, false, true, Some(100), None, None, limits),
                 Plan("b", "p", 2, Some(Current), true, true, Some(50), None, None, limits)];
    assert Latest(rows, 200, 0);
    hide StateAfter, OneStatus, Latest;
    TwoCurrent(rows, 200, 0, 1);
  }

  // ---------- every field read off the rows before ----------

  /** Active at the instant, by its own fields. */
  predicate InForce(row: Plan, now: int) {
    && row.isActive
    && (row.from.Some? ==> row.from.value <= now)
    && (row.to.Some? ==> now < row.to.value)
  }

  /** The one version in force of its plan, or the one that began last; of those the highest number, of those the
      first listed.  A version without a beginning began at 0. */
  predicate BeganLast(rows: seq<Plan>, now: int, i: nat)
    requires i < |rows|
  {
    forall j :: 0 <= j < |rows| && j != i && rows[j].planId == rows[i].planId && InForce(rows[j], now) ==>
      var a := if rows[i].from.Some? then rows[i].from.value else 0;
      var b := if rows[j].from.Some? then rows[j].from.value else 0;
      a > b || (a == b && (rows[i].version > rows[j].version || (rows[i].version == rows[j].version && i < j)))
  }

  lemma LatestRead(rows: seq<Plan>, now: int, i: nat)
    requires i < |rows|
    ensures Latest(rows, now, i) <==> InForce(rows[i], now) && BeganLast(rows, now, i)
  {
    assert InRun(rows[i], rows[i].planId, now) <==> InForce(rows[i], now);
    assert forall j :: 0 <= j < |rows| ==>
      (InRun(rows[j], rows[i].planId, now) <==> rows[j].planId == rows[i].planId && InForce(rows[j], now));
  }

  /** The migration's outcome for each row: an inactive version is retired and ends now unless it has an end; one that
      begins later is scheduled and loses its date of change; the version in force that began last is current; all
      others are grandfathered.  Nothing else of a row changes. */
  lemma PlannedRow(rows: seq<Plan>, now: int, i: nat)
    requires UniqueIds(rows) && i < |rows|
    ensures var row, p := rows[i], Planned(rows, now)[i];
            var late := row.from.Some? && row.from.value > now;
            && (p.status == Some(Retired) <==> !row.isActive)
            && (p.status == Some(Scheduled) <==> row.isActive && late)
            && (p.status == Some(Current) <==> InForce(row, now) && BeganLast(rows, now, i))
            && (p.status == Some(Grandfathered) <==>
                  row.isActive && !late && !(InForce(row, now) && BeganLast(rows, now, i)))
            && p == row.(status := p.status, isCurrent := p.status == Some(Current),
                         to := if !row.isActive && row.to.None? then Some(now) else row.to,
                         appliedAt := if !row.isActive then row.appliedAt else if late then None
                                      else if row.appliedAt.Some? then row.appliedAt else Some(now))
  {
    CurrentIffLatest(rows, now, i);
    LatestRead(rows, now, i);
    hide Latest, BeganLast, Head, UniqueIds;
    assert Planned(rows, now)[i] == Written(rows[i], StatusFor(rows, i, now), now);
  }

  // ---------- planning again ----------

  lemma {:induction false} HeadSame(a: seq<Plan>, b: seq<Plan>, planId: string, now: int, n: nat)
    requires n <= |a| == |b|
    requires forall i :: 0 <= i < |a| ==>
             a[i].planId == b[i].planId && a[i].version == b[i].version && a[i].from == b[i].from
    requires forall i :: 0 <= i < |a| ==> Effective(a[i], now) == Effective(b[i], now)
    ensures Head(a, planId, now, n) == Head(b, planId, now, n)
  {
    hide Effective;
    if n > 0 {
      HeadSame(a, b, planId, now, n - 1);
    }
  }

  lemma EffectiveKept(rows: seq<Plan>, i: nat, now: int)
    requires i < |rows|
    ensures Effective(Written(rows[i], StatusFor(rows, i, now), now), now) == Effective(rows[i], now)
  {
    hide Head;
  }

  lemma WrittenTwice(row: Plan, status: Status, now: int)
    ensures Written(Written(row, status, now), status, now) == Written(row, status, now)
  {
  }

  /** Planning again at the same instant changes nothing. */
  lemma PlannedTwice(rows: seq<Plan>, now: int)
    ensures Planned(Planned(rows, now), now) == Planned(rows, now)
  {
    var again := Planned(rows, now);
    forall i | 0 <= i < |rows| ensures Effective(again[i], now) == Effective(rows[i], now) {
      EffectiveKept(rows, i, now);
    }
    forall i | 0 <= i < |rows| ensures Planned(again, now)[i] == again[i] {
      PlannedAgainAt(rows, again, i, now);
    }
  }

  lemma PlannedAgainAt(rows: seq<Plan>, again: seq<Plan>, i: nat, now: int)
    requires again == Planned(rows, now) && i < |rows|
    requires forall j :: 0 <= j < |rows| ==> Effective(again[j], now) == Effective(rows[j], now)
    ensures Planned(again, now)[i] == again[i]
  {
    hide Effective;
    HeadSame(again, rows, rows[i].planId, now, |rows|);
    assert StatusFor(again, i, now) == StatusFor(rows, i, now) by {
      hide Head;
      var best := Head(rows, rows[i].planId, now, |rows|);
      assert again[i].id == rows[i].id && again[i].planId == rows[i].planId && again[i].from == rows[i].from;
      assert again[i].isActive == rows[i].isActive;
      assert best.Some? ==> again[best.value].id == rows[best.value].id;
    }
    WrittenTwice(rows[i], StatusFor(rows, i, now), now);
  }
}
