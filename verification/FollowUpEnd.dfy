/** What a follow-up run makes of every task, in terms of the tasks and leads it starts from. */
module FollowUpEnd {
  import opened Wrappers
  import opened FollowUp

  // ---------- the description ----------

  predicate OpenDated(lead: Lead) {
    !lead.converted && lead.due != Missing
  }

  /** An active generated task of the lead. */
  predicate TaskFor(task: Task, lead: Lead) {
    task.followUp && task.active && task.org == lead.org && task.lead == Some(lead.id)
  }

  /** Task `k` is the first of them. */
  predicate FirstTask(tasks: seq<Task>, lead: Lead, k: nat) {
    k < |tasks| && TaskFor(tasks[k], lead) && forall j :: 0 <= j < k ==> !TaskFor(tasks[j], lead)
  }

  /** Assigned to the lead's agent, due at its date and holding its slot; all else as it was. */
  predicate SyncedWith(task: Task, after: Task, lead: Lead) {
    && lead.agent == Some(after.agent) && lead.due == At(after.dueAt)
    && after.slot == Some(lead.org + ":" + lead.id)
    && after.org == task.org && after.lead == task.lead && after.followUp == task.followUp
    && after.active == task.active
  }

  predicate MadeFor(after: Task, lead: Lead) {
    TaskFor(after, lead) && SyncedWith(after, after, lead)
  }

  /** No longer active and without a slot; all else as it was. */
  predicate CancelledFrom(task: Task, after: Task) {
    && !after.active && after.slot == None
    && after.org == task.org && after.lead == task.lead && after.followUp == task.followUp
    && after.agent == task.agent && after.dueAt == task.dueAt
  }

  /** A task that was there: brought in step with the open lead it is the first task of, or cancelled if it is an active
      generated one of no open lead with a date, or as it was. */
  ghost predicate TaskEnds(tasks: seq<Task>, leads: seq<Lead>, after: seq<Task>, k: nat) {
    k < |tasks| && k < |after| &&
    if exists lead :: lead in leads && OpenDated(lead) && FirstTask(tasks, lead, k) then
      forall lead :: lead in leads && OpenDated(lead) && FirstTask(tasks, lead, k) ==>
        SyncedWith(tasks[k], after[k], lead)
    else if tasks[k].followUp && tasks[k].active &&
            forall lead :: lead in leads && OpenDated(lead) ==> !TaskFor(tasks[k], lead)
    then CancelledFrom(tasks[k], after[k])
    else after[k] == tasks[k]
  }

  // ---------- the reconcile pass ----------

  lemma FindIff(tasks: seq<Task>, lead: Lead, k: nat)
    ensures k < |tasks| && Find(tasks, lead) == k <==> FirstTask(tasks, lead, k)
  {
    if FirstTask(tasks, lead, k) {
      FindIs(tasks, lead, k);
    }
  }

  lemma FindNone(tasks: seq<Task>, lead: Lead)
    ensures Find(tasks, lead) == |tasks| <==> forall k: nat :: !FirstTask(tasks, lead, k)
  {
    FindIff(tasks, lead, Find(tasks, lead));
    forall k: nat ensures k < |tasks| && Find(tasks, lead) == k <==> FirstTask(tasks, lead, k) {
      FindIff(tasks, lead, k);
    }
    hide FirstTask;
  }

  /** Task `k` of the start after some leads' turns: in step with the lead that used it, or as it was. */
  ghost predicate Reconciled(tasks: seq<Task>, leads: seq<Lead>, n: nat, k: nat, task: Task)
    requires n <= |leads| && AllReady(leads)
  {
    k < |tasks| &&
    if exists m: nat :: m < n && Candidate(leads[m]) && Find(tasks, leads[m]) == k then
      exists m: nat :: m < n && Candidate(leads[m]) && Find(tasks, leads[m]) == k && task == Synced(tasks[k], leads[m])
    else task == tasks[k]
  }

  lemma SameFirst(tasks: seq<Task>, a: Lead, b: Lead)
    requires Find(tasks, a) == Find(tasks, b) < |tasks|
    ensures a.id == b.id
  {
  }

  lemma {:induction false} OldReconciled(tasks: seq<Task>, leads: seq<Lead>, n: nat, k: nat)
    requires AllReady(leads) && ProperIds(leads) && n <= |leads| && k < |tasks|
    ensures k < |ReconcileAll(tasks, leads, n)|
    ensures Reconciled(tasks, leads, n, k, ReconcileAll(tasks, leads, n)[k])
  {
    TasksStay(tasks, leads, n);
    if n > 0 {
      OldReconciled(tasks, leads, n - 1, k);
      var before, lead := ReconcileAll(tasks, leads, n - 1), leads[n - 1];
      ReadyAt(leads, n - 1);
      if Candidate(lead) {
        FindBefore(tasks, leads, n - 1, n - 1);
        if Find(tasks, lead) == k {
          forall m: nat | m < n - 1 ensures Find(tasks, leads[m]) != k {
            if Find(tasks, leads[m]) == k {
              SameFirst(tasks, leads[m], lead);
            }
          }
        }
      }
      TasksStay(tasks, leads, n - 1);
      hide Find, Candidate, Ready, ProperIds;
      ReconciledStep(tasks, leads, n, k);
    }
  }

  lemma ReconciledStep(tasks: seq<Task>, leads: seq<Lead>, n: nat, k: nat)
    requires AllReady(leads) && 0 < n <= |leads| && k < |tasks| <= |ReconcileAll(tasks, leads, n - 1)|
    requires Reconciled(tasks, leads, n - 1, k, ReconcileAll(tasks, leads, n - 1)[k])
    requires Ready(leads[n - 1]) && k < |ReconcileAll(tasks, leads, n)|
    requires Candidate(leads[n - 1]) ==>
               var before := ReconcileAll(tasks, leads, n - 1);
               (Find(before, leads[n - 1]) == k <==> Find(tasks, leads[n - 1]) == k)
    requires Candidate(leads[n - 1]) && Find(tasks, leads[n - 1]) == k ==>
               forall m: nat :: m < n - 1 ==> Find(tasks, leads[m]) != k
    ensures Reconciled(tasks, leads, n, k, ReconcileAll(tasks, leads, n)[k])
  {
    hide Find, Candidate, Ready;
  }

  /** A task added in the reconcile pass is made for an open lead that had none. */
  lemma {:induction false} NewReconciled(tasks: seq<Task>, leads: seq<Lead>, n: nat, k: nat)
    requires AllReady(leads) && ProperIds(leads) && n <= |leads|
    requires |tasks| <= k < |ReconcileAll(tasks, leads, n)|
    ensures exists m: nat :: m < n && Candidate(leads[m]) && Find(tasks, leads[m]) == |tasks| &&
                             Ready(leads[m]) && ReconcileAll(tasks, leads, n)[k] == Generated(leads[m])
  {
    if n > 0 {
      var before, lead := ReconcileAll(tasks, leads, n - 1), leads[n - 1];
      ReadyAt(leads, n - 1);
      TasksStay(tasks, leads, n - 1);
      if k < |before| {
        NewReconciled(tasks, leads, n - 1, k);
      }
      if Candidate(lead) {
        FindBefore(tasks, leads, n - 1, n - 1);
        FindBound(tasks, lead);
      }
      hide Find, Candidate, Ready, ProperIds, Generated, Synced;
    }
  }

  lemma FindBound(tasks: seq<Task>, lead: Lead)
    ensures Find(tasks, lead) <= |tasks|
  {
  }

  // ---------- the cancel pass, and both ----------

  lemma StaleIff(leads: seq<Lead>, task: Task)
    ensures task.followUp && task.active ==>
              (Stale(leads, task) <==> forall lead :: lead in leads && OpenDated(lead) ==> !TaskFor(task, lead))
  {
    if task.followUp && task.active {
      forall lead | lead in leads && OpenDated(lead) && TaskFor(task, lead) ensures !Stale(leads, task) {
      }
    }
  }

  lemma SyncedIs(task: Task, lead: Lead)
    requires Candidate(lead) && Ready(lead)
    ensures OpenDated(lead) && SyncedWith(task, Synced(task, lead), lead)
    ensures TaskFor(task, lead) ==> TaskFor(Synced(task, lead), lead)
    ensures MadeFor(Generated(lead), lead)
  {
  }

  lemma NotRetired(leads: seq<Lead>, task: Task, lead: Lead)
    requires lead in leads && OpenDated(lead) && TaskFor(task, lead)
    ensures Retired(leads, task) == task
  {
    StaleIff(leads, task);
    hide Stale;
  }

  lemma RetiredIs(leads: seq<Lead>, task: Task)
    ensures if task.followUp && task.active && forall lead :: lead in leads && OpenDated(lead) ==> !TaskFor(task, lead)
            then CancelledFrom(task, Retired(leads, task)) else Retired(leads, task) == task
  {
    StaleIff(leads, task);
    hide Stale, TaskFor, OpenDated;
  }

  lemma AfterAt(tasks: seq<Task>, leads: seq<Lead>, k: nat)
    requires AllReady(leads) && k < |ReconcileAll(tasks, leads, |leads|)|
    ensures k < |After(tasks, leads)|
    ensures After(tasks, leads)[k] == Retired(leads, ReconcileAll(tasks, leads, |leads|)[k])
  {
    hide Retired, ReconcileAll;
  }

  /** The lead that used task `k` is the open lead whose first task it is. */
  lemma UsedBy(tasks: seq<Task>, leads: seq<Lead>, k: nat)
    requires AllReady(leads) && k < |tasks|
    ensures (exists m: nat :: m < |leads| && Candidate(leads[m]) && Find(tasks, leads[m]) == k) <==>
            exists lead :: lead in leads && OpenDated(lead) && FirstTask(tasks, lead, k)
  {
    forall m: nat | m < |leads| ensures Find(tasks, leads[m]) == k <==> FirstTask(tasks, leads[m], k) {
      FindIff(tasks, leads[m], k);
    }
    hide Find, FirstTask;
    if exists lead :: lead in leads && OpenDated(lead) && FirstTask(tasks, lead, k) {
      var lead :| lead in leads && OpenDated(lead) && FirstTask(tasks, lead, k);
      var m: nat :| m < |leads| && leads[m] == lead;
      assert Candidate(leads[m]);
    }
    if exists m: nat :: m < |leads| && Candidate(leads[m]) && Find(tasks, leads[m]) == k {
      var m: nat :| m < |leads| && Candidate(leads[m]) && Find(tasks, leads[m]) == k;
      assert leads[m] in leads && OpenDated(leads[m]);
    }
  }

  lemma OneUser(tasks: seq<Task>, leads: seq<Lead>, a: Lead, b: Lead, k: nat)
    requires ProperIds(leads) && a in leads && b in leads && FirstTask(tasks, a, k) && FirstTask(tasks, b, k)
    ensures a == b
  {
    hide FirstTask;
    FirstId(tasks, a, k);
    FirstId(tasks, b, k);
  }

  lemma FirstId(tasks: seq<Task>, lead: Lead, k: nat)
    requires FirstTask(tasks, lead, k)
    ensures k < |tasks| && tasks[k].lead == Some(lead.id)
  {
  }

  lemma UsedEnds(tasks: seq<Task>, leads: seq<Lead>, k: nat)
    requires AllReady(leads) && ProperIds(leads) && k < |tasks|
    requires exists lead :: lead in leads && OpenDated(lead) && FirstTask(tasks, lead, k)
    ensures TaskEnds(tasks, leads, After(tasks, leads), k)
  {
    OldReconciled(tasks, leads, |leads|, k);
    UsedBy(tasks, leads, k);
    AfterAt(tasks, leads, k);
    hide ReconcileAll, After, Find, FirstTask, Candidate, Retired, ProperIds, Synced, SyncedWith;
    var m: nat :| m < |leads| && Candidate(leads[m]) && Find(tasks, leads[m]) == k &&
                  ReconcileAll(tasks, leads, |leads|)[k] == Synced(tasks[k], leads[m]);
    var user := leads[m];
    ReadyAt(leads, m);
    SyncedIs(tasks[k], user);
    FindIff(tasks, user, k);
    FirstFor(tasks, user, k);
    NotRetired(leads, Synced(tasks[k], user), user);
    forall lead | lead in leads && OpenDated(lead) && FirstTask(tasks, lead, k)
      ensures SyncedWith(tasks[k], After(tasks, leads)[k], lead) {
      OneUser(tasks, leads, user, lead, k);
    }
  }

  lemma FirstFor(tasks: seq<Task>, lead: Lead, k: nat)
    requires FirstTask(tasks, lead, k)
    ensures k < |tasks| && TaskFor(tasks[k], lead)
  {
  }

  lemma UnusedEnds(tasks: seq<Task>, leads: seq<Lead>, k: nat)
    requires AllReady(leads) && ProperIds(leads) && k < |tasks|
    requires !exists lead :: lead in leads && OpenDated(lead) && FirstTask(tasks, lead, k)
    ensures TaskEnds(tasks, leads, After(tasks, leads), k)
  {
    OldReconciled(tasks, leads, |leads|, k);
    UsedBy(tasks, leads, k);
    AfterAt(tasks, leads, k);
    RetiredIs(leads, tasks[k]);
    hide ReconcileAll, After, Find, FirstTask, Candidate, Retired, ProperIds, Synced, SyncedWith, OpenDated, TaskFor;
  }

  /** Every task of the start ends as described. */
  lemma OldTasksEnd(tasks: seq<Task>, leads: seq<Lead>, k: nat)
    requires AllReady(leads) && ProperIds(leads) && k < |tasks|
    ensures TaskEnds(tasks, leads, After(tasks, leads), k)
  {
    hide TaskEnds, After, OpenDated, FirstTask, ProperIds, AllReady;
    if exists lead :: lead in leads && OpenDated(lead) && FirstTask(tasks, lead, k) {
      UsedEnds(tasks, leads, k);
    } else {
      UnusedEnds(tasks, leads, k);
    }
  }

  /** Every task beyond them is made for an open lead with a date that had no active task. */
  lemma NewTasksEnd(tasks: seq<Task>, leads: seq<Lead>, k: nat)
    requires AllReady(leads) && ProperIds(leads) && |tasks| <= k < |After(tasks, leads)|
    ensures exists lead :: lead in leads && OpenDated(lead) && (forall j: nat :: !FirstTask(tasks, lead, j)) &&
                           MadeFor(After(tasks, leads)[k], lead)
  {
    AfterIs(tasks, leads);
    NewReconciled(tasks, leads, |leads|, k);
    AfterAt(tasks, leads, k);
    hide ReconcileAll, After, Find, FirstTask, Candidate, Retired, ProperIds, Generated, MadeFor, TaskFor;
    var m: nat :| m < |leads| && Candidate(leads[m]) && Find(tasks, leads[m]) == |tasks| && Ready(leads[m]) &&
                  ReconcileAll(tasks, leads, |leads|)[k] == Generated(leads[m]);
    SyncedIs(Generated(leads[m]), leads[m]);
    FindNone(tasks, leads[m]);
    MadeTask(Generated(leads[m]), leads[m]);
    NotRetired(leads, Generated(leads[m]), leads[m]);
    assert leads[m] in leads;
  }

  lemma MadeTask(task: Task, lead: Lead)
    requires MadeFor(task, lead)
    ensures TaskFor(task, lead)
  {
  }

  lemma CandidateIs(leads: seq<Lead>, m: nat)
    requires AllReady(leads) && m < |leads|
    ensures Candidate(leads[m]) <==> OpenDated(leads[m])
    ensures Candidate(leads[m]) ==> Ready(leads[m])
  {
    ReadyAt(leads, m);
  }

  /** A run stopped at lead `n` has brought the first tasks of earlier leads in step and left every other task of the
      start as it was; nothing is cancelled. */
  lemma StoppedTasks(tasks: seq<Task>, leads: seq<Lead>, n: nat, k: nat)
    requires AllReady(leads) && ProperIds(leads) && n <= |leads| && k < |tasks|
    ensures var after := ReconcileAll(tasks, leads, n);
            && k < |after|
            && (forall m: nat :: m < n && OpenDated(leads[m]) && FirstTask(tasks, leads[m], k) ==>
                  SyncedWith(tasks[k], after[k], leads[m]))
            && ((forall m: nat :: m < n && OpenDated(leads[m]) ==> !FirstTask(tasks, leads[m], k)) ==>
                  after[k] == tasks[k])
  {
    OldReconciled(tasks, leads, n, k);
    hide ReconcileAll, Find, FirstTask, Candidate, ProperIds, AllReady, Ready, OpenDated, Synced, SyncedWith;
    forall m: nat | m < n
      ensures Candidate(leads[m]) <==> OpenDated(leads[m])
      ensures Find(tasks, leads[m]) == k <==> FirstTask(tasks, leads[m], k)
      ensures Candidate(leads[m]) ==> SyncedWith(tasks[k], Synced(tasks[k], leads[m]), leads[m])
    {
      CandidateIs(leads, m);
      FindIff(tasks, leads[m], k);
      if Candidate(leads[m]) {
        SyncedIs(tasks[k], leads[m]);
      }
    }
    forall m: nat, q: nat | m < n && q < n && FirstTask(tasks, leads[m], k) && FirstTask(tasks, leads[q], k)
      ensures leads[m] == leads[q]
    {
      OneUser(tasks, leads, leads[m], leads[q], k);
    }
  }
}
