/** The follow-up reconciliation: open leads with a follow-up date and the tasks generated for them. */
module FollowUp {
  import opened Wrappers

  /** A stored follow-up date; an invalid one is present but is no date. */
  datatype Due = Missing | Invalid | At(ms: int)

  datatype Lead = Lead(id: string, org: string, due: Due, converted: bool, scheduled: bool, agent: Option<string>)

  /** A task: the tenant, the linked lead, whether it is a generated follow-up, whether its status is active,
      the assignee, the due time and the unique key of its active slot. */
  datatype Task = Task(
    org: string, lead: Option<string>, followUp: bool, active: bool, agent: string, dueAt: int, slot: Option<string>)

  // ---------- what blocks a run ----------

  predicate Candidate(lead: Lead) {
    !lead.converted && lead.due != Missing
  }

  /** A blocker: a scheduled lead without a date, a date that is none, no assignee, or one who is no active
      member of the lead's tenant. */
  predicate Blocks(lead: Lead, members: set<(string, string)>) {
    (!lead.converted && lead.scheduled && lead.due == Missing) ||
    (Candidate(lead) && (lead.due == Invalid || lead.agent.None? || (lead.org, lead.agent.value) !in members))
  }

  predicate Blocked(leads: seq<Lead>, members: set<(string, string)>) {
    exists i :: 0 <= i < |leads| && Blocks(leads[i], members)
  }

  predicate Ready(lead: Lead) {
    Candidate(lead) ==> lead.due.At? && lead.agent.Some?
  }

  predicate AllReady(leads: seq<Lead>) {
    forall i :: 0 <= i < |leads| ==> Ready(leads[i])
  }

  /** Ids are hexadecimal: distinct and without a colon. */
  predicate ProperIds(leads: seq<Lead>) {
    (forall i, j :: 0 <= i < j < |leads| ==> leads[i].id != leads[j].id) &&
    (forall i :: 0 <= i < |leads| ==> ':' !in leads[i].id)
  }

  // ---------- the two passes as functions ----------

  /** What `Task.findOne` looks for. */
  predicate Matches(task: Task, lead: Lead) {
    task.org == lead.org && task.lead == Some(lead.id) && task.followUp && task.active
  }

  /** The first match, or the number of tasks. */
  function Find(tasks: seq<Task>, lead: Lead): (i: nat)
    ensures i <= |tasks|
    ensures i < |tasks| ==> Matches(tasks[i], lead)
    ensures forall k :: 0 <= k < i ==> !Matches(tasks[k], lead)
  {
    if tasks == [] || Matches(tasks[0], lead) then 0 else 1 + Find(tasks[1..], lead)
  }

  function Slot(lead: Lead): string {
    lead.org + ":" + lead.id
  }

  /** The unique index on the slot refuses writing this lead's task where another task holds its slot. */
  predicate SlotTaken(tasks: seq<Task>, lead: Lead) {
    exists k :: 0 <= k < |tasks| && k != Find(tasks, lead) && tasks[k].slot == Some(Slot(lead))
  }

  function Synced(task: Task, lead: Lead): Task
    requires Candidate(lead) && Ready(lead)
  {
    task.(agent := lead.agent.value, dueAt := lead.due.ms, slot := Some(Slot(lead)))
  }

  function Generated(lead: Lead): Task
    requires Candidate(lead) && Ready(lead)
  {
    Task(lead.org, Some(lead.id), true, true, lead.agent.value, lead.due.ms, Some(Slot(lead)))
  }

  function Reconcile(tasks: seq<Task>, lead: Lead): seq<Task>
    requires Ready(lead)
  {
    if !Candidate(lead) then tasks
    else
      var i := Find(tasks, lead);
      if i < |tasks| then tasks[i := Synced(tasks[i], lead)] else tasks + [Generated(lead)]
  }

  /** The tasks after the first `n` leads. */
  function ReconcileAll(tasks: seq<Task>, leads: seq<Lead>, n: nat): seq<Task>
    requires AllReady(leads) && n <= |leads|
  {
    if n == 0 then tasks else Reconcile(ReconcileAll(tasks, leads, n - 1), leads[n - 1])
  }

  /** The task's lead is gone, belongs to another tenant, is converted or has no follow-up date. */
  predicate Stale(leads: seq<Lead>, task: Task) {
    !(exists lead :: lead in leads && task.lead == Some(lead.id) &&
                     lead.org == task.org && !lead.converted && lead.due != Missing)
  }

  function Retired(leads: seq<Lead>, task: Task): Task {
    if task.followUp && task.active && Stale(leads, task) then task.(active := false, slot := None) else task
  }

  function CancelStale(tasks: seq<Task>, leads: seq<Lead>): seq<Task> {
    seq(|tasks|, i requires 0 <= i < |tasks| => Retired(leads, tasks[i]))
  }

  function After(tasks: seq<Task>, leads: seq<Lead>): seq<Task>
    requires AllReady(leads)
  {
    CancelStale(ReconcileAll(tasks, leads, |leads|), leads)
  }

  /** The run stops at lead `n`, with the tasks as the leads before it left them. */
  predicate StopsAt(tasks: seq<Task>, leads: seq<Lead>, n: nat)
    requires AllReady(leads) && n < |leads|
  {
    Candidate(leads[n]) && SlotTaken(ReconcileAll(tasks, leads, n), leads[n])
  }

  predicate StopsBefore(tasks: seq<Task>, leads: seq<Lead>, n: nat)
    requires AllReady(leads) && n <= |leads|
  {
    exists q: nat :: q < n && StopsAt(tasks, leads, q)
  }

  // ---------- the run ----------

  /** Refused by a blocker, stopped by a duplicate key at a lead, or done. */
  datatype Outcome = Refused | Stopped(at: nat) | Done(created: nat, cancelled: nat)

  datatype Write = Created | Updated | DuplicateKey

  class TaskCollection {
    var tasks: seq<Task>

    constructor (tasks: seq<Task>)
      ensures this.tasks == tasks
    {
      this.tasks := tasks;
    }

    /** One lead of the reconcile pass. */
    method ReconcileLead(lead: Lead) returns (write: Write)
      requires Candidate(lead) && Ready(lead)
      modifies this
      ensures write == DuplicateKey <==> SlotTaken(old(tasks), lead)
      ensures write == DuplicateKey ==> tasks == old(tasks)
      ensures write != DuplicateKey ==> tasks == Reconcile(old(tasks), lead)
      ensures write == Created <==> |tasks| == |old(tasks)| + 1
    {
      var i := Find(tasks, lead);
      if exists k :: 0 <= k < |tasks| && k != i && tasks[k].slot == Some(Slot(lead)) {
        return DuplicateKey;
      }
      if i < |tasks| {
        var task := tasks[i];
        task := task.(agent := lead.agent.value);
        task := task.(dueAt := lead.due.ms);
        task := task.(slot := Some(Slot(lead)));
        tasks := tasks[i := task];
        return Updated;
      }
      tasks := tasks + [Generated(lead)];
      return Created;
    }

    /** The stale-cancel pass over the tasks. */
    method Cancel(leads: seq<Lead>) returns (cancelled: nat)
      modifies this
      ensures tasks == CancelStale(old(tasks), leads)
      ensures cancelled == 0 <==> tasks == old(tasks)
    {
      cancelled := 0;
      var i := 0;
      while i < |tasks|
        invariant 0 <= i <= |tasks| == |old(tasks)|
        invariant forall k :: 0 <= k < i ==> tasks[k] == Retired(leads, old(tasks)[k])
        invariant forall k :: i <= k < |tasks| ==> tasks[k] == old(tasks)[k]
        invariant cancelled == 0 <==> tasks == old(tasks)
      {
        hide Stale;
        if tasks[i].followUp && tasks[i].active {
          if Stale(leads, tasks[i]) {
            tasks := tasks[i := tasks[i].(active := false, slot := None)];
            cancelled := cancelled + 1;
          }
        }
        i := i + 1;
      }
      hide Stale;
    }

    /** The reconcile pass over the leads, to its end or to the first duplicate key. */
    method ReconcileLeads(leads: seq<Lead>) returns (stop: Option<nat>, created: nat)
      requires AllReady(leads)
      modifies this
      ensures stop.Some? ==> stop.value < |leads| && tasks == ReconcileAll(old(tasks), leads, stop.value)
      ensures stop.Some? ==> StopsAt(old(tasks), leads, stop.value) && !StopsBefore(old(tasks), leads, stop.value)
      ensures stop.None? ==> !StopsBefore(old(tasks), leads, |leads|)
      ensures stop.None? ==> tasks == ReconcileAll(old(tasks), leads, |leads|)
      ensures created + |old(tasks)| == |tasks|
    {
      created := 0;
      var n := 0;
      while n < |leads|
        invariant 0 <= n <= |leads|
        invariant tasks == ReconcileAll(old(tasks), leads, n)
        invariant !StopsBefore(old(tasks), leads, n)
        invariant created + |old(tasks)| == |tasks|
      {
        hide Blocked, Reconcile, SlotTaken, Candidate, Ready, Find, AllReady;
        ReconcileOther(tasks, leads[n]);
        ReadyAt(leads, n);
        if Candidate(leads[n]) {
          ReconcileSize(tasks, leads[n]);
          var write := ReconcileLead(leads[n]);
          if write == DuplicateKey {
            return Some(n), created;
          }
          if write == Created {
            created := created + 1;
          }
        }
        n := n + 1;
      }
      stop := None;
    }

    /** The migration.  With a blocker nothing is written; a duplicate key ends the run where it is. */
    method Run(leads: seq<Lead>, members: set<(string, string)>) returns (outcome: Outcome)
      modifies this
      ensures outcome.Refused? <==> exists i :: 0 <= i < |leads| && Obstructs(leads[i], members)
      ensures outcome.Refused? ==> tasks == old(tasks)
      ensures outcome.Done? && ProperIds(leads) ==> Served(tasks, leads, members)
      ensures !outcome.Refused? ==> AllReady(leads)
      ensures outcome.Stopped? ==> outcome.at < |leads| && tasks == ReconcileAll(old(tasks), leads, outcome.at)
      ensures outcome.Stopped? ==> StopsAt(old(tasks), leads, outcome.at) && !StopsBefore(old(tasks), leads, outcome.at)
      ensures outcome.Done? ==> !StopsBefore(old(tasks), leads, |leads|) && tasks == After(old(tasks), leads)
      ensures outcome.Done? ==> outcome.created + |old(tasks)| == |tasks|
      ensures outcome.Done? && OneEach(old(tasks), leads) ==> outcome == Done(0, 0)
    {
      hide *;
      BlockedIff(leads, members);
      if Blocked(leads, members) {
        return Refused;
      }
      AllReadyUnlessBlocked(leads, members);
      var stop, created := ReconcileLeads(leads);
      if stop.Some? {
        return Stopped(stop.value);
      }
      AfterIs(old(tasks), leads);
      var cancelled := Cancel(leads);
      if ProperIds(leads) {
        DoneServes(old(tasks), leads, members);
      }
      if OneEach(old(tasks), leads) {
        NothingToReconcile(old(tasks), leads, |leads|);
        SecondRunIdle(old(tasks), leads);
      }
      outcome := Done(created, cancelled);
    }
  }

  /** What the preflight is for: an open lead scheduled without a date, with a date that is none, or with a date and no
      assignee who is an active member of its tenant. */
  predicate Obstructs(lead: Lead, members: set<(string, string)>) {
    !lead.converted &&
    match lead.due
    case Missing => lead.scheduled
    case Invalid => true
    case At(_) => lead.agent == None || (lead.agent.Some? && (lead.org, lead.agent.value) !in members)
  }

  /** An open lead with a date has an active task due then, assigned to an active member of its tenant, and is not
      scheduled without a date. */
  ghost predicate Serves(tasks: seq<Task>, lead: Lead, members: set<(string, string)>) {
    && (lead.scheduled ==> lead.due != Missing)
    && (lead.due != Missing ==>
      lead.due.At? && exists task :: task in tasks && task.followUp && task.active && task.org == lead.org &&
                                     task.lead == Some(lead.id) && task.dueAt == lead.due.ms &&
                                     (lead.org, task.agent) in members && lead.agent == Some(task.agent))
  }

  ghost predicate Served(tasks: seq<Task>, leads: seq<Lead>, members: set<(string, string)>) {
    forall lead :: lead in leads && !lead.converted ==> Serves(tasks, lead, members)
  }

  lemma BlockedIff(leads: seq<Lead>, members: set<(string, string)>)
    ensures Blocked(leads, members) <==> exists i :: 0 <= i < |leads| && Obstructs(leads[i], members)
  {
    forall i | 0 <= i < |leads| ensures Blocks(leads[i], members) <==> Obstructs(leads[i], members) {
    }
    hide Blocks, Obstructs;
  }

  lemma DoneServes(tasks: seq<Task>, leads: seq<Lead>, members: set<(string, string)>)
    requires AllReady(leads) && ProperIds(leads) && forall i :: 0 <= i < |leads| ==> !Obstructs(leads[i], members)
    ensures Served(After(tasks, leads), leads, members)
  {
    var middle, after := ReconcileAll(tasks, leads, |leads|), After(tasks, leads);
    CancelSize(middle, leads);
    hide MatchCount, ReconcileAll, Stale, CancelStale, Find;
    forall k | 0 <= k < |leads| && Candidate(leads[k])
      ensures exists task :: task in after && Matches(task, leads[k]) && InStep(task, leads[k]) {
      ReconciledLead(tasks, leads, |leads|, k);
      CancelKeeps(middle, leads, leads[k]);
      var task := after[Find(after, leads[k])];
      assert task in after;
    }
    forall lead | lead in leads && !lead.converted ensures Serves(after, lead, members) {
      var k :| 0 <= k < |leads| && leads[k] == lead;
      assert !Obstructs(leads[k], members);
      if Candidate(lead) {
        var task :| task in after && Matches(task, lead) && InStep(task, lead);
        assert task in after;
      }
    }
  }

  lemma AllReadyUnlessBlocked(leads: seq<Lead>, members: set<(string, string)>)
    requires !Blocked(leads, members)
    ensures AllReady(leads)
  {
    forall i | 0 <= i < |leads| ensures Ready(leads[i]) {
      assert !Blocks(leads[i], members);
    }
  }

  lemma ReadyAt(leads: seq<Lead>, n: nat)
    requires AllReady(leads) && n < |leads|
    ensures Ready(leads[n])
  {
  }

  lemma AfterIs(tasks: seq<Task>, leads: seq<Lead>)
    requires AllReady(leads)
    ensures After(tasks, leads) == CancelStale(ReconcileAll(tasks, leads, |leads|), leads)
    ensures |After(tasks, leads)| == |ReconcileAll(tasks, leads, |leads|)|
  {
  }

  lemma ReconcileOther(tasks: seq<Task>, lead: Lead)
    requires Ready(lead)
    ensures !Candidate(lead) ==> Reconcile(tasks, lead) == tasks
  {
  }

  lemma ReconcileSize(tasks: seq<Task>, lead: Lead)
    requires Ready(lead)
    ensures |tasks| <= |Reconcile(tasks, lead)| <= |tasks| + 1
  {
  }

  // ---------- one active task per lead ----------

  function MatchCount(tasks: seq<Task>, lead: Lead): nat {
    if tasks == [] then 0
    else MatchCount(tasks[..|tasks| - 1], lead) + if Matches(tasks[|tasks| - 1], lead) then 1 else 0
  }

  predicate InStep(task: Task, lead: Lead) {
    lead.due.At? && lead.agent.Some? &&
    task.agent == lead.agent.value && task.dueAt == lead.due.ms && task.slot == Some(Slot(lead))
  }

  /** Every open lead with a follow-up date has exactly one active follow-up task, in step with it, and every
      active follow-up task is the task of such a lead. */
  ghost predicate OneEach(tasks: seq<Task>, leads: seq<Lead>) {
    && (forall lead :: lead in leads && Candidate(lead) ==>
         MatchCount(tasks, lead) == 1 && Find(tasks, lead) < |tasks| && InStep(tasks[Find(tasks, lead)], lead))
    && (forall task :: task in tasks && task.followUp && task.active ==> !Stale(leads, task))
  }

  lemma {:induction false} CountAt(tasks: seq<Task>, i: nat, task: Task, lead: Lead)
    requires i < |tasks|
    ensures MatchCount(tasks[i := task], lead) ==
            MatchCount(tasks, lead) - (if Matches(tasks[i], lead) then 1 else 0)
              + (if Matches(task, lead) then 1 else 0)
    decreases |tasks|
  {
    hide Matches;
    var n := |tasks| - 1;
    if i < n {
      CountAt(tasks[..n], i, task, lead);
      assert tasks[i := task][..n] == tasks[..n][i := task];
    } else {
      assert tasks[i := task][..n] == tasks[..n];
    }
  }

  lemma {:induction false} CountFound(tasks: seq<Task>, lead: Lead)
    ensures MatchCount(tasks, lead) >= 1 <==> Find(tasks, lead) < |tasks|
    decreases |tasks|
  {
    hide Matches;
    if tasks != [] {
      var front := tasks[..|tasks| - 1];
      CountFound(front, lead);
      FindFront(tasks, lead);
    }
  }

  lemma FindFront(tasks: seq<Task>, lead: Lead)
    requires tasks != []
    ensures var front := tasks[..|tasks| - 1];
            Find(tasks, lead) == if Find(front, lead) < |front| then Find(front, lead)
                                 else if Matches(tasks[|tasks| - 1], lead) then |tasks| - 1 else |tasks|
  {
    var front := tasks[..|tasks| - 1];
    var j := Find(front, lead);
    assert forall k :: 0 <= k < |front| ==> tasks[k] == front[k];
    if j < |front| {
      FindIs(tasks, lead, j);
    } else {
      assert forall k :: 0 <= k < |front| ==> !Matches(tasks[k], lead);
    }
  }

  /** What one lead's step does to its own tasks and to those of another lead. */
  lemma ReconcileCounts(tasks: seq<Task>, lead: Lead, other: Lead)
    requires Ready(lead)
    ensures other.id != lead.id ==> MatchCount(Reconcile(tasks, lead), other) == MatchCount(tasks, other)
    ensures Candidate(lead) ==>
              MatchCount(Reconcile(tasks, lead), lead) ==
                (if MatchCount(tasks, lead) == 0 then 1 else MatchCount(tasks, lead))
  {
    CountFound(tasks, lead);
    if Candidate(lead) {
      var i := Find(tasks, lead);
      if i < |tasks| {
        CountAt(tasks, i, Synced(tasks[i], lead), lead);
        CountAt(tasks, i, Synced(tasks[i], lead), other);
      } else {
        var more := tasks + [Generated(lead)];
        assert more[..|more| - 1] == tasks;
      }
    }
  }

  /** After a lead's own step its first match is in step with it; another lead's first match stays as it is. */
  lemma ReconcileFirst(tasks: seq<Task>, lead: Lead, other: Lead)
    requires Ready(lead)
    ensures Candidate(lead) ==>
              var after := Reconcile(tasks, lead);
              Find(after, lead) < |after| && InStep(after[Find(after, lead)], lead)
    ensures other.id != lead.id && Find(tasks, other) < |tasks| ==>
              var after := Reconcile(tasks, lead);
              Find(after, other) == Find(tasks, other) < |after|
                && after[Find(after, other)] == tasks[Find(tasks, other)]
  {
    if Candidate(lead) {
      var i, after := Find(tasks, lead), Reconcile(tasks, lead);
      assert Matches(after[i], lead) && forall k :: 0 <= k < i ==> after[k] == tasks[k];
      FindIs(after, lead, i);
      var j := Find(tasks, other);
      if other.id != lead.id && j < |tasks| {
        assert forall k :: 0 <= k < |tasks| && Matches(tasks[k], other) ==> k != i;
        assert forall k :: 0 <= k <= j && k != i ==> after[k] == tasks[k];
        FindIs(after, other, j);
      }
    }
  }

  lemma FindIs(tasks: seq<Task>, lead: Lead, i: nat)
    requires i < |tasks| && Matches(tasks[i], lead)
    requires forall k :: 0 <= k < i ==> !Matches(tasks[k], lead)
    ensures Find(tasks, lead) == i
  {
  }

  lemma {:induction false} ReconciledLead(tasks: seq<Task>, leads: seq<Lead>, n: nat, k: nat)
    requires AllReady(leads) && ProperIds(leads) && n <= |leads| && k < |leads| && Candidate(leads[k])
    ensures var after := ReconcileAll(tasks, leads, n);
            if k < n then
              && MatchCount(after, leads[k]) ==
                (if MatchCount(tasks, leads[k]) == 0 then 1 else MatchCount(tasks, leads[k]))
              && Find(after, leads[k]) < |after| && InStep(after[Find(after, leads[k])], leads[k])
            else
              MatchCount(after, leads[k]) == MatchCount(tasks, leads[k])
  {
    hide MatchCount, Find, InStep, Reconcile, Matches;
    if n > 0 {
      ReconciledLead(tasks, leads, n - 1, k);
      var before := ReconcileAll(tasks, leads, n - 1);
      ReconcileCounts(before, leads[n - 1], leads[k]);
      ReconcileFirst(before, leads[n - 1], leads[k]);
    }
  }

  /** Cancelling touches no task of an open lead with a follow-up date. */
  lemma {:induction false} CancelKeeps(tasks: seq<Task>, leads: seq<Lead>, lead: Lead)
    requires lead in leads && Candidate(lead)
    ensures MatchCount(CancelStale(tasks, leads), lead) == MatchCount(tasks, lead)
    ensures Find(CancelStale(tasks, leads), lead) == Find(tasks, lead)
    ensures Find(tasks, lead) < |tasks| ==> CancelStale(tasks, leads)[Find(tasks, lead)] == tasks[Find(tasks, lead)]
    decreases |tasks|
  {
    var after := CancelStale(tasks, leads);
    forall k | 0 <= k < |tasks|
      ensures Matches(after[k], lead) <==> Matches(tasks[k], lead)
      ensures Matches(tasks[k], lead) ==> after[k] == tasks[k]
    {
      if Matches(tasks[k], lead) {
        assert !Stale(leads, tasks[k]);
      }
    }
    if tasks != [] {
      var n := |tasks| - 1;
      CancelKeeps(tasks[..n], leads, lead);
      assert after[..n] == CancelStale(tasks[..n], leads);
    }
    var i := Find(tasks, lead);
    if i < |tasks| {
      FindIs(after, lead, i);
    }
  }

  lemma CancelLeavesNoStale(tasks: seq<Task>, leads: seq<Lead>)
    ensures forall task :: task in CancelStale(tasks, leads) && task.followUp && task.active ==> !Stale(leads, task)
  {
    hide Stale;
    forall task | task in CancelStale(tasks, leads) && task.followUp && task.active ensures !Stale(leads, task) {
      var k :| 0 <= k < |tasks| && task == CancelStale(tasks, leads)[k];
      assert task == Retired(leads, tasks[k]);
    }
  }

  // ---------- the main results ----------

  /** A run that is not stopped ends one-to-one exactly when no open lead with a follow-up date had two active
      follow-up tasks: it creates a missing task and corrects a present one, but never removes a duplicate. */
  lemma OneEachIff(tasks: seq<Task>, leads: seq<Lead>)
    requires AllReady(leads) && ProperIds(leads)
    ensures OneEach(After(tasks, leads), leads) <==>
            forall lead :: lead in leads && Candidate(lead) ==> MatchCount(tasks, lead) <= 1
  {
    hide MatchCount, Find, InStep, ReconcileAll, Stale, CancelStale, Candidate;
    var middle := ReconcileAll(tasks, leads, |leads|);
    CancelLeavesNoStale(middle, leads);
    forall lead | lead in leads && Candidate(lead)
      ensures var after := After(tasks, leads);
              && Find(after, lead) < |after| && InStep(after[Find(after, lead)], lead)
              && (MatchCount(after, lead) == 1 <==> MatchCount(tasks, lead) <= 1)
    {
      var k :| 0 <= k < |leads| && lead == leads[k];
      ReconciledLead(tasks, leads, |leads|, k);
      CancelKeeps(middle, leads, lead);
      CancelSize(middle, leads);
    }
  }

  // ---------- where a duplicate key stops the run ----------

  /** Task `k` is the first active follow-up task of an open lead before lead `n`, so its slot is rewritten first. */
  predicate RewrittenBefore(tasks: seq<Task>, leads: seq<Lead>, n: nat, k: int)
    requires n <= |leads|
  {
    exists m: nat :: m < n && Candidate(leads[m]) && Find(tasks, leads[m]) == k
  }

  /** Task `k` holds the slot of lead `n`, is not the task the lead will use, and keeps the slot until then. */
  predicate InTheWay(tasks: seq<Task>, leads: seq<Lead>, n: nat, k: int)
    requires n < |leads|
  {
    0 <= k < |tasks| && tasks[k].slot == Some(Slot(leads[n])) && k != Find(tasks, leads[n]) &&
    !RewrittenBefore(tasks, leads, n, k)
  }

  lemma SlotTellsLead(a: Lead, b: Lead)
    requires ':' !in a.id && ':' !in b.id && Slot(a) == Slot(b)
    ensures a.id == b.id
  {
    var x, y := Slot(a), Slot(b);
    assert x[|a.org|] == ':' && y[|b.org|] == ':';
    assert forall i :: |a.org| < i < |x| ==> x[i] == a.id[i - |a.org| - 1];
    assert forall i :: |b.org| < i < |y| ==> y[i] == b.id[i - |b.org| - 1];
    assert |a.org| == |b.org|;
    assert a.id == x[|a.org| + 1..] && b.id == y[|b.org| + 1..];
  }

  lemma SlotsDiffer(leads: seq<Lead>, m: nat, n: nat)
    requires ProperIds(leads) && m < n < |leads|
    ensures Slot(leads[m]) != Slot(leads[n])
  {
    hide Slot;
    if Slot(leads[m]) == Slot(leads[n]) {
      SlotTellsLead(leads[m], leads[n]);
    }
  }

  lemma {:induction false} TasksStay(tasks: seq<Task>, leads: seq<Lead>, n: nat)
    requires AllReady(leads) && n <= |leads|
    ensures |tasks| <= |ReconcileAll(tasks, leads, n)|
  {
    hide Reconcile;
    if n > 0 {
      TasksStay(tasks, leads, n - 1);
      ReconcileSize(ReconcileAll(tasks, leads, n - 1), leads[n - 1]);
    }
  }

  /** The task a lead will use is found before its turn as at the start. */
  lemma FindBefore(tasks: seq<Task>, leads: seq<Lead>, n: nat, q: nat)
    requires AllReady(leads) && ProperIds(leads) && n <= q < |leads| && Candidate(leads[q])
    ensures var state := ReconcileAll(tasks, leads, n);
            |tasks| <= |state| &&
            if Find(tasks, leads[q]) < |tasks| then Find(state, leads[q]) == Find(tasks, leads[q])
            else Find(state, leads[q]) == |state|
  {
    hide MatchCount, Find, InStep, Reconcile, Matches, Candidate;
    if n > 0 {
      FindBefore(tasks, leads, n - 1, q);
      var before := ReconcileAll(tasks, leads, n - 1);
      ReconcileFirst(before, leads[n - 1], leads[q]);
      ReconcileCounts(before, leads[n - 1], leads[q]);
      CountFound(before, leads[q]);
      CountFound(Reconcile(before, leads[n - 1]), leads[q]);
      ReconcileSize(before, leads[n - 1]);
    }
  }

  lemma ReconcileSlot(tasks: seq<Task>, lead: Lead, other: Lead, k: nat)
    requires Ready(lead) && Slot(lead) != Slot(other) && k < |Reconcile(tasks, lead)|
    ensures Reconcile(tasks, lead)[k].slot == Some(Slot(other)) <==>
            k < |tasks| && tasks[k].slot == Some(Slot(other)) && !(Candidate(lead) && Find(tasks, lead) == k)
  {
    hide Matches, Slot;
  }

  /** Who holds a lead's slot when its turn comes. */
  lemma {:induction false} SlotBefore(tasks: seq<Task>, leads: seq<Lead>, n: nat, q: nat, k: nat)
    requires AllReady(leads) && ProperIds(leads) && n <= q < |leads| && k < |ReconcileAll(tasks, leads, n)|
    ensures ReconcileAll(tasks, leads, n)[k].slot == Some(Slot(leads[q])) <==>
            k < |tasks| && tasks[k].slot == Some(Slot(leads[q])) && !RewrittenBefore(tasks, leads, n, k)
  {
    hide Find, Reconcile, Slot, Candidate, Ready;
    if n > 0 {
      var before, lead := ReconcileAll(tasks, leads, n - 1), leads[n - 1];
      ReadyAt(leads, n - 1);
      ReconcileSize(before, lead);
      TasksStay(tasks, leads, n - 1);
      SlotsDiffer(leads, n - 1, q);
      ReconcileSlot(before, lead, leads[q], k);
      if k < |before| {
        SlotBefore(tasks, leads, n - 1, q, k);
      }
      if Candidate(lead) {
        FindBefore(tasks, leads, n - 1, n - 1);
      }
      RewrittenStep(tasks, leads, n, k);
    }
  }

  lemma RewrittenStep(tasks: seq<Task>, leads: seq<Lead>, n: nat, k: int)
    requires 0 < n <= |leads|
    ensures RewrittenBefore(tasks, leads, n, k) <==>
            RewrittenBefore(tasks, leads, n - 1, k) || (Candidate(leads[n - 1]) && Find(tasks, leads[n - 1]) == k)
  {
    hide Candidate, Find;
  }

  /** The run stops at a lead exactly when, at the start, a task is in its way. */
  lemma StopsAtIff(tasks: seq<Task>, leads: seq<Lead>, n: nat)
    requires AllReady(leads) && ProperIds(leads) && n < |leads|
    ensures StopsAt(tasks, leads, n) <==> Candidate(leads[n]) && exists k :: InTheWay(tasks, leads, n, k)
  {
    hide ReconcileAll, Find, Candidate, Slot;
    if Candidate(leads[n]) {
      var state := ReconcileAll(tasks, leads, n);
      FindBefore(tasks, leads, n, n);
      forall k | 0 <= k < |state|
        ensures (k != Find(state, leads[n]) && state[k].slot == Some(Slot(leads[n]))) <==>
                InTheWay(tasks, leads, n, k) {
        SlotBefore(tasks, leads, n, n, k);
      }
    }
  }

  /** A run is carried to a one-to-one end exactly when, at the start, no open lead with a follow-up date has two
      active follow-up tasks and no task is in the way of one. */
  lemma EndsOneToOneIff(tasks: seq<Task>, leads: seq<Lead>)
    requires AllReady(leads) && ProperIds(leads)
    ensures !StopsBefore(tasks, leads, |leads|) && OneEach(After(tasks, leads), leads) <==>
            forall n: nat :: n < |leads| && Candidate(leads[n]) ==>
              MatchCount(tasks, leads[n]) <= 1 && !exists k :: InTheWay(tasks, leads, n, k)
  {
    hide MatchCount, InTheWay, StopsAt, OneEach, After, Candidate;
    OneEachIff(tasks, leads);
    forall n: nat | n < |leads|
      ensures StopsAt(tasks, leads, n) <==> Candidate(leads[n]) && exists k :: InTheWay(tasks, leads, n, k) {
      StopsAtIff(tasks, leads, n);
    }
    assert forall n: nat :: n < |leads| ==> leads[n] in leads;
  }

  predicate UniqueSlots(tasks: seq<Task>) {
    forall i, j :: 0 <= i < j < |tasks| && tasks[i].slot.Some? ==> tasks[i].slot != tasks[j].slot
  }

  /** A write that is not refused keeps the slots unique. */
  lemma UniqueSlotsKept(tasks: seq<Task>, lead: Lead)
    requires Ready(lead) && UniqueSlots(tasks) && (Candidate(lead) ==> !SlotTaken(tasks, lead))
    ensures UniqueSlots(Reconcile(tasks, lead))
  {
    hide Matches, Slot;
  }

  lemma CancelSize(tasks: seq<Task>, leads: seq<Lead>)
    ensures |CancelStale(tasks, leads)| == |tasks|
  {
  }

  lemma {:induction false} NothingToReconcile(tasks: seq<Task>, leads: seq<Lead>, n: nat)
    requires AllReady(leads) && n <= |leads| && OneEach(tasks, leads)
    ensures ReconcileAll(tasks, leads, n) == tasks
  {
    hide MatchCount, Stale;
    if n > 0 {
      NothingToReconcile(tasks, leads, n - 1);
      var lead := leads[n - 1];
      if Candidate(lead) {
        var i := Find(tasks, lead);
        assert lead in leads && i < |tasks| && InStep(tasks[i], lead);
        assert Synced(tasks[i], lead) == tasks[i];
      }
    }
  }

  /** From a one-to-one state a run writes nothing new: it creates and cancels no task. */
  lemma SecondRunIdle(tasks: seq<Task>, leads: seq<Lead>)
    requires AllReady(leads) && OneEach(tasks, leads)
    ensures After(tasks, leads) == tasks
  {
    hide MatchCount, Stale, Find;
    NothingToReconcile(tasks, leads, |leads|);
    forall k | 0 <= k < |tasks| ensures Retired(leads, tasks[k]) == tasks[k] {
      assert tasks[k] in tasks;
    }
    assert CancelStale(tasks, leads) == tasks;
  }

  // ---------- tasks for each way of failing ----------

  const OPEN_LEAD := Lead("l", "o", At(7), false, true, Some("u"))

  function TaskOfLead(active: bool, slot: Option<string>): Task {
    Task("o", Some("l"), true, active, "u", 7, slot)
  }

  lemma OpenLeadFacts()
    ensures AllReady([OPEN_LEAD]) && ProperIds([OPEN_LEAD]) && Candidate(OPEN_LEAD) && Slot(OPEN_LEAD) == "o:l"
    ensures forall slot :: Matches(TaskOfLead(true, slot), OPEN_LEAD) && !Matches(TaskOfLead(false, slot), OPEN_LEAD)
  {
  }

  /** Two active tasks of one lead, the first holding the slot, are both left active. */
  lemma TwoActiveTasks()
    ensures var tasks, leads := [TaskOfLead(true, Some("o:l")), TaskOfLead(true, None)], [OPEN_LEAD];
            AllReady(leads) && !StopsBefore(tasks, leads, 1) && !OneEach(After(tasks, leads), leads)
  {
    OpenLeadFacts();
    var a, b := TaskOfLead(true, Some("o:l")), TaskOfLead(true, None);
    var tasks, leads := [a, b], [OPEN_LEAD];
    StopsAtIff(tasks, leads, 0);
    OneEachIff(tasks, leads);
    hide TaskOfLead, Matches, OneEach, After, StopsAt;
    assert tasks[..1] == [a] && [a][..0] == [];
    assert MatchCount([], OPEN_LEAD) == 0 && MatchCount([a], OPEN_LEAD) == 1;
    assert MatchCount(tasks, OPEN_LEAD) == 2 && OPEN_LEAD in leads;
    assert !InTheWay(tasks, leads, 0, 0) && !InTheWay(tasks, leads, 0, 1);
  }

  /** A closed task that still holds the slot stops the run when the lead's task is created. */
  lemma StaleSlotStops()
    ensures var tasks, leads := [TaskOfLead(false, Some("o:l"))], [OPEN_LEAD];
            AllReady(leads) && MatchCount(tasks, OPEN_LEAD) == 0 && StopsAt(tasks, leads, 0)
  {
    OpenLeadFacts();
    var a := TaskOfLead(false, Some("o:l"));
    StopsAtIff([a], [OPEN_LEAD], 0);
    assert [a][..0] == [];
    assert InTheWay([a], [OPEN_LEAD], 0, 0);
  }

  /** Of two active tasks, one that holds the slot but is not found first stops the run when the first is saved. */
  lemma SecondHolderStops()
    ensures var tasks, leads := [TaskOfLead(true, None), TaskOfLead(true, Some("o:l"))], [OPEN_LEAD];
            AllReady(leads) && StopsAt(tasks, leads, 0)
  {
    OpenLeadFacts();
    var tasks := [TaskOfLead(true, None), TaskOfLead(true, Some("o:l"))];
    StopsAtIff(tasks, [OPEN_LEAD], 0);
    assert Find(tasks, OPEN_LEAD) == 0;
    assert InTheWay(tasks, [OPEN_LEAD], 0, 1);
  }
}
