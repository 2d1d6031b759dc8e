/** The consolidation pass over one tenant: group the leads, merge each group that has a valid phone, delete
    its duplicates and update its earliest lead.  The update of a group without any email is refused by the store,
    since it sets and unsets the same two fields, and ends the run. */
module LeadConsolidation {
  import opened Wrappers
  import opened Identity
  import opened LeadGroups
  import opened LeadMerge

  function Contacts(all: seq<Lead>): seq<Contact> {
    seq(|all|, i requires 0 <= i < |all| => AsContact(all[i]))
  }

  function Pick(all: seq<Lead>, group: seq<nat>): seq<Lead>
    requires forall i :: i in group ==> i < |all|
  {
    seq(|group|, x requires 0 <= x < |group| => assert group[x] in group; all[group[x]])
  }

  predicate HasId(leads: seq<Lead>, id: string) {
    exists x :: 0 <= x < |leads| && leads[x].id == id
  }

  predicate DistinctLeads(leads: seq<Lead>) {
    forall x, y :: 0 <= x < y < |leads| ==> leads[x].id != leads[y].id
  }

  /** `group.filter(...)` found a lead with a valid phone. */
  predicate Processed(group: seq<Lead>) {
    exists x :: 0 <= x < |group| && AsContact(group[x]).phone != ""
  }

  /** The update of the group is refused: no lead has an email, so both email fields are set and unset at once. */
  predicate Refused(group: seq<Lead>) {
    Processed(group) && forall x :: 0 <= x < |group| ==> SafeEmail(group[x].email) == ""
  }

  predicate Merges(group: seq<Lead>) {
    Processed(group) && !Refused(group)
  }

  /** The collection after one group: its duplicates gone and its earliest lead replaced by the survivor, unless that
      is refused. */
  function ApplyGroup(docs: map<string, Lead>, group: seq<Lead>): map<string, Lead> {
    var sorted := SortByCreated(group);
    if !Processed(group) || sorted == [] then docs
    else
      var kept := map id | id in docs && id !in LeadIds(sorted[1..]) :: docs[id];
      if sorted[0].id in kept && !Refused(group) then kept[sorted[0].id := Survivor(sorted)] else kept
  }

  /** An update that unsets the email fields sets them too, to a value that is missing. */
  predicate SetsAndUnsets(target: Lead) {
    target.normalizedEmail == ""
  }

  /** The survivor of a group without any email, and no other, is refused. */
  lemma RefusedIff(group: seq<Lead>)
    requires group != [] && Processed(group)
    ensures SortByCreated(group) != []
    ensures SetsAndUnsets(Survivor(SortByCreated(group))) <==> Refused(group)
  {
    SortFacts(group);
    SurvivorEmail(SortByCreated(group));
    hide SortByCreated, Survivor, Processed, SafeEmail, Chronological;
    SameEmails(group, SortByCreated(group));
  }

  lemma SameEmails(group: seq<Lead>, sorted: seq<Lead>)
    requires multiset(sorted) == multiset(group)
    ensures (forall x :: 0 <= x < |sorted| ==> SafeEmail(sorted[x].email) == "") <==>
            (forall x :: 0 <= x < |group| ==> SafeEmail(group[x].email) == "")
  {
    hide SafeEmail;
    EmailsWithin(group, sorted);
    EmailsWithin(sorted, group);
  }

  lemma EmailsWithin(a: seq<Lead>, b: seq<Lead>)
    requires multiset(a) == multiset(b)
    ensures (forall x :: 0 <= x < |a| ==> SafeEmail(a[x].email) == "") ==>
            (forall x :: 0 <= x < |b| ==> SafeEmail(b[x].email) == "")
  {
    hide SafeEmail;
    forall x | 0 <= x < |b| ensures b[x] in a {
      assert b[x] in multiset(b);
    }
  }

  function Store(all: seq<Lead>): map<string, Lead> {
    if all == [] then map[] else Store(all[..|all| - 1])[all[|all| - 1].id := all[|all| - 1]]
  }

  predicate InRange(all: seq<Lead>, groups: seq<seq<nat>>) {
    forall g :: 0 <= g < |groups| ==> groups[g] != [] && forall i :: i in groups[g] ==> i < |all|
  }

  /** The collection after the first `k` groups. */
  function Consolidated(all: seq<Lead>, groups: seq<seq<nat>>, k: nat): map<string, Lead>
    requires InRange(all, groups) && k <= |groups|
  {
    if k == 0 then Store(all) else ApplyGroup(Consolidated(all, groups, k - 1), Pick(all, groups[k - 1]))
  }

  class LeadCollection {
    var docs: map<string, Lead>

    constructor (all: seq<Lead>)
      ensures docs == Store(all)
    {
      docs := Store(all);
    }

    method DeleteMany(ids: seq<string>)
      modifies this
      ensures docs == map id | id in old(docs) && id !in ids :: old(docs)[id]
    {
      docs := map id | id in docs && id !in ids :: docs[id];
    }

    /** The store refuses an update that sets and unsets the same field. */
    method UpdateOne(id: string, target: Lead) returns (ok: bool)
      modifies this
      ensures ok <==> !SetsAndUnsets(target)
      ensures docs == if ok && id in old(docs) then old(docs)[id := target] else old(docs)
    {
      ok := !SetsAndUnsets(target);
      if ok && id in docs {
        docs := docs[id := target];
      }
    }

    /** One turn of the loop over the groups.  A refused update ends the run, with the duplicates already gone. */
    method MergeOne(group: seq<Lead>) returns (ok: bool)
      requires group != []
      modifies this
      ensures ok <==> !Refused(group)
      ensures docs == ApplyGroup(old(docs), group)
    {
      hide SortByCreated, Survivor, LeadIds, AsContact, SafeEmail, SetsAndUnsets;
      ok := true;
      if Processed(group) {
        var target, duplicateIds := MergeGroup(group);
        var targetDoc := SortByCreated(group)[0];
        if duplicateIds != [] {
          DeleteMany(duplicateIds);
        } else {
          assert docs == map id | id in docs && id !in duplicateIds :: docs[id];
        }
        RefusedIff(group);
        ok := UpdateOne(targetDoc.id, target);
      }
    }
  }

  ghost predicate ComponentsOf(all: seq<Lead>, groups: seq<seq<nat>>) {
    Components(Contacts(all), groups) && InRange(all, groups)
  }

  ghost predicate NoneRefused(all: seq<Lead>, groups: seq<seq<nat>>, k: nat)
    requires InRange(all, groups) && k <= |groups|
  {
    forall g :: 0 <= g < k ==> !Refused(Pick(all, groups[g]))
  }

  /** The run ends after `k` groups: stopped by the last of them, or with no group left. */
  ghost predicate EndsAfter(all: seq<Lead>, groups: seq<seq<nat>>, k: nat, stopped: bool)
    requires InRange(all, groups)
  {
    if stopped then 0 < k <= |groups| && NoneRefused(all, groups, k - 1) && Refused(Pick(all, groups[k - 1]))
    else k == |groups| && NoneRefused(all, groups, k)
  }

  /** What a run leaves: the collection after the groups it came to. */
  ghost predicate Leaves(all: seq<Lead>, groups: seq<seq<nat>>, k: nat, stopped: bool, docs: map<string, Lead>) {
    ComponentsOf(all, groups) && EndsAfter(all, groups, k, stopped) && docs == Consolidated(all, groups, k)
  }

  /** The run over one tenant's leads.  It is stopped exactly when some lead with a valid phone is connected to no
      lead with an email. */
  method Run(all: seq<Lead>) returns (leads: LeadCollection, stopped: bool)
    requires DistinctLeads(all)
    ensures exists groups, k :: Leaves(all, groups, k, stopped, leads.docs)
    ensures stopped <==> exists i :: Stranded(all, i)
  {
    hide *;
    leads := new LeadCollection(all);
    DistinctContacts(all);
    var found := GroupLeads(Contacts(all));
    ComponentsInRange(all, found);
    NothingConsolidated(all, found);
    NothingRefused(all, found);
    stopped := false;
    var k: nat := 0;
    while k < |found| && !stopped
      invariant k <= |found|
      invariant leads.docs == Consolidated(all, found, k)
      invariant if stopped then EndsAfter(all, found, k, true) else NoneRefused(all, found, k)
      modifies leads
    {
      ConsolidatedStep(all, found, k);
      var ok := leads.MergeOne(Pick(all, found[k]));
      RefusedStep(all, found, k);
      stopped := !ok;
      k := k + 1;
    }
    EndsThere(all, found, k, stopped);
    LeavesAs(all, found, k, stopped, leads.docs);
    StoppedIff(all, found, k, stopped);
  }

  lemma RefusedStep(all: seq<Lead>, groups: seq<seq<nat>>, k: nat)
    requires InRange(all, groups) && k < |groups| && NoneRefused(all, groups, k)
    ensures if Refused(Pick(all, groups[k])) then EndsAfter(all, groups, k + 1, true)
            else NoneRefused(all, groups, k + 1)
  {
    hide Refused;
  }

  lemma EndsThere(all: seq<Lead>, groups: seq<seq<nat>>, k: nat, stopped: bool)
    requires InRange(all, groups) && k <= |groups| && (k == |groups| || stopped)
    requires if stopped then EndsAfter(all, groups, k, true) else NoneRefused(all, groups, k)
    ensures EndsAfter(all, groups, k, stopped)
  {
    hide Refused;
  }

  lemma LeavesAs(all: seq<Lead>, groups: seq<seq<nat>>, k: nat, stopped: bool, docs: map<string, Lead>)
    requires Components(Contacts(all), groups) && InRange(all, groups) && EndsAfter(all, groups, k, stopped)
    requires docs == Consolidated(all, groups, k)
    ensures Leaves(all, groups, k, stopped, docs)
  {
    hide Components, EndsAfter, Consolidated;
  }

  lemma NothingRefused(all: seq<Lead>, groups: seq<seq<nat>>)
    requires InRange(all, groups)
    ensures NoneRefused(all, groups, 0)
  {
  }

  // ---------- when the run completes ----------

  /** A lead with a valid phone that is connected to no lead with an email. */
  ghost predicate Stranded(all: seq<Lead>, i: nat) {
    i < |all| && AsContact(all[i]).phone != "" &&
    forall j: nat :: j < |all| && Connected(Contacts(all), i, j) ==> SafeEmail(all[j].email) == ""
  }

  lemma RefusedStrands(all: seq<Lead>, groups: seq<seq<nat>>, g: nat) returns (i: nat)
    requires Components(Contacts(all), groups) && InRange(all, groups) && g < |groups| && Refused(Pick(all, groups[g]))
    ensures Stranded(all, i)
  {
    hide AsContact, SafeEmail, Connected, Contacts;
    var group := Pick(all, groups[g]);
    var x :| 0 <= x < |group| && AsContact(group[x]).phone != "";
    i := groups[g][x];
    assert i in groups[g];
    forall j: nat | j < |all| && Connected(Contacts(all), i, j) ensures SafeEmail(all[j].email) == "" {
      assert InSome(groups, j) && |Contacts(all)| == |all| by {
        SameSize(all);
      }
      var h :| 0 <= h < |groups| && j in groups[h];
      var y :| 0 <= y < |groups[g]| && groups[g][y] == j;
      assert group[y] == all[j];
    }
  }

  lemma SameSize(all: seq<Lead>)
    ensures |Contacts(all)| == |all|
  {
  }

  lemma StrandedRefuses(all: seq<Lead>, groups: seq<seq<nat>>, i: nat) returns (g: nat)
    requires Components(Contacts(all), groups) && InRange(all, groups) && Stranded(all, i)
    ensures g < |groups| && Refused(Pick(all, groups[g]))
  {
    hide AsContact, SafeEmail, Connected, Contacts;
    SameSize(all);
    assert InSome(groups, i);
    g :| 0 <= g < |groups| && i in groups[g];
    var group := Pick(all, groups[g]);
    var x :| 0 <= x < |groups[g]| && groups[g][x] == i;
    assert group[x] == all[i];
    forall y | 0 <= y < |group| ensures SafeEmail(group[y].email) == "" {
      assert groups[g][y] in groups[g];
    }
  }

  /** The run is stopped exactly when some group, and so some lead, has a valid phone and no email. */
  lemma StoppedIff(all: seq<Lead>, groups: seq<seq<nat>>, k: nat, stopped: bool)
    requires Components(Contacts(all), groups) && InRange(all, groups) && EndsAfter(all, groups, k, stopped)
    ensures stopped <==> exists g :: 0 <= g < |groups| && Refused(Pick(all, groups[g]))
    ensures stopped <==> exists i :: Stranded(all, i)
  {
    hide Components, Refused, Stranded, Contacts;
    if stopped {
      var i := RefusedStrands(all, groups, k - 1);
    } else {
      forall i ensures !Stranded(all, i) {
        if Stranded(all, i) {
          var g := StrandedRefuses(all, groups, i);
        }
      }
    }
  }

  lemma DistinctContacts(all: seq<Lead>)
    requires DistinctLeads(all)
    ensures DistinctIds(Contacts(all))
  {
  }

  lemma NothingConsolidated(all: seq<Lead>, groups: seq<seq<nat>>)
    requires InRange(all, groups)
    ensures Consolidated(all, groups, 0) == Store(all)
  {
  }

  lemma ConsolidatedNext(all: seq<Lead>, groups: seq<seq<nat>>, k: nat)
    requires InRange(all, groups) && k < |groups|
    ensures forall i :: i in groups[k] ==> i < |all|
    ensures Consolidated(all, groups, k + 1) == ApplyGroup(Consolidated(all, groups, k), Pick(all, groups[k]))
  {
    hide ApplyGroup, Pick;
  }

  lemma ConsolidatedStep(all: seq<Lead>, groups: seq<seq<nat>>, k: nat)
    requires Components(Contacts(all), groups) && InRange(all, groups) && k < |groups|
    ensures (forall i :: i in groups[k] ==> i < |all|) && Pick(all, groups[k]) != []
    ensures Consolidated(all, groups, k + 1) == ApplyGroup(Consolidated(all, groups, k), Pick(all, groups[k]))
  {
  }

  lemma ComponentsInRange(all: seq<Lead>, groups: seq<seq<nat>>)
    requires Components(Contacts(all), groups)
    ensures InRange(all, groups)
  {
    hide Connected;
  }

  // ---------- the collection after the run ----------

  lemma {:induction false} OneOfEach(leads: seq<Lead>, lead: Lead)
    requires DistinctLeads(leads) && lead in leads
    ensures multiset(leads)[lead] == 1
    decreases |leads|
  {
    var front, last := leads[..|leads| - 1], leads[|leads| - 1];
    assert leads == front + [last];
    if lead in front {
      OneOfEach(front, lead);
      assert last != lead;
    }
  }

  lemma TwoPlaces(leads: seq<Lead>, x: nat, y: nat)
    requires x < y < |leads|
    ensures leads[x] == leads[y] ==> multiset(leads)[leads[x]] >= 2
  {
    assert leads == leads[..x] + [leads[x]] + leads[x + 1..];
    assert leads[x + 1..][y - x - 1] == leads[y];
  }

  lemma SameLeadIff(group: seq<Lead>, a: Lead, b: Lead)
    requires DistinctLeads(group) && a in group && b in group
    ensures a == b <==> a.id == b.id
  {
  }

  /** A rearrangement of leads with distinct ids has distinct ids. */
  lemma RearrangedDistinct(group: seq<Lead>, sorted: seq<Lead>)
    requires DistinctLeads(group) && multiset(sorted) == multiset(group)
    ensures DistinctLeads(sorted) && forall lead :: lead in sorted <==> lead in group
  {
    forall lead ensures lead in sorted <==> lead in group {
      assert lead in sorted <==> lead in multiset(sorted);
      assert lead in group <==> lead in multiset(group);
    }
    forall x, y | 0 <= x < y < |sorted| ensures sorted[x].id != sorted[y].id {
      hide DistinctLeads;
      var a := sorted[x];
      assert a in sorted && sorted[y] in sorted;
      OneOfEach(group, a);
      TwoPlaces(sorted, x, y);
      SameLeadIff(group, a, sorted[y]);
    }
  }

  /** Of a group with distinct ids, the ids after the first of the sorted group are all the others. */
  lemma OthersAreDuplicates(group: seq<Lead>, lead: Lead)
    requires DistinctLeads(group) && lead in group
    ensures var sorted := SortByCreated(group);
            sorted != [] && (lead.id in LeadIds(sorted[1..]) <==> lead.id != sorted[0].id)
  {
    SortFacts(group);
    var sorted := SortByCreated(group);
    RearrangedDistinct(group, sorted);
    hide SortByCreated, Chronological;
    assert lead in sorted;
    var k :| 0 <= k < |sorted| && sorted[k] == lead;
    var others := LeadIds(sorted[1..]);
    assert forall x :: 0 <= x < |others| ==> others[x] == sorted[x + 1].id;
    if k > 0 {
      assert others[k - 1] == lead.id;
    }
  }

  /** The ids of a sorted group are those of the group. */
  lemma SortedIds(group: seq<Lead>, id: string)
    requires DistinctLeads(group)
    ensures var sorted := SortByCreated(group);
            (sorted != [] && (id == sorted[0].id || id in LeadIds(sorted[1..]))) ==> HasId(group, id)
  {
    SortFacts(group);
    var sorted := SortByCreated(group);
    RearrangedDistinct(group, sorted);
    hide SortByCreated, Chronological;
    if sorted != [] && (id == sorted[0].id || id in LeadIds(sorted[1..])) {
      var k :| 0 <= k < |sorted| && sorted[k].id == id;
      assert sorted[k] in group;
    }
  }

  lemma {:induction false} StoreHolds(all: seq<Lead>, i: nat)
    requires DistinctLeads(all) && i < |all|
    ensures all[i].id in Store(all) && Store(all)[all[i].id] == all[i]
    decreases |all|
  {
    if i < |all| - 1 {
      StoreHolds(all[..|all| - 1], i);
    }
  }

  lemma PickDistinct(all: seq<Lead>, group: seq<nat>)
    requires DistinctLeads(all) && InOrder(group) && forall i :: i in group ==> i < |all|
    ensures DistinctLeads(Pick(all, group))
  {
    forall x, y | 0 <= x < y < |group| ensures Pick(all, group)[x].id != Pick(all, group)[y].id {
      assert group[x] in group && group[y] in group && group[x] < group[y];
    }
  }

  lemma PickHas(all: seq<Lead>, group: seq<nat>, i: nat)
    requires DistinctLeads(all) && i < |all| && forall i :: i in group ==> i < |all|
    ensures HasId(Pick(all, group), all[i].id) <==> i in group
    ensures i in group ==> all[i] in Pick(all, group)
  {
    if i in group {
      var x :| 0 <= x < |group| && group[x] == i;
      assert Pick(all, group)[x] == all[i];
    }
    if HasId(Pick(all, group), all[i].id) {
      var x :| 0 <= x < |group| && Pick(all, group)[x].id == all[i].id;
      assert group[x] in group && group[x] == i;
    }
  }

  /** One group's step leaves the other leads alone, and of its own keeps the earliest, merged unless refused. */
  lemma ApplyGroupAt(docs: map<string, Lead>, group: seq<Lead>, lead: Lead)
    requires DistinctLeads(group) && lead.id in docs && docs[lead.id] == lead
    requires HasId(group, lead.id) ==> lead in group
    ensures var after, sorted := ApplyGroup(docs, group), SortByCreated(group);
            if !HasId(group, lead.id) || !Processed(group) then lead.id in after && after[lead.id] == lead
            else sorted != [] &&
                 if lead.id == sorted[0].id then
                   lead.id in after && after[lead.id] == if Refused(group) then lead else Survivor(sorted)
                 else lead.id !in after
  {
    SortedIds(group, lead.id);
    if HasId(group, lead.id) {
      OthersAreDuplicates(group, lead);
    }
    hide SortByCreated, Survivor, Processed, DistinctLeads, Refused;
  }

  /** What becomes of a lead once its group's turn has come: kept as it is, merged, or deleted.  A refused group keeps
      its earliest lead as it was and loses the others. */
  ghost predicate Outcome(docs: map<string, Lead>, group: seq<Lead>, lead: Lead) {
    var sorted := SortByCreated(group);
    if !Processed(group) then lead.id in docs && docs[lead.id] == lead
    else sorted != [] &&
         if lead.id == sorted[0].id then
           lead.id in docs && docs[lead.id] == if Refused(group) then lead else Survivor(sorted)
         else lead.id !in docs
  }

  lemma ApplyOther(docs: map<string, Lead>, group: seq<Lead>, id: string)
    requires DistinctLeads(group) && !HasId(group, id)
    ensures (id in ApplyGroup(docs, group) <==> id in docs)
    ensures id in docs ==> ApplyGroup(docs, group)[id] == docs[id]
  {
    SortedIds(group, id);
    hide SortByCreated, Survivor, Processed, Refused, DistinctLeads, HasId;
  }

  /** A lead of group `g` when `k` groups had their turn: untouched before its own, with its outcome after. */
  ghost predicate TurnTaken(docs: map<string, Lead>, group: seq<Lead>, k: nat, g: nat, lead: Lead) {
    if k <= g then lead.id in docs && docs[lead.id] == lead else Outcome(docs, group, lead)
  }

  lemma {:induction false} ConsolidatedAt(all: seq<Lead>, groups: seq<seq<nat>>, k: nat, g: nat, i: nat)
    requires DistinctLeads(all) && Components(Contacts(all), groups) && InRange(all, groups)
    requires k <= |groups| && g < |groups| && i in groups[g] && i < |all|
    ensures TurnTaken(Consolidated(all, groups, k), Pick(all, groups[g]), k, g, all[i])
    decreases k
  {
    if k == 0 {
      StoreHolds(all, i);
    } else {
      ConsolidatedAt(all, groups, k - 1, g, i);
      GroupFacts(all, groups, k - 1, g, i);
      hide TurnTaken, Connected, Components, ApplyGroup, HasId, Pick, DistinctLeads, AsContact;
      TakeTurn(Consolidated(all, groups, k - 1), Pick(all, groups[k - 1]), Pick(all, groups[g]), k - 1, g, all[i]);
    }
  }

  lemma TakeTurn(docs: map<string, Lead>, turn: seq<Lead>, group: seq<Lead>, k: nat, g: nat, lead: Lead)
    requires DistinctLeads(turn) && TurnTaken(docs, group, k, g, lead)
    requires HasId(turn, lead.id) <==> g == k
    requires g == k ==> lead in turn && turn == group
    ensures TurnTaken(ApplyGroup(docs, turn), group, k + 1, g, lead)
  {
    hide ApplyGroup, Outcome, HasId, DistinctLeads;
    if g == k {
      ApplyOwn(docs, turn, lead);
    } else {
      ApplyOther(docs, turn, lead.id);
      SameOutcome(docs, ApplyGroup(docs, turn), group, lead);
    }
  }

  lemma ApplyOwn(docs: map<string, Lead>, group: seq<Lead>, lead: Lead)
    requires DistinctLeads(group) && lead.id in docs && docs[lead.id] == lead && HasId(group, lead.id) && lead in group
    ensures Outcome(ApplyGroup(docs, group), group, lead)
  {
    ApplyGroupAt(docs, group, lead);
    hide ApplyGroup, SortByCreated, Survivor, Processed, Refused, DistinctLeads;
  }

  lemma SameOutcome(docs: map<string, Lead>, docs': map<string, Lead>, group: seq<Lead>, lead: Lead)
    requires lead.id in docs' <==> lead.id in docs
    requires lead.id in docs ==> docs'[lead.id] == docs[lead.id]
    ensures Outcome(docs, group, lead) ==> Outcome(docs', group, lead)
  {
    hide SortByCreated, Survivor, Processed, Refused;
  }

  lemma GroupFacts(all: seq<Lead>, groups: seq<seq<nat>>, h: nat, g: nat, i: nat)
    requires DistinctLeads(all) && Components(Contacts(all), groups) && InRange(all, groups)
    requires h < |groups| && g < |groups| && i in groups[g] && i < |all|
    ensures DistinctLeads(Pick(all, groups[h]))
    ensures HasId(Pick(all, groups[h]), all[i].id) <==> g == h
    ensures g == h ==> all[i] in Pick(all, groups[h])
  {
    ConnectedRefl(Contacts(all), i);
    assert i in groups[h] ==> (g == h <==> Connected(Contacts(all), i, i));
    hide Connected;
    PickDistinct(all, groups[h]);
    PickHas(all, groups[h], i);
  }

  lemma ApplyKeys(docs: map<string, Lead>, group: seq<Lead>, id: string)
    ensures id in ApplyGroup(docs, group) ==> id in docs
  {
    hide SortByCreated, Survivor, Processed, Refused, LeadIds;
  }

  lemma {:induction false} ConsolidatedKeys(all: seq<Lead>, groups: seq<seq<nat>>, k: nat, id: string)
    requires InRange(all, groups) && k <= |groups|
    ensures id in Consolidated(all, groups, k) ==> HasId(all, id)
    decreases k
  {
    hide *;
    if k == 0 {
      NothingConsolidated(all, groups);
      StoreKeys(all, id);
    } else {
      ConsolidatedNext(all, groups, k - 1);
      ConsolidatedKeys(all, groups, k - 1, id);
      ApplyKeys(Consolidated(all, groups, k - 1), Pick(all, groups[k - 1]), id);
    }
  }

  lemma {:induction false} StoreKeys(all: seq<Lead>, id: string)
    ensures id in Store(all) ==> HasId(all, id)
    decreases |all|
  {
    if all != [] {
      var front := all[..|all| - 1];
      StoreKeys(front, id);
      if id == all[|all| - 1].id {
        assert all[|all| - 1].id == id;
      } else if HasId(front, id) {
        var x :| 0 <= x < |front| && front[x].id == id;
        assert all[x].id == id;
      }
    }
  }

  /** After the first `k` groups, where a run may end: every lead is in one group; it has that group's outcome if its
      turn has come and is as it was otherwise; and nothing else is in the collection. */
  lemma RunOutcome(all: seq<Lead>, groups: seq<seq<nat>>, k: nat, i: nat) returns (g: nat)
    requires DistinctLeads(all) && Components(Contacts(all), groups) && InRange(all, groups)
    requires k <= |groups| && i < |all|
    ensures g < |groups| && i in groups[g]
    ensures TurnTaken(Consolidated(all, groups, k), Pick(all, groups[g]), k, g, all[i])
    ensures forall id :: id in Consolidated(all, groups, k) ==> HasId(all, id)
  {
    assert InSome(groups, i) by {
      hide Connected;
    }
    g :| 0 <= g < |groups| && i in groups[g];
    hide *;
    ConsolidatedAt(all, groups, k, g, i);
    forall id ensures id in Consolidated(all, groups, k) ==> HasId(all, id) {
      ConsolidatedKeys(all, groups, k, id);
    }
  }

  lemma SortedPhoneFrom(group: seq<Lead>) returns (i: nat)
    requires group != []
    ensures SortByCreated(group) != [] && i < |group|
    ensures var phone := Survivor(SortByCreated(group)).normalizedPhone;
            phone.Some? ==> phone.value != "" && AsContact(group[i]).phone == phone.value
  {
    SortFacts(group);
    var sorted := SortByCreated(group);
    SurvivorPhone(sorted);
    hide SortByCreated, Survivor, AsContact;
    i := 0;
    var phone := Survivor(sorted).normalizedPhone;
    if phone.Some? {
      var x :| 0 <= x < |sorted| && AsContact(sorted[x]).phone == phone.value;
      assert sorted[x] in multiset(group);
      i :| 0 <= i < |group| && group[i] == sorted[x];
    }
  }

  lemma SortedEmailFrom(group: seq<Lead>) returns (i: nat)
    requires group != []
    ensures var sorted := SortByCreated(group);
            sorted != [] && i < |group| &&
            (Survivor(sorted).normalizedEmail != "" ==> AsContact(group[i]).email == Survivor(sorted).normalizedEmail)
  {
    SortFacts(group);
    var sorted := SortByCreated(group);
    SurvivorEmail(sorted);
    hide SortByCreated, Survivor, AsContact;
    i := 0;
    if Survivor(sorted).normalizedEmail != "" {
      var x :| 0 <= x < |sorted| && AsContact(sorted[x]).email == Survivor(sorted).normalizedEmail;
      assert sorted[x] in multiset(group);
      i :| 0 <= i < |group| && group[i] == sorted[x];
    }
  }

  /** The indexes on phone and email refuse the two: a phone stored in both, be it the empty text, or an email. */
  predicate Clash(a: Lead, b: Lead) {
    (a.normalizedPhone.Some? && a.normalizedPhone == b.normalizedPhone) ||
    (a.normalizedEmail != "" && a.normalizedEmail == b.normalizedEmail)
  }

  /** Survivors that share a normalised phone or email are survivors of the same group. */
  lemma SurvivorsShareNothing(all: seq<Lead>, groups: seq<seq<nat>>, g: nat, h: nat)
    requires DistinctLeads(all) && Components(Contacts(all), groups) && InRange(all, groups)
    requires g < |groups| && h < |groups|
    requires SortByCreated(Pick(all, groups[g])) != [] && SortByCreated(Pick(all, groups[h])) != []
    ensures var a, b := Survivor(SortByCreated(Pick(all, groups[g]))), Survivor(SortByCreated(Pick(all, groups[h])));
            Clash(a, b) ==> g == h
  {
    hide SortByCreated, Survivor, AsContact, Connected;
    var a, b := Survivor(SortByCreated(Pick(all, groups[g]))), Survivor(SortByCreated(Pick(all, groups[h])));
    if a.normalizedPhone.Some? && a.normalizedPhone == b.normalizedPhone {
      var x := SortedPhoneFrom(Pick(all, groups[g]));
      var y := SortedPhoneFrom(Pick(all, groups[h]));
      ShareSameGroup(all, groups, g, h, x, y);
    }
    if a.normalizedEmail != "" && a.normalizedEmail == b.normalizedEmail {
      var x := SortedEmailFrom(Pick(all, groups[g]));
      var y := SortedEmailFrom(Pick(all, groups[h]));
      ShareSameGroup(all, groups, g, h, x, y);
    }
  }

  lemma ShareSameGroup(all: seq<Lead>, groups: seq<seq<nat>>, g: nat, h: nat, x: nat, y: nat)
    requires Components(Contacts(all), groups) && InRange(all, groups) && g < |groups| && h < |groups|
    requires x < |groups[g]| && y < |groups[h]|
    requires Shares(AsContact(Pick(all, groups[g])[x]), AsContact(Pick(all, groups[h])[y]))
    ensures g == h
  {
    hide AsContact;
    var i, j := groups[g][x], groups[h][y];
    assert i in groups[g] && j in groups[h];
    ConnectedShares(Contacts(all), i, j);
  }

  /** The group of lead `i` is among the first `k` and was merged. */
  ghost predicate InMergedGroup(all: seq<Lead>, groups: seq<seq<nat>>, k: nat, i: nat)
    requires InRange(all, groups)
  {
    exists g :: 0 <= g < k && g < |groups| && i in groups[g] && Merges(Pick(all, groups[g]))
  }

  /** Of two documents left from merged groups no normalised phone and no normalised email is the same. */
  lemma FinalIdentitiesDiffer(all: seq<Lead>, groups: seq<seq<nat>>, k: nat, i: nat, j: nat)
    requires DistinctLeads(all) && Components(Contacts(all), groups) && InRange(all, groups) && k <= |groups|
    requires i < |all| && j < |all| && InMergedGroup(all, groups, k, i) && InMergedGroup(all, groups, k, j)
    requires var docs := Consolidated(all, groups, k); all[i].id in docs && all[j].id in docs
    ensures var docs := Consolidated(all, groups, k); Clash(docs[all[i].id], docs[all[j].id]) ==> i == j
  {
    hide SortByCreated, Survivor, AsContact, Connected, Consolidated, Components, Processed, Refused, Contacts, Clash;
    var g :| 0 <= g < k && g < |groups| && i in groups[g] && Merges(Pick(all, groups[g]));
    var h :| 0 <= h < k && h < |groups| && j in groups[h] && Merges(Pick(all, groups[h]));
    ConsolidatedAt(all, groups, k, g, i);
    ConsolidatedAt(all, groups, k, h, j);
    SurvivorsShareNothing(all, groups, g, h);
  }

  // ---------- the unique indexes built afterwards ----------

  /** Both indexes can be built. */
  ghost predicate Indexable(docs: map<string, Lead>) {
    forall a, b :: a in docs && b in docs && a != b ==> !Clash(docs[a], docs[b])
  }

  /** The lead's group has no valid phone, so it keeps what it stores. */
  ghost predicate Skipped(all: seq<Lead>, groups: seq<seq<nat>>, i: nat)
    requires InRange(all, groups)
  {
    i < |all| && exists g :: 0 <= g < |groups| && i in groups[g] && !Processed(Pick(all, groups[g]))
  }

  /** What the merge of group `g` leaves. */
  function MergedOf(all: seq<Lead>, groups: seq<seq<nat>>, g: nat): Option<Lead>
    requires InRange(all, groups) && g < |groups|
  {
    var sorted := SortByCreated(Pick(all, groups[g]));
    if Merges(Pick(all, groups[g])) && sorted != [] then Some(Survivor(sorted)) else None
  }

  /** No two skipped leads, and no skipped lead and merged group, store the same identity. */
  ghost predicate SkippedApart(all: seq<Lead>, groups: seq<seq<nat>>)
    requires InRange(all, groups)
  {
    && (forall i: nat, j: nat :: Skipped(all, groups, i) && Skipped(all, groups, j) && i != j ==>
      !Clash(all[i], all[j]))
    && (forall i: nat, g: nat :: Skipped(all, groups, i) && g < |groups| && MergedOf(all, groups, g).Some? ==>
          !Clash(all[i], MergedOf(all, groups, g).value))
  }

  lemma SkippedStays(all: seq<Lead>, groups: seq<seq<nat>>, i: nat)
    requires DistinctLeads(all) && Components(Contacts(all), groups) && InRange(all, groups) && Skipped(all, groups, i)
    ensures i < |all|
    ensures var docs := Consolidated(all, groups, |groups|); all[i].id in docs && docs[all[i].id] == all[i]
  {
    hide SortByCreated, Survivor, AsContact, Connected, Consolidated, Components, Processed, Contacts;
    var g :| 0 <= g < |groups| && i in groups[g] && !Processed(Pick(all, groups[g]));
    ConsolidatedAt(all, groups, |groups|, g, i);
  }

  /** Where the merged lead of a group is stored. */
  lemma MergedStays(all: seq<Lead>, groups: seq<seq<nat>>, g: nat) returns (i: nat)
    requires DistinctLeads(all) && Components(Contacts(all), groups) && InRange(all, groups) && g < |groups|
    requires MergedOf(all, groups, g).Some?
    ensures i < |all| && i in groups[g] && Merges(Pick(all, groups[g]))
    ensures var docs := Consolidated(all, groups, |groups|);
            all[i].id in docs && docs[all[i].id] == MergedOf(all, groups, g).value
  {
    var group := Pick(all, groups[g]);
    var m := SortFirst(group);
    i := groups[g][m];
    assert i in groups[g] && group[m] == all[i];
    hide SortByCreated, Survivor, AsContact, Connected, Consolidated, Components, Processed, Contacts;
    ConsolidatedAt(all, groups, |groups|, g, i);
  }

  /** What a document left by a completed run is: a skipped lead as it was, or a merged group. */
  lemma StoredIs(all: seq<Lead>, groups: seq<seq<nat>>, id: string) returns (i: nat, g: nat)
    requires DistinctLeads(all) && Components(Contacts(all), groups) && InRange(all, groups)
    requires NoneRefused(all, groups, |groups|) && id in Consolidated(all, groups, |groups|)
    ensures i < |all| && all[i].id == id && g < |groups| && i in groups[g]
    ensures var doc := Consolidated(all, groups, |groups|)[id];
            if Merges(Pick(all, groups[g])) then MergedOf(all, groups, g) == Some(doc)
            else Skipped(all, groups, i) && doc == all[i]
  {
    hide SortByCreated, Survivor, AsContact, Connected, Consolidated, Components, Processed, Contacts, Refused;
    ConsolidatedKeys(all, groups, |groups|, id);
    i :| 0 <= i < |all| && all[i].id == id;
    g := RunOutcome(all, groups, |groups|, i);
  }

  lemma SkippedNotMerged(all: seq<Lead>, groups: seq<seq<nat>>, i: nat, g: nat, j: nat)
    requires DistinctLeads(all) && Components(Contacts(all), groups) && InRange(all, groups)
    requires Skipped(all, groups, i) && g < |groups| && j < |all| && j in groups[g] && Merges(Pick(all, groups[g]))
    requires
      var docs := Consolidated(all, groups, |groups|);
      all[j].id in docs && MergedOf(all, groups, g) == Some(docs[all[j].id])
    ensures i != j
  {
    hide SortByCreated, Survivor, AsContact, Consolidated, Processed, Contacts;
    var h :| 0 <= h < |groups| && i in groups[h] && !Processed(Pick(all, groups[h]));
    if i == j {
      OneGroup(all, groups, g, h, i);
    }
  }

  lemma OneGroup(all: seq<Lead>, groups: seq<seq<nat>>, g: nat, h: nat, i: nat)
    requires Components(Contacts(all), groups) && g < |groups| && h < |groups| && i in groups[g] && i in groups[h]
    requires InRange(all, groups)
    ensures g == h
  {
    ConnectedRefl(Contacts(all), i);
    hide Contacts, Connected;
  }

  /** A run is completed and both indexes can be built after it exactly when every group with a valid phone has an
      email, and the skipped leads share no stored identity among themselves or with a merged group; merged groups
      never share one. */
  lemma IndexableIff(all: seq<Lead>, groups: seq<seq<nat>>, k: nat, stopped: bool)
    requires DistinctLeads(all) && Components(Contacts(all), groups) && InRange(all, groups)
    requires EndsAfter(all, groups, k, stopped)
    ensures !stopped && Indexable(Consolidated(all, groups, k)) <==>
            NoneRefused(all, groups, |groups|) && SkippedApart(all, groups)
  {
    EndsOnce(all, groups, k, stopped);
    hide *;
    if !stopped && Indexable(Consolidated(all, groups, k)) {
      IndexableApart(all, groups);
    }
    if NoneRefused(all, groups, |groups|) && SkippedApart(all, groups) {
      ApartIndexable(all, groups);
    }
  }

  lemma EndsOnce(all: seq<Lead>, groups: seq<seq<nat>>, k: nat, stopped: bool)
    requires InRange(all, groups) && EndsAfter(all, groups, k, stopped)
    ensures NoneRefused(all, groups, |groups|) <==> !stopped
    ensures !stopped ==> k == |groups|
  {
    hide Refused;
  }

  lemma SkippedApartFrom(all: seq<Lead>, groups: seq<seq<nat>>, i: nat, j: nat)
    requires DistinctLeads(all) && Components(Contacts(all), groups) && InRange(all, groups)
    requires Indexable(Consolidated(all, groups, |groups|))
    requires Skipped(all, groups, i) && Skipped(all, groups, j) && i != j
    ensures i < |all| && j < |all| && !Clash(all[i], all[j])
  {
    SkippedStays(all, groups, i);
    SkippedStays(all, groups, j);
    hide MergedOf, Consolidated, Components, Contacts, Clash, Processed, AsContact, InRange;
  }

  lemma SkippedApartFromMerged(all: seq<Lead>, groups: seq<seq<nat>>, i: nat, g: nat)
    requires DistinctLeads(all) && Components(Contacts(all), groups) && InRange(all, groups)
    requires Indexable(Consolidated(all, groups, |groups|))
    requires Skipped(all, groups, i) && g < |groups| && MergedOf(all, groups, g).Some?
    ensures i < |all| && !Clash(all[i], MergedOf(all, groups, g).value)
  {
    hide *;
    SkippedStays(all, groups, i);
    var j := MergedStays(all, groups, g);
    SkippedNotMerged(all, groups, i, g, j);
    IdsDiffer(all, groups, i, j);
  }

  lemma IdsDiffer(all: seq<Lead>, groups: seq<seq<nat>>, i: nat, j: nat)
    requires DistinctLeads(all) && InRange(all, groups) && Indexable(Consolidated(all, groups, |groups|))
    requires i < |all| && j < |all| && i != j
    requires var docs := Consolidated(all, groups, |groups|); all[i].id in docs && all[j].id in docs
    ensures var docs := Consolidated(all, groups, |groups|); !Clash(docs[all[i].id], docs[all[j].id])
  {
    hide Consolidated, Clash, InRange;
  }

  lemma IndexableApart(all: seq<Lead>, groups: seq<seq<nat>>)
    requires DistinctLeads(all) && Components(Contacts(all), groups) && InRange(all, groups)
    requires Indexable(Consolidated(all, groups, |groups|))
    ensures SkippedApart(all, groups)
  {
    hide Indexable, Skipped, MergedOf, Consolidated, Components, Contacts, Clash, DistinctLeads, InRange;
    forall i: nat, j: nat | Skipped(all, groups, i) && Skipped(all, groups, j) && i != j
      ensures i < |all| && j < |all| && !Clash(all[i], all[j]) {
      SkippedApartFrom(all, groups, i, j);
    }
    forall i: nat, g: nat | Skipped(all, groups, i) && g < |groups| && MergedOf(all, groups, g).Some?
      ensures i < |all| && !Clash(all[i], MergedOf(all, groups, g).value) {
      SkippedApartFromMerged(all, groups, i, g);
    }
  }

  lemma ApartIndexable(all: seq<Lead>, groups: seq<seq<nat>>)
    requires DistinctLeads(all) && Components(Contacts(all), groups) && InRange(all, groups)
    requires NoneRefused(all, groups, |groups|) && SkippedApart(all, groups)
    ensures Indexable(Consolidated(all, groups, |groups|))
  {
    var docs := Consolidated(all, groups, |groups|);
    hide *;
    forall a, b | a in docs && b in docs && a != b ensures !Clash(docs[a], docs[b]) {
      ApartPair(all, groups, a, b);
    }
    IndexableFrom(docs);
  }

  lemma IndexableFrom(docs: map<string, Lead>)
    requires forall a, b :: a in docs && b in docs && a != b ==> !Clash(docs[a], docs[b])
    ensures Indexable(docs)
  {
  }

  lemma ApartPair(all: seq<Lead>, groups: seq<seq<nat>>, a: string, b: string)
    requires DistinctLeads(all) && Components(Contacts(all), groups) && InRange(all, groups)
    requires NoneRefused(all, groups, |groups|) && SkippedApart(all, groups)
    requires var docs := Consolidated(all, groups, |groups|); a in docs && b in docs && a != b
    ensures var docs := Consolidated(all, groups, |groups|); !Clash(docs[a], docs[b])
  {
    var docs := Consolidated(all, groups, |groups|);
    hide Skipped, Consolidated, Components, Contacts, Merges, MergedOf, Pick, InRange, NoneRefused, DistinctLeads;
    hide Clash;
    var i, g := StoredIs(all, groups, a);
    var j, h := StoredIs(all, groups, b);
    ClashBack(docs[a], docs[b]);
    if Merges(Pick(all, groups[g])) && Merges(Pick(all, groups[h])) {
      BothMerged(all, groups, i, g);
      BothMerged(all, groups, j, h);
      FinalIdentitiesDiffer(all, groups, |groups|, i, j);
    }
  }

  lemma ClashBack(a: Lead, b: Lead)
    ensures Clash(a, b) <==> Clash(b, a)
  {
  }

  lemma BothMerged(all: seq<Lead>, groups: seq<seq<nat>>, i: nat, g: nat)
    requires InRange(all, groups) && g < |groups| && i in groups[g] && Merges(Pick(all, groups[g]))
    ensures InMergedGroup(all, groups, |groups|, i)
  {
  }

  // ---------- inputs that fail ----------

  lemma SamplePhone()
    ensures IsMobile("+8801712345678") && SafePhone("+8801712345678") == "+8801712345678" && SafePhone("") == ""
  {
    hide Compact;
    assert "+8801712345678"[3..] == "01712345678";
    assert AllDigits("01712345678");
    hide SafePhone;
    MobileIsSafe("+8801712345678");
    SafePhoneStable("");
  }

  lemma SampleEmail()
    ensures SafeEmail("a@b.c") != "" && SafeEmail("") == ""
  {
    TrimId("a@b.c");
    SafeEmailStable("");
  }

  function LeadWith(id: string, phone: string, normalizedPhone: Option<string>, email: string): Lead {
    Lead(id, phone, normalizedPhone, email, "", "", [], 0, 0, None, Stage("", "", ""), "", "", [])
  }

  /** A lead with a valid `normalizedPhone`, an email and no `phone`: its group is merged, and has no phone then. */
  lemma PhoneLost()
    ensures var group := [LeadWith("1", "", Some("+8801712345678"), "a@b.c")];
            Merges(group) && SortByCreated(group) == group && Survivor(group).normalizedPhone == None
  {
    SamplePhone();
    SampleEmail();
    hide SafePhone, Survivor, SafeEmail;
    var lead := LeadWith("1", "", Some("+8801712345678"), "a@b.c");
    assert AsContact([lead][0]).phone != "" && [lead][..0] == [] && SafeEmail([lead][0].email) != "";
    SurvivorPhone([lead]);
  }

  /** Two leads with one phone and no email: the run is stopped with the second deleted and the first not merged. */
  lemma NoEmailStops()
    ensures var a, b := LeadWith("1", "+8801712345678", None, ""), LeadWith("2", "+8801712345678", None, "");
            var all, groups := [a, b], [[0, 1]];
            && DistinctLeads(all) && Components(Contacts(all), groups) && InRange(all, groups)
            && EndsAfter(all, groups, 1, true) && Consolidated(all, groups, 1) == map["1" := a]
  {
    SamplePhone();
    SampleEmail();
    hide SafePhone, SafeEmail, Survivor;
    var a, b := LeadWith("1", "+8801712345678", None, ""), LeadWith("2", "+8801712345678", None, "");
    var all := [a, b];
    OneComponent(Contacts(all));
    TwoPicked(a, b);
    assert AsContact(all[0]).phone != "";
    assert Refused(all);
    TwoApplied(a, b);
    StoreOfTwo(a, b);
  }

  lemma OneComponent(contacts: seq<Contact>)
    requires |contacts| == 2 && Shares(contacts[0], contacts[1])
    ensures Components(contacts, [[0, 1]])
  {
    ConnectedShares(contacts, 0, 1);
    ConnectedRefl(contacts, 0);
    ConnectedRefl(contacts, 1);
    hide Connected, Shares;
    assert 0 in [[0, 1]][0] && 1 in [[0, 1]][0];
  }

  lemma TwoComponents(contacts: seq<Contact>)
    requires |contacts| == 2 && !Shares(contacts[0], contacts[1])
    ensures Components(contacts, [[0], [1]])
  {
    ConnectedRefl(contacts, 0);
    ConnectedRefl(contacts, 1);
    NotJoined(contacts, 0, 1);
    NotJoined(contacts, 1, 0);
    hide Connected, Shares;
    assert 0 in [[0], [1]][0] && 1 in [[0], [1]][1];
  }

  lemma NotJoined(contacts: seq<Contact>, i: nat, j: nat)
    requires |contacts| == 2 && i + j == 1 && !Shares(contacts[0], contacts[1])
    ensures !Connected(contacts, i, j)
  {
    if Connected(contacts, i, j) {
      var path :| Joins(contacts, path, i, j);
      MarksAgree(contacts, [0, 1], path);
    }
  }

  lemma TwoPicked(a: Lead, b: Lead)
    ensures Pick([a, b], [0, 1]) == [a, b] && Pick([a, b], [0]) == [a] && Pick([a, b], [1]) == [b]
    ensures InRange([a, b], [[0, 1]]) && InRange([a, b], [[0], [1]])
  {
  }

  lemma StoreOfTwo(a: Lead, b: Lead)
    ensures Store([a, b]) == map[a.id := a][b.id := b]
  {
    assert [a, b][..1] == [a] && [a][..0] == [];
    assert Store([]) == map[] && Store([a]) == map[a.id := a];
  }

  lemma TwoApplied(a: Lead, b: Lead)
    requires a.id != b.id && a.createdAt <= b.createdAt && Refused([a, b])
    ensures ApplyGroup(map[a.id := a][b.id := b], [a, b]) == map[a.id := a]
  {
    hide AsContact, SafeEmail, Survivor;
    assert [a, b][..1] == [a] && [a][..0] == [];
    assert SortByCreated([a]) == [a];
    assert SortByCreated([a, b]) == [a, b];
    assert LeadIds([a, b][1..]) == [b.id];
    var docs := map[a.id := a][b.id := b];
    assert (map id | id in docs && id !in [b.id] :: docs[id]) == map[a.id := a];
    hide SortByCreated, LeadIds;
  }

  /** Two leads without a valid phone that store the same normalised one, be it the empty text: both are skipped, and
      the index on it is refused. */
  lemma SkippedClash(stored: string)
    ensures var all, groups := [LeadWith("1", "x", Some(stored), ""), LeadWith("2", "x", Some(stored), "")], [[0], [1]];
            && DistinctLeads(all) && Components(Contacts(all), groups) && InRange(all, groups)
            && EndsAfter(all, groups, 2, false) && !Indexable(Consolidated(all, groups, 2))
  {
    var a, b := LeadWith("1", "x", Some(stored), ""), LeadWith("2", "x", Some(stored), "");
    var all, groups := [a, b], [[0], [1]];
    NoPhone(a);
    NoPhone(b);
    hide AsContact;
    TwoComponents(Contacts(all));
    TwoPicked(a, b);
    NotProcessed(a);
    NotProcessed(b);
    hide Contacts, Components, Merges, Processed;
    assert 0 in groups[0] && 1 in groups[1];
    assert Skipped(all, groups, 0) && Skipped(all, groups, 1);
    assert Clash(a, b);
    hide Consolidated, Clash;
    if Indexable(Consolidated(all, groups, 2)) {
      SkippedApartFrom(all, groups, 0, 1);
    }
  }

  lemma NoPhone(lead: Lead)
    requires lead.phone == "x" && lead.email == "" && lead.normalizedEmail == ""
    ensures AsContact(lead) == Contact(lead.id, "", "")
  {
    assert Compact("x") == "x" by {
      assert "x"[1..] == "";
    }
    SafeEmailStable("");
  }

  lemma NotProcessed(lead: Lead)
    requires AsContact(lead).phone == ""
    ensures !Processed([lead]) && !Refused([lead])
  {
    hide AsContact;
  }
}
