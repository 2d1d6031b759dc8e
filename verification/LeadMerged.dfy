/** What the lead of a merged group is, field by field, in terms of the leads of the group. */
module LeadMerged {
  import opened Wrappers
  import opened Identity
  import opened LeadGroups
  import opened LeadMerge
  import opened LeadConsolidation

  // ---------- the parts ----------

  /** The text of the first lead that has one; missing when none has. */
  ghost predicate FirstPresent(leads: seq<Lead>, text: Lead -> string, r: string) {
    if forall i :: 0 <= i < |leads| ==> text(leads[i]) == "" then r == ""
    else exists i :: 0 <= i < |leads| && IsFirst(leads, text, i) && r == text(leads[i])
  }

  ghost predicate IsFirst(leads: seq<Lead>, text: Lead -> string, i: nat) {
    i < |leads| && text(leads[i]) != "" && forall j :: 0 <= j < i ==> text(leads[j]) == ""
  }

  /** The text of the last lead updated after `since` that has one; `own` when none has. */
  ghost predicate LastUpdated(leads: seq<Lead>, text: Lead -> string, since: int, own: string, r: string) {
    if forall i: nat :: !IsLast(leads, text, since, i) then r == own
    else exists i: nat :: IsLast(leads, text, since, i) && r == text(leads[i])
  }

  ghost predicate IsLast(leads: seq<Lead>, text: Lead -> string, since: int, i: nat) {
    i < |leads| && leads[i].updatedAt > since && text(leads[i]) != "" &&
    forall j :: i < j < |leads| ==> leads[j].updatedAt <= since || text(leads[j]) == ""
  }

  /** The earliest of the follow-ups; missing when no lead has one. */
  ghost predicate EarliestFollowUp(leads: seq<Lead>, r: Option<int>) {
    if forall i :: 0 <= i < |leads| ==> leads[i].nextFollowUp == None then r == None
    else r.Some? && (exists i :: 0 <= i < |leads| && leads[i].nextFollowUp == r) &&
         forall i :: 0 <= i < |leads| && leads[i].nextFollowUp.Some? ==> r.value <= leads[i].nextFollowUp.value
  }

  /** The item at `p` is present and occurs there first. */
  predicate Occurs(all: seq<string>, p: nat) {
    p < |all| && all[p] != "" && all[p] !in all[..p]
  }

  ghost predicate Chosen(all: seq<string>, items: seq<string>, places: seq<nat>) {
    && InOrder(places) && |places| == |items|
    && (forall p: nat :: p in places <==> Occurs(all, p))
    && (forall x :: 0 <= x < |items| ==> places[x] < |all| && items[x] == all[places[x]])
  }

  /** The present items, each once, in the order in which they first occur. */
  ghost predicate FirstOccurrences(all: seq<string>, items: seq<string>) {
    exists places :: Chosen(all, items, places)
  }

  function AllInterests(leads: seq<Lead>): seq<string> {
    if leads == [] then [] else AllInterests(leads[..|leads| - 1]) + leads[|leads| - 1].interests
  }

  function TrimmedNotes(leads: seq<Lead>): seq<string> {
    seq(|leads|, i requires 0 <= i < |leads| => Trim(leads[i].notes))
  }

  /** The history: the survivor's own entries and the ids of the other leads, in order. */
  predicate History(leads: seq<Lead>, entries: seq<string>)
    requires leads != []
  {
    var own := leads[0].mergedFrom;
    && |entries| == |own| + |leads| - 1
    && (forall x :: 0 <= x < |own| ==> entries[x] == own[x])
    && (forall x :: 0 < x < |leads| ==> entries[|own| + x - 1] == leads[x].id)
  }

  function PhoneOf(lead: Lead): string { SafePhone(lead.phone) }

  function EmailOf(lead: Lead): string { SafeEmail(lead.email) }

  function AgentOf(lead: Lead): string { lead.assignedAgent }

  function ContactIdOf(lead: Lead): string { lead.contactId }

  function StatusOf(lead: Lead): string { lead.stage.status }

  function LastContactOf(lead: Lead): string { lead.stage.lastContact }

  function LostReasonOf(lead: Lead): string { lead.stage.lostReason }

  /** The document is the merge of the leads, which are in order of creation. */
  ghost predicate IsMerge(leads: seq<Lead>, doc: Lead) {
    && leads != []
    && doc.id == leads[0].id && doc.createdAt == leads[0].createdAt && doc.updatedAt == leads[0].updatedAt
    && FirstPresent(leads, PhoneOf, TextOf(doc.normalizedPhone))
    && doc.normalizedPhone != Some("")
    && doc.phone == (if doc.normalizedPhone.Some? then doc.normalizedPhone.value else leads[0].phone)
    && FirstPresent(leads, EmailOf, doc.normalizedEmail) && doc.email == doc.normalizedEmail
    && FirstPresent(leads, AgentOf, doc.assignedAgent)
    && FirstPresent(leads, ContactIdOf, doc.contactId)
    && EarliestFollowUp(leads, doc.nextFollowUp)
    && MergedStage(leads, doc.stage)
    && FirstOccurrences(AllInterests(leads), doc.interests)
    && (exists notes :: FirstOccurrences(TrimmedNotes(leads), notes) && doc.notes == Join(notes))
    && History(leads, doc.mergedFrom)
  }

  ghost predicate MergedStage(leads: seq<Lead>, stage: Stage)
    requires leads != []
  {
    var own, since := leads[0].stage, leads[0].updatedAt;
    && LastUpdated(leads, StatusOf, since, own.status, stage.status)
    && LastUpdated(leads, LastContactOf, since, own.lastContact, stage.lastContact)
    && LastUpdated(leads, LostReasonOf, since, own.lostReason, stage.lostReason)
  }

  /** The notes of a list are joined as the notes of two halves are, by the separator. */
  lemma {:induction false} JoinSplits(a: seq<string>, b: seq<string>)
    requires a != [] && b != []
    ensures Join(a + b) == Join(a) + "\n\n--- merged duplicate ---\n\n" + Join(b)
    ensures |b| == 1 ==> Join(b) == b[0]
    decreases |b|
  {
    var front, last := b[..|b| - 1], b[|b| - 1];
    assert (a + b)[..|a + b| - 1] == a + front && b == front + [last];
    JoinLast(a + front, last);
    JoinLast(front, last);
    hide Join;
    if front != [] {
      JoinSplits(a, front);
      JoinGlue(Join(a), SEPARATOR, Join(front), last);
    } else {
      assert a + front == a;
    }
    assert a + front + [last] == a + b;
  }

  lemma JoinLast(front: seq<string>, last: string)
    ensures Join(front + [last]) == if front == [] then last else Join(front) + SEPARATOR + last
  {
    assert (front + [last])[..|front|] == front;
  }

  lemma JoinGlue(a: string, mid: string, b: string, c: string)
    ensures (a + mid + b) + mid + c == a + mid + (b + mid + c)
  {
  }

  // ---------- the survivor is the merge ----------

  /** Whether a lead is the first with a text, or none is, in a longer list. */
  lemma FirstGrows(front: seq<Lead>, last: Lead, text: Lead -> string, i: nat)
    ensures i < |front| ==> (IsFirst(front + [last], text, i) <==> IsFirst(front, text, i))
    ensures IsFirst(front + [last], text, |front|) <==>
            text(last) != "" && forall j :: 0 <= j < |front| ==> text(front[j]) == ""
  {
    var all := front + [last];
    assert forall j :: 0 <= j < |front| ==> all[j] == front[j];
  }

  lemma FirstStep(front: seq<Lead>, last: Lead, text: Lead -> string, before: string)
    requires FirstPresent(front, text, before)
    ensures FirstPresent(front + [last], text, Or(before, text(last)))
  {
    var all := front + [last];
    if forall i :: 0 <= i < |front| ==> text(front[i]) == "" {
      FirstGrows(front, last, text, |front|);
      hide IsFirst;
      assert forall i :: 0 <= i < |all| ==> all[i] == if i < |front| then front[i] else last;
    } else {
      var i :| 0 <= i < |front| && IsFirst(front, text, i) && before == text(front[i]);
      FirstGrows(front, last, text, i);
      assert all[i] == front[i] && text(all[i]) != "";
      hide IsFirst;
    }
  }

  lemma {:induction false} FirstTextIs(leads: seq<Lead>, text: Lead -> string, texts: seq<string>)
    requires |leads| == |texts| && forall i :: 0 <= i < |leads| ==> texts[i] == text(leads[i])
    ensures FirstPresent(leads, text, FirstText("", texts))
    decreases |leads|
  {
    if leads != [] {
      var front, last := leads[..|leads| - 1], leads[|leads| - 1];
      FirstTextIs(front, text, texts[..|texts| - 1]);
      FirstStep(front, last, text, FirstText("", texts[..|texts| - 1]));
      assert leads == front + [last];
      hide FirstPresent, Or;
    }
  }

  /** Starting from the first text itself changes nothing. */
  lemma {:induction false} FirstTextOwn(own: string, texts: seq<string>)
    requires texts != [] && texts[0] == own
    ensures FirstText(own, texts) == FirstText("", texts)
    decreases |texts|
  {
    if |texts| > 1 {
      FirstTextOwn(own, texts[..|texts| - 1]);
    } else {
      assert texts[..0] == [];
    }
  }

  lemma FirstPresentOf(leads: seq<Lead>, text: Lead -> string, texts: seq<string>)
    requires leads != [] && |leads| == |texts| && forall i :: 0 <= i < |leads| ==> texts[i] == text(leads[i])
    ensures FirstPresent(leads, text, FirstText(text(leads[0]), texts))
  {
    FirstTextIs(leads, text, texts);
    FirstTextOwn(text(leads[0]), texts);
    hide FirstPresent, FirstText;
  }

  // ---------- status, last contact and lost reason ----------

  /** A list of texts as the last updated leads have put them, one over the other. */
  function Overlaid(own: string, since: int, leads: seq<Lead>, text: Lead -> string): string {
    if leads == [] then own
    else
      var before, last := Overlaid(own, since, leads[..|leads| - 1], text), leads[|leads| - 1];
      if last.updatedAt > since && text(last) != "" then text(last) else before
  }

  lemma {:induction false} StageOverlaid(own: Stage, since: int, leads: seq<Lead>)
    ensures var stage := StageOf(own, since, leads);
            && stage.status == Overlaid(own.status, since, leads, StatusOf)
            && stage.lastContact == Overlaid(own.lastContact, since, leads, LastContactOf)
            && stage.lostReason == Overlaid(own.lostReason, since, leads, LostReasonOf)
    decreases |leads|
  {
    if leads != [] {
      StageOverlaid(own, since, leads[..|leads| - 1]);
    }
  }

  lemma LastGrows(front: seq<Lead>, last: Lead, text: Lead -> string, since: int, i: nat)
    ensures last.updatedAt <= since || text(last) == "" ==>
              (IsLast(front + [last], text, since, i) <==> IsLast(front, text, since, i))
    ensures last.updatedAt > since && text(last) != "" ==>
              (IsLast(front + [last], text, since, i) <==> i == |front|)
  {
    var all := front + [last];
    assert forall j :: 0 <= j < |front| ==> all[j] == front[j];
    assert all[|front|] == last;
  }

  lemma OverlayStep(front: seq<Lead>, last: Lead, text: Lead -> string, since: int, own: string, before: string)
    requires LastUpdated(front, text, since, own, before)
    ensures LastUpdated(front + [last], text, since, own,
              if last.updatedAt > since && text(last) != "" then text(last) else before)
  {
    var all := front + [last];
    assert forall i: nat :: IsLast(front, text, since, i) ==> i < |front|;
    forall i: nat
      ensures last.updatedAt <= since || text(last) == "" ==>
                (IsLast(all, text, since, i) <==> IsLast(front, text, since, i))
      ensures last.updatedAt > since && text(last) != "" ==> (IsLast(all, text, since, i) <==> i == |front|)
    {
      LastGrows(front, last, text, since, i);
    }
    assert all[|front|] == last;
    hide IsLast;
    if !(last.updatedAt > since && text(last) != "") && exists i: nat :: IsLast(front, text, since, i) {
      var i: nat :| IsLast(front, text, since, i) && before == text(front[i]);
      assert IsLast(all, text, since, i) && all[i] == front[i];
    }
  }

  lemma {:induction false} OverlaidIs(own: string, since: int, leads: seq<Lead>, text: Lead -> string)
    ensures LastUpdated(leads, text, since, own, Overlaid(own, since, leads, text))
    decreases |leads|
  {
    if leads != [] {
      var front, last := leads[..|leads| - 1], leads[|leads| - 1];
      OverlaidIs(own, since, front, text);
      OverlayStep(front, last, text, since, own, Overlaid(own, since, front, text));
      assert leads == front + [last];
      hide LastUpdated;
    }
  }

  lemma StageMerged(leads: seq<Lead>)
    requires leads != []
    ensures MergedStage(leads, StageOf(leads[0].stage, leads[0].updatedAt, leads))
  {
    var own, since := leads[0].stage, leads[0].updatedAt;
    StageOverlaid(own, since, leads);
    OverlaidIs(own.status, since, leads, StatusOf);
    OverlaidIs(own.lastContact, since, leads, LastContactOf);
    OverlaidIs(own.lostReason, since, leads, LostReasonOf);
    hide LastUpdated, StageOf, Overlaid;
  }

  // ---------- notes and interests ----------

  lemma {:induction false} UniqueIdsChosen(all: seq<string>) returns (places: seq<nat>)
    ensures Chosen(all, UniqueIds(all), places)
    decreases |all|
  {
    if all == [] {
      places := [];
    } else {
      var front, last := all[..|all| - 1], all[|all| - 1];
      var before := UniqueIdsChosen(front);
      places := ChosenStep(front, last, UniqueIds(front), before);
      assert all == front + [last];
      UniqueIdsIn(front, last);
    }
  }

  lemma UniqueIdsIn(all: seq<string>, item: string)
    ensures item in UniqueIds(all) <==> item != "" && item in all
  {
    UniqueIdsComplete(all, item);
  }

  lemma ChosenStep(all: seq<string>, item: string, items: seq<string>, places: seq<nat>) returns (more: seq<nat>)
    requires Chosen(all, items, places)
    ensures Chosen(all + [item], if item != "" && item !in all then items + [item] else items, more)
  {
    forall p: nat ensures Occurs(all + [item], p) <==> Occurs(all, p) || (p == |all| && item != "" && item !in all) {
      if p < |all| {
        assert (all + [item])[..p] == all[..p];
      } else if p == |all| {
        assert (all + [item])[..p] == all;
      }
    }
    if item != "" && item !in all {
      more := places + [|all|];
      forall p | p in places ensures p < |all| {
        assert Occurs(all, p);
      }
      AppendInOrder(places, |all|);
      hide Occurs, InOrder;
      assert forall p: nat :: p in more <==> p in places || p == |all|;
    } else {
      more := places;
      hide Occurs, InOrder;
    }
  }

  lemma {:induction false} InterestsFlat(own: seq<string>, leads: seq<Lead>)
    requires leads != [] && own == leads[0].interests
    ensures InterestsOf(own, leads) == UniqueIds(AllInterests(leads))
    decreases |leads|
  {
    var front, last := leads[..|leads| - 1], leads[|leads| - 1].interests;
    if front == [] {
      assert AllInterests(front) == [] && [] + last == last;
      forall item | item in own ensures item == "" || item in UniqueIds(own) {
        UniqueIdsComplete(own, item);
      }
      UniqueAgain(own, own);
    } else {
      InterestsFlat(own, front);
      UniqueOver(AllInterests(front), last);
    }
  }

  /** Picking from a list already picked from is picking from the list. */
  lemma {:induction false} UniqueOver(a: seq<string>, b: seq<string>)
    ensures UniqueIds(UniqueIds(a) + b) == UniqueIds(a + b)
    decreases |b|
  {
    if b == [] {
      assert UniqueIds(a) + b == UniqueIds(a) && a + b == a;
      UniqueIdsComplete(a, "");
      UniqueSelf(UniqueIds(a));
    } else {
      var front := b[..|b| - 1];
      UniqueOver(a, front);
      assert (a + b)[..|a + b| - 1] == a + front;
      assert (UniqueIds(a) + b)[..|UniqueIds(a) + b| - 1] == UniqueIds(a) + front;
    }
  }

  lemma {:induction false} NotesUnique(leads: seq<Lead>)
    ensures NotesOf(leads) == UniqueIds(TrimmedNotes(leads))
    decreases |leads|
  {
    if leads != [] {
      NotesUnique(leads[..|leads| - 1]);
      assert TrimmedNotes(leads)[..|leads| - 1] == TrimmedNotes(leads[..|leads| - 1]);
    }
    hide Trim;
  }

  // ---------- the survivor ----------

  lemma FollowUpIs(own: Option<int>, leads: seq<Lead>)
    requires leads != [] && own == leads[0].nextFollowUp
    ensures EarliestFollowUp(leads, FollowUpOf(own, leads))
  {
    FollowUpEarliest(own, leads);
    var r := FollowUpOf(own, leads);
    assert leads[0] in leads;
    if r.Some? {
      if r == own {
        assert leads[0].nextFollowUp == r;
      } else {
        var lead :| lead in leads && r == lead.nextFollowUp;
        var i :| 0 <= i < |leads| && leads[i] == lead;
      }
      assert forall i :: 0 <= i < |leads| ==> leads[i] in leads;
    } else {
      assert forall i :: 0 <= i < |leads| ==> leads[i] in leads;
    }
    hide FollowUpOf;
  }

  lemma SurvivorTexts(leads: seq<Lead>)
    requires leads != []
    ensures var s := Survivor(leads);
            && FirstPresent(leads, PhoneOf, TextOf(s.normalizedPhone)) && s.normalizedPhone != Some("")
            && s.phone == (if s.normalizedPhone.Some? then s.normalizedPhone.value else leads[0].phone)
            && FirstPresent(leads, AgentOf, s.assignedAgent) && FirstPresent(leads, ContactIdOf, s.contactId)
  {
    SurvivorFields(leads);
    FirstPresentOf(leads, PhoneOf, SafePhones(leads));
    FirstPresentOf(leads, AgentOf, Agents(leads));
    FirstPresentOf(leads, ContactIdOf, ContactIds(leads));
    SurvivorOwn(leads);
    hide Survivor, FirstPresent, FirstText, SafePhone, SafePhones, Agents, ContactIds, SafeEmail, SafeEmails;
  }

  /** The fields of the survivor that are gathered one by one. */
  lemma SurvivorOwn(leads: seq<Lead>)
    requires leads != []
    ensures var s, first := Survivor(leads), leads[0];
            && s.id == first.id && s.createdAt == first.createdAt && s.updatedAt == first.updatedAt
            && s.assignedAgent == FirstText(first.assignedAgent, Agents(leads))
            && s.contactId == FirstText(first.contactId, ContactIds(leads))
            && s.nextFollowUp == FollowUpOf(first.nextFollowUp, leads)
            && s.stage == StageOf(first.stage, first.updatedAt, leads)
            && s.interests == InterestsOf(first.interests, leads)
            && s.notes == Join(NotesOf(leads)) && s.mergedFrom == HistoryOf(leads)
            && s.phone == Or(TextOf(s.normalizedPhone), first.phone) && s.email == s.normalizedEmail
  {
    hide SafePhone, SafeEmail, FirstText, InterestsOf, FollowUpOf, StageOf, NotesOf, Join, HistoryOf, Agents,
      ContactIds;
  }

  /** The first raw email is the first normalised one, unless it is blank. */
  lemma SurvivorEmailFirst(leads: seq<Lead>)
    requires leads != []
    ensures FirstPresent(leads, EmailOf, Survivor(leads).normalizedEmail)
  {
    SurvivorFields(leads);
    var raw := FirstText(leads[0].email, LeadMerge.Emails(leads));
    FirstPresentOf(leads, RawEmail, LeadMerge.Emails(leads));
    FirstPresentOf(leads, EmailOf, SafeEmails(leads));
    SafeEmailStable("");
    hide Survivor, FirstText, SafeEmail, LeadMerge.Emails;
    if SafeEmail(raw) != "" {
      RawFirst(leads, raw);
      FirstTextKeeps(SafeEmail(raw), SafeEmails(leads));
    } else {
      NoOwnText(leads, raw);
    }
  }

  function RawEmail(lead: Lead): string { lead.email }

  lemma FirstTextKeeps(own: string, texts: seq<string>)
    requires own != ""
    ensures FirstText(own, texts) == own
  {
    FirstTextFrom(own, texts);
  }

  lemma RawFirst(leads: seq<Lead>, raw: string)
    requires FirstPresent(leads, RawEmail, raw) && SafeEmail(raw) != "" && SafeEmail("") == ""
    ensures FirstPresent(leads, EmailOf, SafeEmail(raw))
  {
    hide SafeEmail;
    var i :| 0 <= i < |leads| && IsFirst(leads, RawEmail, i) && raw == RawEmail(leads[i]);
    assert IsFirst(leads, EmailOf, i);
  }

  lemma NoOwnText(leads: seq<Lead>, raw: string)
    requires leads != [] && FirstPresent(leads, RawEmail, raw) && SafeEmail(raw) == "" && SafeEmail("") == ""
    ensures SafeEmail(leads[0].email) == ""
  {
    hide SafeEmail;
    if leads[0].email != "" {
      assert IsFirst(leads, RawEmail, 0);
      var i :| 0 <= i < |leads| && IsFirst(leads, RawEmail, i) && raw == RawEmail(leads[i]);
      assert i == 0;
    }
  }

  lemma HistoryIs(leads: seq<Lead>)
    requires leads != []
    ensures History(leads, HistoryOf(leads))
  {
    var own, rest := leads[0].mergedFrom, LeadIds(leads[1..]);
    assert forall x :: 0 < x < |leads| ==> rest[x - 1] == leads[x].id;
  }

  lemma ListsChosen(leads: seq<Lead>)
    requires leads != []
    ensures FirstOccurrences(AllInterests(leads), InterestsOf(leads[0].interests, leads))
    ensures FirstOccurrences(TrimmedNotes(leads), NotesOf(leads))
  {
    InterestsFlat(leads[0].interests, leads);
    NotesUnique(leads);
    hide InterestsOf, NotesOf, UniqueIds, AllInterests, TrimmedNotes, Chosen;
    var places := UniqueIdsChosen(AllInterests(leads));
    var spots := UniqueIdsChosen(TrimmedNotes(leads));
  }

  lemma SurvivorGathered(leads: seq<Lead>)
    requires leads != []
    ensures var s := Survivor(leads);
            && s.id == leads[0].id && s.createdAt == leads[0].createdAt && s.updatedAt == leads[0].updatedAt
            && EarliestFollowUp(leads, s.nextFollowUp) && MergedStage(leads, s.stage)
            && FirstOccurrences(AllInterests(leads), s.interests)
            && (exists notes :: FirstOccurrences(TrimmedNotes(leads), notes) && s.notes == Join(notes))
            && History(leads, s.mergedFrom) && s.email == s.normalizedEmail
  {
    SurvivorOwn(leads);
    FollowUpIs(leads[0].nextFollowUp, leads);
    StageMerged(leads);
    ListsChosen(leads);
    HistoryIs(leads);
    hide *;
  }

  /** The survivor is the merge of its leads. */
  lemma SurvivorIsMerge(leads: seq<Lead>)
    requires leads != []
    ensures IsMerge(leads, Survivor(leads))
  {
    SurvivorTexts(leads);
    SurvivorEmailFirst(leads);
    SurvivorGathered(leads);
    hide Survivor, FirstPresent, Join, FirstOccurrences, EarliestFollowUp, MergedStage, History, AllInterests;
    hide TrimmedNotes;
  }

  // ---------- there is only one ----------

  lemma FirstOnce(leads: seq<Lead>, text: Lead -> string, a: string, b: string)
    requires FirstPresent(leads, text, a) && FirstPresent(leads, text, b)
    ensures a == b
  {
    if !forall i :: 0 <= i < |leads| ==> text(leads[i]) == "" {
      var i :| 0 <= i < |leads| && IsFirst(leads, text, i) && a == text(leads[i]);
      var j :| 0 <= j < |leads| && IsFirst(leads, text, j) && b == text(leads[j]);
      assert i == j;
    }
  }

  lemma LastOnce(leads: seq<Lead>, text: Lead -> string, since: int, own: string, a: string, b: string)
    requires LastUpdated(leads, text, since, own, a) && LastUpdated(leads, text, since, own, b)
    ensures a == b
  {
    if !forall i: nat :: !IsLast(leads, text, since, i) {
      var i: nat :| IsLast(leads, text, since, i) && a == text(leads[i]);
      var j: nat :| IsLast(leads, text, since, j) && b == text(leads[j]);
      assert i == j;
    }
  }

  lemma ChosenOnce(all: seq<string>, a: seq<string>, b: seq<string>)
    requires FirstOccurrences(all, a) && FirstOccurrences(all, b)
    ensures a == b
  {
    var p :| Chosen(all, a, p);
    var q :| Chosen(all, b, q);
    hide Occurs;
    RisingSame(p, q);
    hide InOrder;
    assert forall x :: 0 <= x < |a| ==> a[x] == all[p[x]] == all[q[x]] == b[x];
  }

  lemma HistoryOnce(leads: seq<Lead>, a: seq<string>, b: seq<string>)
    requires leads != [] && History(leads, a) && History(leads, b)
    ensures a == b
  {
    var n := |leads[0].mergedFrom|;
    forall x | 0 <= x < |a| ensures a[x] == b[x] {
      if x >= n {
        var y := x - n + 1;
        assert a[n + y - 1] == leads[y].id == b[n + y - 1];
      }
    }
  }

  lemma StageOnce(leads: seq<Lead>, a: Stage, b: Stage)
    requires leads != [] && MergedStage(leads, a) && MergedStage(leads, b)
    ensures a == b
  {
    var own, since := leads[0].stage, leads[0].updatedAt;
    hide LastUpdated;
    LastOnce(leads, StatusOf, since, own.status, a.status, b.status);
    LastOnce(leads, LastContactOf, since, own.lastContact, a.lastContact, b.lastContact);
    LastOnce(leads, LostReasonOf, since, own.lostReason, a.lostReason, b.lostReason);
  }

  lemma NotesOnce(all: seq<string>, a: string, b: string)
    requires exists notes :: FirstOccurrences(all, notes) && a == Join(notes)
    requires exists notes :: FirstOccurrences(all, notes) && b == Join(notes)
    ensures a == b
  {
    var p :| FirstOccurrences(all, p) && a == Join(p);
    var q :| FirstOccurrences(all, q) && b == Join(q);
    hide FirstOccurrences, Join;
    ChosenOnce(all, p, q);
  }

  /** The description leaves nothing open: two merges of the same leads are the same document. */
  lemma MergeUnique(leads: seq<Lead>, a: Lead, b: Lead)
    requires IsMerge(leads, a) && IsMerge(leads, b)
    ensures a == b
  {
    hide FirstPresent, FirstOccurrences, EarliestFollowUp, MergedStage, History, AllInterests, TrimmedNotes, Join;
    FirstOnce(leads, PhoneOf, TextOf(a.normalizedPhone), TextOf(b.normalizedPhone));
    FirstOnce(leads, EmailOf, a.normalizedEmail, b.normalizedEmail);
    FirstOnce(leads, AgentOf, a.assignedAgent, b.assignedAgent);
    FirstOnce(leads, ContactIdOf, a.contactId, b.contactId);
    FollowUpOnce(leads, a.nextFollowUp, b.nextFollowUp);
    StageOnce(leads, a.stage, b.stage);
    ChosenOnce(AllInterests(leads), a.interests, b.interests);
    NotesOnce(TrimmedNotes(leads), a.notes, b.notes);
    HistoryOnce(leads, a.mergedFrom, b.mergedFrom);
  }

  lemma FollowUpOnce(leads: seq<Lead>, a: Option<int>, b: Option<int>)
    requires EarliestFollowUp(leads, a) && EarliestFollowUp(leads, b)
    ensures a == b
  {
  }

  // ---------- in the collection ----------

  /** Wherever a run ends, the document left of a merged group is the merge of the leads of the group. */
  lemma MergedDocument(all: seq<Lead>, groups: seq<seq<nat>>, k: nat, g: nat, i: nat)
    requires DistinctLeads(all) && Components(Contacts(all), groups) && InRange(all, groups)
    requires g < k <= |groups| && Merges(Pick(all, groups[g])) && i < |all| && i in groups[g]
    requires all[i].id in Consolidated(all, groups, k)
    ensures IsMerge(SortByCreated(Pick(all, groups[g])), Consolidated(all, groups, k)[all[i].id])
  {
    ConsolidatedAt(all, groups, k, g, i);
    hide Consolidated, Components, Contacts, DistinctLeads, InRange, SortByCreated, Survivor, Processed, Refused, Pick;
    hide IsMerge;
    SurvivorIsMerge(SortByCreated(Pick(all, groups[g])));
  }

  // ---------- who is taken for the same person ----------

  /** The phone of a lead as grouping reads it: the stored one or, without it, the normalized one stores the
      international number. */
  predicate HasPhone(lead: Lead, number: string) {
    var normalized := if lead.normalizedPhone.Some? then lead.normalizedPhone.value else "";
    var text := if lead.phone != "" then lead.phone else normalized;
    IsInternational(number) && Compact(text) in {number, number[1..], "00" + number[1..], number[3..]}
  }

  /** The same for its email. */
  predicate HasEmail(lead: Lead, email: string) {
    email != "" && SafeEmail(if lead.email != "" then lead.email else lead.normalizedEmail) == email
  }

  lemma PhoneRead(lead: Lead, number: string)
    ensures number != "" && AsContact(lead).phone == number <==> HasPhone(lead, number)
  {
    if number != "" {
      SafePhoneIff(if lead.phone != "" then lead.phone else TextOf(lead.normalizedPhone), number);
    }
    hide SafePhone, SafeEmail, Compact;
  }

  lemma EmailRead(lead: Lead, email: string)
    ensures email != "" && AsContact(lead).email == email <==> HasEmail(lead, email)
  {
    hide SafePhone, SafeEmail;
  }

  /** Two leads are joined directly exactly when they have a phone number or an email in common. */
  lemma SharesRead(a: Lead, b: Lead)
    ensures Shares(AsContact(a), AsContact(b)) <==>
            (exists number :: HasPhone(a, number) && HasPhone(b, number)) ||
            (exists email :: HasEmail(a, email) && HasEmail(b, email))
  {
    hide AsContact, HasPhone, HasEmail;
    var p, e := AsContact(a).phone, AsContact(a).email;
    PhoneRead(a, p);
    PhoneRead(b, p);
    EmailRead(a, e);
    EmailRead(b, e);
    forall number: string | HasPhone(a, number) && HasPhone(b, number) ensures number == p && p != "" {
      PhoneRead(a, number);
      PhoneRead(b, number);
    }
    forall email: string | HasEmail(a, email) && HasEmail(b, email) ensures email == e && e != "" {
      EmailRead(a, email);
      EmailRead(b, email);
    }
  }

  /** A group counts as valid exactly when one of its leads has a phone number. */
  lemma ProcessedRead(group: seq<Lead>)
    ensures Processed(group) <==> exists lead, number :: lead in group && HasPhone(lead, number)
  {
    hide AsContact, HasPhone;
    forall lead | lead in group ensures AsContact(lead).phone != "" <==> HasPhone(lead, AsContact(lead).phone) {
      PhoneRead(lead, AsContact(lead).phone);
    }
    forall lead, number | lead in group && HasPhone(lead, number) ensures AsContact(lead).phone != "" {
      PhoneRead(lead, number);
    }
    forall x | 0 <= x < |group| && AsContact(group[x]).phone != ""
      ensures group[x] in group && HasPhone(group[x], AsContact(group[x]).phone)
    {
    }
  }
}
