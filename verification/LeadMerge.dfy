/** Consolidating duplicate leads: the merge of one group, and the delete-then-update pass over the groups of
    one tenant.  Absent text fields are ""; of the normalised phone it matters whether it is stored. */
module LeadMerge {
  import opened Wrappers
  import opened Identity
  import opened LeadGroups

  /** What a lead brings from its own history: status, last contact and the reason it was lost. */
  datatype Stage = Stage(status: string, lastContact: string, lostReason: string)

  datatype Lead = Lead(
    id: string,
    phone: string,
    normalizedPhone: Option<string>,
    email: string,
    normalizedEmail: string,
    notes: string,
    interests: seq<string>,
    createdAt: int,
    updatedAt: int,
    nextFollowUp: Option<int>,
    stage: Stage,
    assignedAgent: string,
    contactId: string,
    mergedFrom: seq<string>)

  /** `a || b` on text. */
  function Or(a: string, b: string): string {
    if a != "" then a else b
  }

  function TextOf(text: Option<string>): string {
    if text.Some? then text.value else ""
  }

  /** What storing a text that may be `undefined` leaves. */
  function Stored(text: string): Option<string> {
    if text == "" then None else Some(text)
  }

  /** A lead as the grouping loop sees it. */
  function AsContact(lead: Lead): Contact {
    Contact(lead.id, SafePhone(Or(lead.phone, TextOf(lead.normalizedPhone))),
      SafeEmail(Or(lead.email, lead.normalizedEmail)))
  }

  // ---------- the stable sort by creation ----------

  function Insert(sorted: seq<Lead>, lead: Lead): seq<Lead> {
    if sorted == [] then [lead]
    else
      var last := sorted[|sorted| - 1];
      if last.createdAt <= lead.createdAt then sorted + [lead]
      else Insert(sorted[..|sorted| - 1], lead) + [last]
  }

  function SortByCreated(group: seq<Lead>): seq<Lead> {
    if group == [] then [] else Insert(SortByCreated(group[..|group| - 1]), group[|group| - 1])
  }

  ghost predicate Chronological(leads: seq<Lead>) {
    forall i, j :: 0 <= i < j < |leads| ==> leads[i].createdAt <= leads[j].createdAt
  }

  ghost predicate NotAfter(leads: seq<Lead>, time: int) {
    forall i :: 0 <= i < |leads| ==> leads[i].createdAt <= time
  }

  lemma {:induction false} InsertOrdered(sorted: seq<Lead>, lead: Lead, time: int)
    requires Chronological(sorted) && NotAfter(sorted, time) && lead.createdAt <= time
    ensures Chronological(Insert(sorted, lead)) && NotAfter(Insert(sorted, lead), time)
  {
    if sorted != [] {
      var last := sorted[|sorted| - 1];
      if last.createdAt > lead.createdAt {
        InsertOrdered(sorted[..|sorted| - 1], lead, last.createdAt);
      }
    }
  }

  lemma {:induction false} InsertKeeps(sorted: seq<Lead>, lead: Lead)
    ensures multiset(Insert(sorted, lead)) == multiset(sorted) + multiset{lead}
            && |Insert(sorted, lead)| == |sorted| + 1
  {
    if sorted != [] {
      var front, last := sorted[..|sorted| - 1], sorted[|sorted| - 1];
      assert sorted == front + [last];
      if last.createdAt > lead.createdAt {
        InsertKeeps(front, lead);
      }
    }
  }

  lemma {:induction false} InsertFirst(sorted: seq<Lead>, lead: Lead)
    requires Chronological(sorted)
    ensures var r := Insert(sorted, lead);
            r != [] && r[0] == if sorted == [] || lead.createdAt < sorted[0].createdAt then lead else sorted[0]
  {
    if |sorted| > 1 && sorted[|sorted| - 1].createdAt > lead.createdAt {
      InsertFirst(sorted[..|sorted| - 1], lead);
    }
  }

  /** The first of the leads created earliest. */
  ghost predicate IsEarliest(group: seq<Lead>, m: nat) {
    m < |group| && forall i :: 0 <= i < |group| ==>
      if i < m then group[m].createdAt < group[i].createdAt else group[m].createdAt <= group[i].createdAt
  }

  lemma InsertFacts(sorted: seq<Lead>, lead: Lead)
    requires Chronological(sorted)
    ensures var r := Insert(sorted, lead);
            Chronological(r) && multiset(r) == multiset(sorted) + multiset{lead} && |r| == |sorted| + 1
  {
    LatestBounds(sorted, lead);
    hide *;
    InsertOrdered(sorted, lead, Latest(sorted, lead));
    InsertKeeps(sorted, lead);
  }

  lemma FrontAndLast(group: seq<Lead>)
    requires group != []
    ensures multiset(group) == multiset(group[..|group| - 1]) + multiset{group[|group| - 1]}
  {
    assert group == group[..|group| - 1] + [group[|group| - 1]];
  }

  /** Sorting keeps the leads and puts them in order. */
  lemma {:induction false} SortFacts(group: seq<Lead>)
    ensures var r := SortByCreated(group); Chronological(r) && multiset(r) == multiset(group) && |r| == |group|
    decreases |group|
  {
    if group == [] {
    } else {
      SortOne(group);
      hide *;
      var front, last := group[..|group| - 1], group[|group| - 1];
      SortFacts(front);
      InsertFacts(SortByCreated(front), last);
      FrontAndLast(group);
    }
  }

  lemma SortOne(group: seq<Lead>)
    ensures group == [] ==> SortByCreated(group) == []
    ensures group != [] ==>
              SortByCreated(group) == Insert(SortByCreated(group[..|group| - 1]), group[|group| - 1])
  {
    hide Insert;
  }

  function Latest(sorted: seq<Lead>, lead: Lead): int {
    if sorted == [] || sorted[|sorted| - 1].createdAt < lead.createdAt then lead.createdAt
    else sorted[|sorted| - 1].createdAt
  }

  lemma LatestBounds(sorted: seq<Lead>, lead: Lead)
    requires Chronological(sorted)
    ensures NotAfter(sorted, Latest(sorted, lead)) && lead.createdAt <= Latest(sorted, lead)
  {
  }

  /** Sorting puts the earliest of the group first. */
  lemma {:induction false} SortFirst(group: seq<Lead>) returns (m: nat)
    requires group != []
    ensures IsEarliest(group, m) && SortByCreated(group) != [] && SortByCreated(group)[0] == group[m]
    decreases |group|
  {
    SortOne(group);
    hide SortByCreated, Insert;
    var front, last := group[..|group| - 1], group[|group| - 1];
    SortFacts(front);
    InsertFirst(SortByCreated(front), last);
    m := 0;
    if front != [] {
      m := SortFirst(front);
      if last.createdAt < front[m].createdAt {
        m := |front|;
      }
    }
  }

  /** The leads created at this time, in order. */
  function CreatedAt(leads: seq<Lead>, time: int): seq<Lead> {
    if leads == [] then []
    else
      var before, last := CreatedAt(leads[..|leads| - 1], time), leads[|leads| - 1];
      if last.createdAt == time then before + [last] else before
  }

  lemma CreatedAtAppend(leads: seq<Lead>, lead: Lead, time: int)
    ensures var before := CreatedAt(leads, time);
            CreatedAt(leads + [lead], time) == if lead.createdAt == time then before + [lead] else before
  {
    assert (leads + [lead])[..|leads|] == leads;
  }

  lemma {:induction false} InsertStable(sorted: seq<Lead>, lead: Lead, time: int)
    ensures CreatedAt(Insert(sorted, lead), time) == CreatedAt(sorted + [lead], time)
    decreases |sorted|
  {
    CreatedAtAppend(sorted, lead, time);
    if sorted != [] {
      var front, last := sorted[..|sorted| - 1], sorted[|sorted| - 1];
      if last.createdAt > lead.createdAt {
        InsertStable(front, lead, time);
        CreatedAtAppend(front, lead, time);
        CreatedAtAppend(Insert(front, lead), last, time);
      }
    } else {
      assert sorted + [lead] == [lead];
    }
  }

  /** The sort is stable: leads created at the same time keep their order. */
  lemma {:induction false} SortStable(group: seq<Lead>, time: int)
    ensures CreatedAt(SortByCreated(group), time) == CreatedAt(group, time)
    decreases |group|
  {
    if group != [] {
      var front, last := group[..|group| - 1], group[|group| - 1];
      SortStable(front, time);
      InsertStable(SortByCreated(front), last, time);
      CreatedAtAppend(SortByCreated(front), last, time);
      CreatedAtAppend(front, last, time);
      assert group == front + [last];
      hide CreatedAt, Insert;
    }
  }

  // ---------- what the merge loop gathers from the first `k` leads ----------

  function NotesOf(sorted: seq<Lead>): seq<string> {
    if sorted == [] then []
    else
      var before, note := NotesOf(sorted[..|sorted| - 1]), Trim(sorted[|sorted| - 1].notes);
      if note != "" && note !in before then before + [note] else before
  }

  /** `uniqueIds`: the present ids, each where it first occurs. */
  function UniqueIds(items: seq<string>): seq<string> {
    if items == [] then []
    else
      var before, item := UniqueIds(items[..|items| - 1]), items[|items| - 1];
      if item != "" && item !in before then before + [item] else before
  }

  function InterestsOf(own: seq<string>, sorted: seq<Lead>): seq<string> {
    if sorted == [] then own
    else UniqueIds(InterestsOf(own, sorted[..|sorted| - 1]) + sorted[|sorted| - 1].interests)
  }

  function FirstText(own: string, texts: seq<string>): string {
    if texts == [] then own else Or(FirstText(own, texts[..|texts| - 1]), texts[|texts| - 1])
  }

  function Sooner(a: Option<int>, b: Option<int>): Option<int> {
    if b.Some? && (a.None? || b.value < a.value) then b else a
  }

  function FollowUpOf(own: Option<int>, sorted: seq<Lead>): Option<int> {
    if sorted == [] then own else Sooner(FollowUpOf(own, sorted[..|sorted| - 1]), sorted[|sorted| - 1].nextFollowUp)
  }

  /** `lead.x || target.x` for each of the three. */
  function OrStage(a: Stage, b: Stage): Stage {
    Stage(Or(a.status, b.status), Or(a.lastContact, b.lastContact), Or(a.lostReason, b.lostReason))
  }

  /** The stage after the leads that were updated after the survivor have each put theirs over it. */
  function StageOf(own: Stage, since: int, sorted: seq<Lead>): Stage {
    if sorted == [] then own
    else
      var before, lead := StageOf(own, since, sorted[..|sorted| - 1]), sorted[|sorted| - 1];
      if lead.updatedAt > since then OrStage(lead.stage, before) else before
  }

  function Emails(leads: seq<Lead>): seq<string> {
    seq(|leads|, i requires 0 <= i < |leads| => leads[i].email)
  }

  function Agents(leads: seq<Lead>): seq<string> {
    seq(|leads|, i requires 0 <= i < |leads| => leads[i].assignedAgent)
  }

  function ContactIds(leads: seq<Lead>): seq<string> {
    seq(|leads|, i requires 0 <= i < |leads| => leads[i].contactId)
  }

  function LeadIds(leads: seq<Lead>): seq<string> {
    seq(|leads|, i requires 0 <= i < |leads| => leads[i].id)
  }

  function SafePhones(leads: seq<Lead>): seq<string> {
    seq(|leads|, i requires 0 <= i < |leads| => SafePhone(leads[i].phone))
  }

  function SafeEmails(leads: seq<Lead>): seq<string> {
    seq(|leads|, i requires 0 <= i < |leads| => SafeEmail(leads[i].email))
  }

  const SEPARATOR := "\n\n--- merged duplicate ---\n\n"

  function Join(notes: seq<string>): string {
    if notes == [] then ""
    else if |notes| == 1 then notes[0]
    else Join(notes[..|notes| - 1]) + SEPARATOR + notes[|notes| - 1]
  }

  /** The target while the loop has seen `seen`: the survivor with what those leads contribute. */
  function Gathered(first: Lead, seen: seq<Lead>): Lead {
    first.(interests := InterestsOf(first.interests, seen),
           email := FirstText(first.email, Emails(seen)),
           assignedAgent := FirstText(first.assignedAgent, Agents(seen)),
           contactId := FirstText(first.contactId, ContactIds(seen)),
           nextFollowUp := FollowUpOf(first.nextFollowUp, seen),
           stage := StageOf(first.stage, first.updatedAt, seen))
  }

  function HistoryOf(sorted: seq<Lead>): seq<string>
    requires sorted != []
  {
    sorted[0].mergedFrom + LeadIds(sorted[1..])
  }

  /** The merged lead of a group sorted by creation. */
  function Survivor(sorted: seq<Lead>): Lead
    requires sorted != []
  {
    var target := Gathered(sorted[0], sorted);
    var phone := FirstText(SafePhone(target.phone), SafePhones(sorted));
    var email := FirstText(SafeEmail(target.email), SafeEmails(sorted));
    target.(notes := Join(NotesOf(sorted)),
            mergedFrom := HistoryOf(sorted),
            normalizedPhone := Stored(phone),
            phone := Or(phone, target.phone),
            normalizedEmail := email,
            email := email)
  }

  lemma PrefixGrows(sorted: seq<Lead>, i: nat)
    requires i < |sorted|
    ensures sorted[..i + 1][..i] == sorted[..i] && sorted[..i + 1] == sorted[..i] + [sorted[i]]
  {
  }

  /** The target after one lead. */
  function Absorbed(t: Lead, lead: Lead): Lead {
    t.(interests := UniqueIds(t.interests + lead.interests),
       email := Or(t.email, lead.email),
       assignedAgent := Or(t.assignedAgent, lead.assignedAgent),
       contactId := Or(t.contactId, lead.contactId),
       nextFollowUp := Sooner(t.nextFollowUp, lead.nextFollowUp),
       stage := if lead.updatedAt > t.updatedAt then OrStage(lead.stage, t.stage) else t.stage)
  }

  lemma GatherOne(first: Lead, sorted: seq<Lead>, i: nat)
    requires i < |sorted|
    ensures Gathered(first, sorted[..i + 1]) == Absorbed(Gathered(first, sorted[..i]), sorted[i])
  {
    PrefixGrows(sorted, i);
    var seen, more := sorted[..i], sorted[..i + 1];
    assert Emails(more)[..i] == Emails(seen) && Agents(more)[..i] == Agents(seen)
           && ContactIds(more)[..i] == ContactIds(seen);
    hide UniqueIds;
  }

  lemma NotesOne(sorted: seq<Lead>, i: nat)
    requires i < |sorted|
    ensures var note, before := Trim(sorted[i].notes), NotesOf(sorted[..i]);
            NotesOf(sorted[..i + 1]) == if note != "" && note !in before then before + [note] else before
  {
    PrefixGrows(sorted, i);
  }

  lemma HistoryOne(sorted: seq<Lead>, i: nat)
    requires 0 < i < |sorted|
    ensures HistoryOf(sorted[..i + 1]) == HistoryOf(sorted[..i]) + [sorted[i].id]
  {
    assert LeadIds(sorted[..i + 1][1..]) == LeadIds(sorted[..i][1..]) + [sorted[i].id];
  }

  /** `addNote`. */
  method AddNote(notes: seq<string>, text: string) returns (r: seq<string>)
    ensures var note := Trim(text); r == if note != "" && note !in notes then notes + [note] else notes
  {
    var note := Trim(text);
    r := notes;
    if note != "" && note !in notes {
      r := notes + [note];
    }
  }

  /** The assignments to the target in the loop body. */
  method Absorb(t: Lead, lead: Lead) returns (target: Lead)
    ensures target == Absorbed(t, lead)
  {
    hide UniqueIds;
    target := t.(interests := UniqueIds(t.interests + lead.interests));
    if target.email == "" && lead.email != "" {
      target := target.(email := lead.email);
    }
    if target.assignedAgent == "" && lead.assignedAgent != "" {
      target := target.(assignedAgent := lead.assignedAgent);
    }
    if target.contactId == "" && lead.contactId != "" {
      target := target.(contactId := lead.contactId);
    }
    if lead.nextFollowUp.Some? && (target.nextFollowUp.None? || lead.nextFollowUp.value < target.nextFollowUp.value) {
      target := target.(nextFollowUp := lead.nextFollowUp);
    }
    if lead.updatedAt > target.updatedAt {
      target := target.(stage := target.stage.(status := Or(lead.stage.status, target.stage.status)));
      target := target.(stage := target.stage.(lastContact := Or(lead.stage.lastContact, target.stage.lastContact)));
      target := target.(stage := target.stage.(lostReason := Or(lead.stage.lostReason, target.stage.lostReason)));
    }
  }

  lemma NothingSeen(sorted: seq<Lead>)
    requires sorted != []
    ensures Gathered(sorted[0], sorted[..0]) == sorted[0] && NotesOf(sorted[..0]) == []
    ensures HistoryOf(sorted[..1]) == sorted[0].mergedFrom
  {
  }

  /** The merge loop, as written. */
  method MergeLoop(sorted: seq<Lead>) returns (target: Lead, notes: seq<string>, history: seq<string>)
    requires sorted != []
    ensures target == Gathered(sorted[0], sorted) && notes == NotesOf(sorted)
    ensures history == HistoryOf(sorted)
  {
    NothingSeen(sorted);
    hide *;
    target := sorted[0];
    history := target.mergedFrom;
    notes := [];
    var i := 0;
    while i < |sorted|
      invariant 0 <= i <= |sorted|
      invariant target == Gathered(sorted[0], sorted[..i])
      invariant notes == NotesOf(sorted[..i])
      invariant history == HistoryOf(sorted[..if i == 0 then 1 else i])
    {
      GatherOne(sorted[0], sorted, i);
      NotesOne(sorted, i);
      var lead := sorted[i];
      notes := AddNote(notes, lead.notes);
      target := Absorb(target, lead);
      if i > 0 {
        HistoryOne(sorted, i);
        history := history + [lead.id];
      }
      i := i + 1;
    }
    assert sorted[..i] == sorted;
  }

  method MergeGroup(group: seq<Lead>) returns (target: Lead, duplicateIds: seq<string>)
    requires group != []
    ensures SortByCreated(group) != []
    ensures target == Survivor(SortByCreated(group))
    ensures duplicateIds == LeadIds(SortByCreated(group)[1..])
  {
    SortFacts(group);
    hide SortByCreated, Gathered, NotesOf, SafePhone, SafeEmail, FirstText, Join, LeadIds, HistoryOf, SafePhones,
         SafeEmails;
    var sorted := SortByCreated(group);
    duplicateIds := LeadIds(sorted[1..]);
    var notes, history;
    target, notes, history := MergeLoop(sorted);
    target := target.(notes := Join(notes), mergedFrom := history);
    var phone := FirstText(SafePhone(target.phone), SafePhones(sorted));
    target := target.(normalizedPhone := Stored(phone));
    target := target.(phone := Or(phone, target.phone));
    target := target.(normalizedEmail := FirstText(SafeEmail(target.email), SafeEmails(sorted)));
    target := target.(email := target.normalizedEmail);
  }

  // ---------- what the survivor holds ----------

  /** Lead `i` has this text and was updated after `since`. */
  predicate Brings(sorted: seq<Lead>, texts: seq<string>, since: int, i: nat)
    requires |texts| == |sorted|
  {
    i < |sorted| && sorted[i].updatedAt > since && texts[i] != ""
  }

  /** The text of the last lead, in order of creation, that brings one; the survivor's own when none does. */
  ghost predicate FromLast(own: string, result: string, sorted: seq<Lead>, texts: seq<string>, since: int)
    requires |texts| == |sorted|
  {
    if exists i: nat :: Brings(sorted, texts, since, i) then
      exists i: nat :: Brings(sorted, texts, since, i) && result == texts[i] &&
                       forall k: nat :: k > i ==> !Brings(sorted, texts, since, k)
    else result == own
  }

  function Statuses(leads: seq<Lead>): seq<string> {
    seq(|leads|, i requires 0 <= i < |leads| => leads[i].stage.status)
  }

  function LastContacts(leads: seq<Lead>): seq<string> {
    seq(|leads|, i requires 0 <= i < |leads| => leads[i].stage.lastContact)
  }

  function LostReasons(leads: seq<Lead>): seq<string> {
    seq(|leads|, i requires 0 <= i < |leads| => leads[i].stage.lostReason)
  }

  lemma FromLastGrows(own: string, before: string, sorted: seq<Lead>, texts: seq<string>, since: int)
    requires |texts| == |sorted| > 0
    requires FromLast(own, before, sorted[..|sorted| - 1], texts[..|sorted| - 1], since)
    ensures var last := |sorted| - 1;
            FromLast(own, if sorted[last].updatedAt > since then Or(texts[last], before) else before,
              sorted, texts, since)
  {
    var last := |sorted| - 1;
    forall i: nat | i < last
      ensures Brings(sorted[..last], texts[..last], since, i) <==> Brings(sorted, texts, since, i) {
    }
    if Brings(sorted, texts, since, last) {
      assert forall k: nat :: k > last ==> !Brings(sorted, texts, since, k);
    } else if exists i: nat :: Brings(sorted[..last], texts[..last], since, i) {
      var i: nat :| Brings(sorted[..last], texts[..last], since, i) && before == texts[..last][i] &&
                    forall k: nat :: k > i ==> !Brings(sorted[..last], texts[..last], since, k);
      assert Brings(sorted, texts, since, i);
      forall k: nat | k > i ensures !Brings(sorted, texts, since, k) {
        assert !Brings(sorted[..last], texts[..last], since, k);
      }
    } else {
      forall k: nat ensures !Brings(sorted, texts, since, k) {
        assert !Brings(sorted[..last], texts[..last], since, k);
      }
    }
  }

  /** Status, last contact and lost reason each come from the last lead, in order of creation and not of update, that
      was updated after the survivor and has one. */
  lemma {:induction false} StageFromLast(own: Stage, since: int, sorted: seq<Lead>)
    ensures var stage := StageOf(own, since, sorted);
            && FromLast(own.status, stage.status, sorted, Statuses(sorted), since)
            && FromLast(own.lastContact, stage.lastContact, sorted, LastContacts(sorted), since)
            && FromLast(own.lostReason, stage.lostReason, sorted, LostReasons(sorted), since)
    decreases |sorted|
  {
    if sorted != [] {
      var front := sorted[..|sorted| - 1];
      StageFromLast(own, since, front);
      var before := StageOf(own, since, front);
      assert Statuses(sorted)[..|front|] == Statuses(front);
      assert LastContacts(sorted)[..|front|] == LastContacts(front);
      assert LostReasons(sorted)[..|front|] == LostReasons(front);
      hide FromLast;
      FromLastGrows(own.status, before.status, sorted, Statuses(sorted), since);
      FromLastGrows(own.lastContact, before.lastContact, sorted, LastContacts(sorted), since);
      FromLastGrows(own.lostReason, before.lostReason, sorted, LostReasons(sorted), since);
    }
  }

  /** The last of a list of leads, and the others. */
  lemma InFrontOrLast(leads: seq<Lead>, lead: Lead)
    requires leads != []
    ensures lead in leads <==> lead in leads[..|leads| - 1] || lead == leads[|leads| - 1]
  {
    assert leads == leads[..|leads| - 1] + [leads[|leads| - 1]];
  }

  ghost predicate HasNote(leads: seq<Lead>, note: string) {
    exists lead :: lead in leads && Trim(lead.notes) == note
  }

  /** The notes are exactly the leads' trimmed nonempty notes, none twice. */
  lemma {:induction false} NotesComplete(sorted: seq<Lead>, note: string)
    ensures note in NotesOf(sorted) <==> note != "" && HasNote(sorted, note)
    ensures NoRepeats(NotesOf(sorted))
    decreases |sorted|
  {
    if sorted != [] {
      var front, last := sorted[..|sorted| - 1], sorted[|sorted| - 1];
      NotesComplete(front, note);
      forall lead ensures lead in sorted <==> lead in front || lead == last {
        InFrontOrLast(sorted, lead);
      }
      assert HasNote(sorted, note) <==> HasNote(front, note) || Trim(last.notes) == note by {
        if Trim(last.notes) == note {
          assert last in sorted;
        }
      }
    }
  }

  lemma {:induction false} UniqueIdsComplete(items: seq<string>, item: string)
    ensures item in UniqueIds(items) <==> item != "" && item in items
    ensures NoRepeats(UniqueIds(items))
    decreases |items|
  {
    if items != [] {
      UniqueIdsComplete(items[..|items| - 1], item);
      assert items == items[..|items| - 1] + [items[|items| - 1]];
    }
  }

  lemma {:induction false} UniqueAgain(a: seq<string>, b: seq<string>)
    requires forall item :: item in b ==> item == "" || item in UniqueIds(a)
    ensures UniqueIds(a + b) == UniqueIds(a)
    decreases |b|
  {
    if b == [] {
      assert a + b == a;
    } else {
      var front, last := b[..|b| - 1], b[|b| - 1];
      UniqueAgain(a, front);
      assert (a + b)[..|a + b| - 1] == a + front;
      assert last in b;
    }
  }

  lemma {:induction false} UniqueSelf(items: seq<string>)
    requires NoRepeats(items) && "" !in items
    ensures UniqueIds(items) == items
    decreases |items|
  {
    if items != [] {
      var front, last := items[..|items| - 1], items[|items| - 1];
      assert items == front + [last];
      UniqueSelf(front);
    }
  }

  ghost predicate HasInterest(leads: seq<Lead>, item: string) {
    exists lead :: lead in leads && item in lead.interests
  }

  /** The interests are exactly the leads' present interests, none twice. */
  lemma {:induction false} InterestsComplete(own: seq<string>, sorted: seq<Lead>, item: string)
    requires sorted != []
    ensures var all := InterestsOf(own, sorted);
            NoRepeats(all) && (item in all <==> item != "" && (item in own || HasInterest(sorted, item)))
    decreases |sorted|
  {
    var front, last := sorted[..|sorted| - 1], sorted[|sorted| - 1];
    UniqueIdsComplete(InterestsOf(own, front) + last.interests, item);
    forall lead ensures lead in sorted <==> lead in front || lead == last {
      InFrontOrLast(sorted, lead);
    }
    assert HasInterest(sorted, item) <==> HasInterest(front, item) || item in last.interests by {
      if item in last.interests {
        assert last in sorted;
      }
    }
    if front != [] {
      InterestsComplete(own, front, item);
    }
  }

  /** The follow-up is the earliest among the survivor's own and those of the leads. */
  lemma {:induction false} FollowUpEarliest(own: Option<int>, sorted: seq<Lead>)
    ensures var r := FollowUpOf(own, sorted);
            && (r.None? <==> own.None? && forall lead :: lead in sorted ==> lead.nextFollowUp.None?)
            && (own.Some? ==> r.value <= own.value)
            && (forall lead :: lead in sorted && lead.nextFollowUp.Some? ==>
              r.Some? && r.value <= lead.nextFollowUp.value)
            && (r == own || exists lead :: lead in sorted && r == lead.nextFollowUp)
    decreases |sorted|
  {
    if sorted != [] {
      var front, last := sorted[..|sorted| - 1], sorted[|sorted| - 1];
      FollowUpEarliest(own, front);
      forall lead ensures lead in sorted <==> lead in front || lead == last {
        InFrontOrLast(sorted, lead);
      }
      var before, r := FollowUpOf(own, front), FollowUpOf(own, sorted);
      assert last in sorted;
      if r == before && r != own {
        var lead :| lead in front && r == lead.nextFollowUp;
        assert lead in sorted;
      }
    }
  }

  lemma {:induction false} FirstTextFrom(own: string, texts: seq<string>)
    ensures FirstText(own, texts) == own || FirstText(own, texts) in texts
    ensures FirstText(own, texts) == "" <==> own == "" && forall i :: 0 <= i < |texts| ==> texts[i] == ""
    ensures own != "" ==> FirstText(own, texts) == own
    decreases |texts|
  {
    if texts != [] {
      FirstTextFrom(own, texts[..|texts| - 1]);
      assert texts == texts[..|texts| - 1] + [texts[|texts| - 1]];
    }
  }

  ghost predicate HasPhone(leads: seq<Lead>, phone: string) {
    exists x :: 0 <= x < |leads| && AsContact(leads[x]).phone == phone
  }

  ghost predicate HasEmail(leads: seq<Lead>, email: string) {
    exists x :: 0 <= x < |leads| && AsContact(leads[x]).email == email
  }

  lemma PhoneHeld(leads: seq<Lead>, phone: string)
    requires phone != "" && phone in SafePhones(leads)
    ensures HasPhone(leads, phone)
  {
    hide SafePhone, AsContact;
    var x :| 0 <= x < |leads| && SafePhones(leads)[x] == phone;
    ContactKeys(leads[x]);
    assert AsContact(leads[x]).phone == phone;
  }

  /** The first phone field, normalised, or the first that normalises. */
  lemma FirstPhone(leads: seq<Lead>)
    requires leads != []
    ensures var phone := FirstText(SafePhone(leads[0].phone), SafePhones(leads));
            && (phone != "" ==> phone in SafePhones(leads))
            && (phone == "" <==> forall x :: 0 <= x < |leads| ==> SafePhone(leads[x].phone) == "")
  {
    hide SafePhone, FirstText;
    var phones := SafePhones(leads);
    FirstTextFrom(SafePhone(leads[0].phone), phones);
    forall x | 0 <= x < |leads| ensures phones[x] == SafePhone(leads[x].phone) {
    }
  }

  /** The survivor's normalised phone is one that grouped its leads.  It is missing exactly when no lead has a
      valid phone in its phone field, even if one in the normalised field brought the group to be merged. */
  lemma SurvivorPhone(sorted: seq<Lead>)
    requires sorted != []
    ensures var phone := Survivor(sorted).normalizedPhone;
            && (phone.Some? ==> phone.value != "" && HasPhone(sorted, phone.value))
            && (phone.None? <==> forall x :: 0 <= x < |sorted| ==> SafePhone(sorted[x].phone) == "")
  {
    SurvivorFields(sorted);
    FirstPhone(sorted);
    hide Survivor, SafePhone, FirstText, HasPhone, SafePhones;
    var phone := Survivor(sorted).normalizedPhone;
    if phone.Some? {
      PhoneHeld(sorted, phone.value);
    }
  }

  lemma SurvivorFields(sorted: seq<Lead>)
    requires sorted != []
    ensures var s := Survivor(sorted);
            && s.normalizedPhone == Stored(FirstText(SafePhone(sorted[0].phone), SafePhones(sorted)))
            && s.normalizedEmail == FirstText(SafeEmail(FirstText(sorted[0].email, Emails(sorted))), SafeEmails(sorted))
  {
    hide SafePhone, SafeEmail, FirstText, InterestsOf, FollowUpOf, StageOf, NotesOf, Join;
  }

  lemma ContactKeys(lead: Lead)
    ensures SafePhone(lead.phone) != "" ==> AsContact(lead).phone == SafePhone(lead.phone)
    ensures SafeEmail(lead.email) != "" ==> AsContact(lead).email == SafeEmail(lead.email)
  {
    SafePhoneStable("");
    SafeEmailStable("");
    hide SafePhone, SafeEmail;
  }

  lemma EmailHeld(leads: seq<Lead>, email: string)
    requires email != "" && email in SafeEmails(leads)
    ensures HasEmail(leads, email)
  {
    hide SafeEmail, AsContact;
    var x :| 0 <= x < |leads| && SafeEmails(leads)[x] == email;
    ContactKeys(leads[x]);
    assert AsContact(leads[x]).email == email;
  }

  /** The first email given, normalised, or the first that normalises. */
  lemma FirstEmail(leads: seq<Lead>)
    requires leads != []
    ensures var email := FirstText(SafeEmail(FirstText(leads[0].email, Emails(leads))), SafeEmails(leads));
            && (email != "" ==> email in SafeEmails(leads))
            && (email == "" <==> forall x :: 0 <= x < |leads| ==> SafeEmail(leads[x].email) == "")
  {
    hide SafeEmail, FirstText;
    var raws, emails := Emails(leads), SafeEmails(leads);
    var raw := FirstText(leads[0].email, raws);
    FirstTextFrom(leads[0].email, raws);
    assert raws[0] == leads[0].email;
    assert raw in raws;
    var y :| 0 <= y < |raws| && raws[y] == raw;
    assert emails[y] == SafeEmail(raw);
    FirstTextFrom(SafeEmail(raw), emails);
    forall x | 0 <= x < |leads| ensures emails[x] == SafeEmail(leads[x].email) {
    }
  }

  lemma SurvivorEmail(sorted: seq<Lead>)
    requires sorted != []
    ensures var email := Survivor(sorted).normalizedEmail;
            && (email != "" ==> HasEmail(sorted, email))
            && (email == "" <==> forall x :: 0 <= x < |sorted| ==> SafeEmail(sorted[x].email) == "")
  {
    SurvivorFields(sorted);
    FirstEmail(sorted);
    hide *;
    var email := Survivor(sorted).normalizedEmail;
    if email != "" {
      EmailHeld(sorted, email);
    }
  }
}
