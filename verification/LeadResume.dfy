/** Stopping the consolidation of a tenant's leads after any single deletion or update, and running it again. */
module LeadResume {
  import opened Wrappers
  import opened Identity
  import opened LeadGroups
  import opened LeadMerge
  import opened LeadConsolidation

  // ---------- merging a merged lead again ----------

  predicate Tidy(note: string) {
    note != "" ==> !IsSpace(note[0]) && !IsSpace(note[|note| - 1])
  }

  lemma {:induction false} NotesTidy(sorted: seq<Lead>)
    ensures forall note :: note in NotesOf(sorted) ==> note != "" && Tidy(note)
    decreases |sorted|
  {
    if sorted != [] {
      NotesTidy(sorted[..|sorted| - 1]);
      hide Trim;
    }
  }

  lemma {:induction false} JoinTidy(notes: seq<string>)
    requires forall note :: note in notes ==> note != "" && Tidy(note)
    ensures Tidy(Join(notes)) && (notes != [] ==> Join(notes) != "" && !IsSpace(Join(notes)[0]))
    decreases |notes|
  {
    if |notes| == 1 {
      assert notes[0] in notes;
    } else if |notes| > 1 {
      var front, last := notes[..|notes| - 1], notes[|notes| - 1];
      forall note | note in front ensures note != "" && Tidy(note) {
        assert note in notes;
      }
      JoinTidy(front);
      assert last in notes;
      assert Join(notes) == Join(front) + SEPARATOR + last;
      assert Join(notes)[0] == Join(front)[0] && Join(notes)[|Join(notes)| - 1] == last[|last| - 1];
    }
  }

  /** What a merge leaves and another merge of the same lead keeps. */
  predicate MergedForm(lead: Lead) {
    && Tidy(lead.notes)
    && NoRepeats(lead.interests) && "" !in lead.interests
    && lead.normalizedPhone == Stored(SafePhone(lead.phone))
    && (lead.normalizedPhone.Some? ==> lead.phone == lead.normalizedPhone.value)
    && lead.email == lead.normalizedEmail == SafeEmail(lead.email)
  }

  lemma SurvivorText(sorted: seq<Lead>)
    requires sorted != []
    ensures var s := Survivor(sorted);
            && s.notes == Join(NotesOf(sorted)) && s.interests == InterestsOf(sorted[0].interests, sorted)
            && s.phone == Or(TextOf(s.normalizedPhone), sorted[0].phone) && s.email == s.normalizedEmail
            && s.id == sorted[0].id && s.mergedFrom == HistoryOf(sorted)
  {
    hide SafePhone, SafeEmail, FirstText, InterestsOf, FollowUpOf, StageOf, NotesOf, Join, HistoryOf;
  }

  lemma EmailStable(leads: seq<Lead>, email: string)
    requires email != "" ==> email in SafeEmails(leads)
    ensures SafeEmail(email) == email
  {
    SafeEmailStable("");
    if email != "" {
      var x :| 0 <= x < |leads| && SafeEmails(leads)[x] == email;
      SafeEmailStable(leads[x].email);
    }
    hide SafeEmail;
  }

  lemma PhoneStable(leads: seq<Lead>, phone: string)
    requires phone != "" ==> phone in SafePhones(leads)
    ensures SafePhone(phone) == phone
  {
    SafePhoneStable("");
    if phone != "" {
      var x :| 0 <= x < |leads| && SafePhones(leads)[x] == phone;
      SafePhoneStable(leads[x].phone);
    }
    hide SafePhone;
  }

  lemma SurvivorInForm(sorted: seq<Lead>)
    requires sorted != []
    ensures MergedForm(Survivor(sorted))
  {
    var s := Survivor(sorted);
    SurvivorText(sorted);
    SurvivorFields(sorted);
    NotesTidy(sorted);
    JoinTidy(NotesOf(sorted));
    InterestsComplete(sorted[0].interests, sorted, "");
    FirstEmail(sorted);
    EmailStable(sorted, s.normalizedEmail);
    FirstPhone(sorted);
    var phone := FirstText(SafePhone(sorted[0].phone), SafePhones(sorted));
    PhoneStable(sorted, phone);
    hide Survivor, SafePhone, SafeEmail, FirstText, InterestsOf, NotesOf, Join, Tidy, SafePhones, SafeEmails, NoRepeats;
  }

  lemma FirstAlone(text: string)
    ensures FirstText(text, [text]) == text
  {
    assert [text][..0] == [];
  }

  lemma InterestsAlone(lead: Lead)
    requires NoRepeats(lead.interests) && "" !in lead.interests
    ensures InterestsOf(lead.interests, [lead]) == lead.interests
  {
    assert [lead][..0] == [];
    assert InterestsOf(lead.interests, []) == lead.interests;
    UniqueSelf(lead.interests);
    UniqueAgain(lead.interests, lead.interests);
    hide UniqueIds;
  }

  lemma GatheredAlone(lead: Lead)
    requires NoRepeats(lead.interests) && "" !in lead.interests
    ensures Gathered(lead, [lead]) == lead
  {
    InterestsAlone(lead);
    FirstAlone(lead.email);
    FirstAlone(lead.assignedAgent);
    FirstAlone(lead.contactId);
    assert [lead][..0] == [];
    assert FollowUpOf(lead.nextFollowUp, [lead]) == lead.nextFollowUp;
    assert StageOf(lead.stage, lead.updatedAt, [lead]) == lead.stage;
    assert LeadMerge.Emails([lead]) == [lead.email] && Agents([lead]) == [lead.assignedAgent];
    assert ContactIds([lead]) == [lead.contactId];
    hide InterestsOf, FirstText, FollowUpOf, StageOf, LeadMerge.Emails, Agents, ContactIds;
  }

  lemma NotesAlone(lead: Lead)
    requires Tidy(lead.notes)
    ensures Join(NotesOf([lead])) == lead.notes
  {
    assert [lead][..0] == [];
    TrimId(lead.notes);
    hide Trim;
  }

  /** Merging a merged lead alone changes nothing. */
  lemma MergedAgain(lead: Lead)
    requires MergedForm(lead)
    ensures Survivor([lead]) == lead
  {
    GatheredAlone(lead);
    NotesAlone(lead);
    var phones, emails := SafePhones([lead]), SafeEmails([lead]);
    assert phones == [SafePhone(lead.phone)] && emails == [SafeEmail(lead.email)];
    FirstAlone(SafePhone(lead.phone));
    FirstAlone(SafeEmail(lead.email));
    assert LeadIds([lead][1..]) == [];
    assert lead.mergedFrom + [] == lead.mergedFrom;
    hide Gathered, NotesOf, Join, SafePhone, SafeEmail, FirstText, Tidy;
  }

  /** Merging what a merge left changes nothing. */
  lemma MergeTwice(sorted: seq<Lead>)
    requires sorted != []
    ensures Survivor([Survivor(sorted)]) == Survivor(sorted)
  {
    SurvivorInForm(sorted);
    hide Survivor, MergedForm;
    MergedAgain(Survivor(sorted));
  }

  /** A merged lead is grouped by what it stores. */
  lemma FormContact(lead: Lead)
    requires MergedForm(lead)
    ensures AsContact(lead) == Contact(lead.id, TextOf(lead.normalizedPhone), lead.normalizedEmail)
  {
    hide SafePhone, SafeEmail, Tidy;
    SafePhoneStable("");
  }

  // ---------- what a stopped run leaves ----------

  /** A run that would be completed. */
  ghost predicate Completes(all: seq<Lead>, groups: seq<seq<nat>>) {
    DistinctLeads(all) && Components(Contacts(all), groups) && InRange(all, groups) &&
    NoneRefused(all, groups, |groups|)
  }

  /** The ids the merge of the group deletes. */
  function Duplicates(group: seq<Lead>): seq<string> {
    var sorted := SortByCreated(group);
    if sorted == [] then [] else LeadIds(sorted[1..])
  }

  /** The run may stop after `k` groups, and there with some of the duplicates of the next one deleted. */
  ghost predicate Possible(all: seq<Lead>, groups: seq<seq<nat>>, k: nat, gone: set<string>)
    requires InRange(all, groups)
  {
    k <= |groups| &&
    (gone != {} ==> k < |groups| && Merges(Pick(all, groups[k])) &&
                    forall id :: id in gone ==> id in Duplicates(Pick(all, groups[k])))
  }

  function CutDocs(all: seq<Lead>, groups: seq<seq<nat>>, k: nat, gone: set<string>): map<string, Lead>
    requires InRange(all, groups) && k <= |groups|
  {
    var docs := Consolidated(all, groups, k);
    map id | id in docs && id !in gone :: docs[id]
  }

  /** The group had its turn and was merged. */
  ghost predicate Done(all: seq<Lead>, groups: seq<seq<nat>>, k: nat, g: nat)
    requires InRange(all, groups)
  {
    g < k && g < |groups| && Merges(Pick(all, groups[g]))
  }

  /** A lead's document: the survivor in place of a merged group's earliest, else the lead itself unless deleted. */
  ghost predicate DocIs(docs: map<string, Lead>, group: seq<Lead>, gone: set<string>, done: bool, lead: Lead) {
    var sorted := SortByCreated(group);
    if done then
      sorted != [] && (lead.id in docs <==> lead.id == sorted[0].id) &&
      (lead.id in docs ==> docs[lead.id] == Survivor(sorted))
    else (lead.id in docs <==> lead.id !in gone) && (lead.id in docs ==> docs[lead.id] == lead)
  }

  lemma CompletesParts(all: seq<Lead>, groups: seq<seq<nat>>)
    requires Completes(all, groups)
    ensures DistinctLeads(all) && Components(Contacts(all), groups) && InRange(all, groups)
    ensures NoneRefused(all, groups, |groups|)
  {
  }

  lemma GoneInGroup(all: seq<Lead>, groups: seq<seq<nat>>, k: nat, gone: set<string>, i: nat, g: nat)
    requires Completes(all, groups) && Possible(all, groups, k, gone)
    requires g < |groups| && i in groups[g] && i < |all|
    ensures all[i].id in gone ==> g == k
  {
    if all[i].id in gone {
      GroupFacts(all, groups, k, g, i);
      SortedIds(Pick(all, groups[k]), all[i].id);
    }
  }

  lemma TurnIs(docs: map<string, Lead>, group: seq<Lead>, k: nat, g: nat, lead: Lead)
    requires TurnTaken(docs, group, k, g, lead) && !Refused(group)
    ensures DocIs(docs, group, {}, g < k && Merges(group), lead)
  {
    hide SortByCreated, Survivor, Processed, Refused;
  }

  lemma CutIs(docs: map<string, Lead>, group: seq<Lead>, gone: set<string>, done: bool, lead: Lead)
    requires DocIs(docs, group, {}, done, lead) && (done ==> lead.id !in gone)
    ensures DocIs(map id | id in docs && id !in gone :: docs[id], group, gone, done, lead)
  {
    hide SortByCreated, Survivor;
  }

  lemma NotRefused(all: seq<Lead>, groups: seq<seq<nat>>, g: nat)
    requires InRange(all, groups) && NoneRefused(all, groups, |groups|) && g < |groups|
    ensures !Refused(Pick(all, groups[g]))
  {
  }

  lemma CutAt(all: seq<Lead>, groups: seq<seq<nat>>, k: nat, gone: set<string>, i: nat, g: nat)
    requires Completes(all, groups) && InRange(all, groups) && Possible(all, groups, k, gone) && k <= |groups|
    requires g < |groups| && i in groups[g] && i < |all|
    ensures DocIs(CutDocs(all, groups, k, gone), Pick(all, groups[g]), gone, Done(all, groups, k, g), all[i])
  {
    hide *;
    CompletesParts(all, groups);
    ConsolidatedAt(all, groups, k, g, i);
    NotRefused(all, groups, g);
    TurnIs(Consolidated(all, groups, k), Pick(all, groups[g]), k, g, all[i]);
    GoneInGroup(all, groups, k, gone, i, g);
    DoneIs(all, groups, k, g);
    CutIs(Consolidated(all, groups, k), Pick(all, groups[g]), gone, Done(all, groups, k, g), all[i]);
    CutDocsIs(all, groups, k, gone);
  }

  lemma DoneIs(all: seq<Lead>, groups: seq<seq<nat>>, k: nat, g: nat)
    requires InRange(all, groups) && g < |groups|
    ensures Done(all, groups, k, g) <==> g < k && Merges(Pick(all, groups[g]))
  {
  }

  lemma CutDocsIs(all: seq<Lead>, groups: seq<seq<nat>>, k: nat, gone: set<string>)
    requires InRange(all, groups) && k <= |groups|
    ensures var docs := Consolidated(all, groups, k);
            CutDocs(all, groups, k, gone) == map id | id in docs && id !in gone :: docs[id]
  {
    hide Consolidated;
  }

  // ---------- what the next run reads ----------

  /** The places of the leads still stored among the first `n`, in order. */
  function KeptAt(all: seq<Lead>, docs: map<string, Lead>, n: nat): (r: seq<nat>)
    requires n <= |all|
    ensures forall x :: 0 <= x < |r| ==> r[x] < n && all[r[x]].id in docs
  {
    if n == 0 then []
    else
      var before := KeptAt(all, docs, n - 1);
      if all[n - 1].id in docs then before + [n - 1] else before
  }

  function Places(all: seq<Lead>, docs: map<string, Lead>): (r: seq<nat>)
    ensures forall x :: 0 <= x < |r| ==> r[x] < |all| && all[r[x]].id in docs
  {
    KeptAt(all, docs, |all|)
  }

  /** The documents left, in the order in which the leads were read before. */
  function Reread(all: seq<Lead>, docs: map<string, Lead>): seq<Lead> {
    var places := Places(all, docs);
    seq(|places|, j requires 0 <= j < |places| => docs[all[places[j]].id])
  }

  lemma KeptStep(all: seq<Lead>, docs: map<string, Lead>, n: nat)
    requires 0 < n <= |all|
    ensures var before := KeptAt(all, docs, n - 1);
            KeptAt(all, docs, n) == if all[n - 1].id in docs then before + [n - 1] else before
  {
  }

  lemma KeptBelow(all: seq<Lead>, docs: map<string, Lead>, n: nat)
    requires n <= |all|
    ensures forall i :: i in KeptAt(all, docs, n) ==> i < n
  {
  }

  lemma AppendHolds(items: seq<nat>, x: nat)
    ensures x in items + [x] && forall i :: i in items ==> i in items + [x]
  {
  }

  lemma {:induction false} KeptFacts(all: seq<Lead>, docs: map<string, Lead>, n: nat)
    requires n <= |all|
    ensures InOrder(KeptAt(all, docs, n))
    ensures forall i: nat :: i < n && all[i].id in docs ==> i in KeptAt(all, docs, n)
  {
    hide *;
    if n == 0 {
      KeptNothing(all, docs);
    } else {
      KeptFacts(all, docs, n - 1);
      KeptStep(all, docs, n);
      KeptBelow(all, docs, n - 1);
      AppendInOrder(KeptAt(all, docs, n - 1), n - 1);
      AppendHolds(KeptAt(all, docs, n - 1), n - 1);
    }
  }

  lemma KeptNothing(all: seq<Lead>, docs: map<string, Lead>)
    ensures InOrder(KeptAt(all, docs, 0))
  {
  }

  /** Every document is stored under its own id. */
  predicate OwnIds(docs: map<string, Lead>) {
    forall id :: id in docs ==> docs[id].id == id
  }

  lemma RereadAt(all: seq<Lead>, docs: map<string, Lead>, j: nat)
    requires j < |Reread(all, docs)|
    ensures |Reread(all, docs)| == |Places(all, docs)|
    ensures var i := Places(all, docs)[j]; i < |all| && all[i].id in docs && Reread(all, docs)[j] == docs[all[i].id]
  {
    hide Places;
  }

  lemma RereadSize(all: seq<Lead>, docs: map<string, Lead>)
    ensures |Reread(all, docs)| == |Places(all, docs)| == |Contacts(Reread(all, docs))|
  {
    hide Places;
  }

  lemma PlacesInOrder(all: seq<Lead>, docs: map<string, Lead>)
    ensures InOrder(Places(all, docs))
  {
    KeptFacts(all, docs, |all|);
    hide KeptAt;
  }

  lemma PlaceOf(all: seq<Lead>, docs: map<string, Lead>, i: nat) returns (j: nat)
    requires i < |all| && all[i].id in docs
    ensures j < |Places(all, docs)| && j < |Reread(all, docs)| && Places(all, docs)[j] == i
    ensures Reread(all, docs)[j] == docs[all[i].id]
  {
    KeptFacts(all, docs, |all|);
    hide KeptAt;
    j :| 0 <= j < |Places(all, docs)| && Places(all, docs)[j] == i;
  }

  lemma RereadDistinct(all: seq<Lead>, docs: map<string, Lead>)
    requires DistinctLeads(all) && OwnIds(docs)
    ensures DistinctLeads(Reread(all, docs))
  {
    PlacesInOrder(all, docs);
    hide Places;
    forall x, y | 0 <= x < y < |Reread(all, docs)| ensures Reread(all, docs)[x].id != Reread(all, docs)[y].id {
      assert Places(all, docs)[x] < Places(all, docs)[y];
    }
  }

  lemma ContactAt(leads: seq<Lead>, j: nat)
    requires j < |leads|
    ensures j < |Contacts(leads)| && Contacts(leads)[j] == AsContact(leads[j])
  {
    hide AsContact;
  }

  // ---------- its groups ----------

  /** The group of lead `i`. */
  ghost function GroupAt(all: seq<Lead>, groups: seq<seq<nat>>, i: nat): (g: nat)
    requires Completes(all, groups) && i < |all|
    ensures g < |groups| && i in groups[g]
  {
    hide *;
    CompletesParts(all, groups);
    FindGroup(all, groups, i);
    var g: nat :| g < |groups| && i in groups[g];
    g
  }

  lemma FindGroup(all: seq<Lead>, groups: seq<seq<nat>>, i: nat)
    requires Components(Contacts(all), groups) && i < |all|
    ensures exists g: nat :: g < |groups| && i in groups[g]
  {
    hide Connected, AsContact;
    assert InSome(groups, i);
    var g :| 0 <= g < |groups| && i in groups[g];
  }

  lemma GroupIs(all: seq<Lead>, groups: seq<seq<nat>>, i: nat, g: nat)
    requires Completes(all, groups) && i < |all| && g < |groups| && i in groups[g]
    ensures GroupAt(all, groups, i) == g
  {
    var h := GroupAt(all, groups, i);
    OneGroup(all, groups, g, h, i);
  }

  lemma SameGroup(all: seq<Lead>, groups: seq<seq<nat>>, i: nat, j: nat)
    requires Completes(all, groups) && i < |all| && j < |all|
    ensures GroupAt(all, groups, i) == GroupAt(all, groups, j) <==> Connected(Contacts(all), i, j)
  {
    var g, h := GroupAt(all, groups, i), GroupAt(all, groups, j);
    hide Connected, Contacts, DistinctLeads, NoneRefused, InRange;
    assert i in groups[g] && j in groups[h];
  }

  /** What a run that would be completed leaves when it stops. */
  ghost predicate IsCut(all: seq<Lead>, groups: seq<seq<nat>>, k: nat, gone: set<string>, docs: map<string, Lead>) {
    Completes(all, groups) && k <= |groups| && Possible(all, groups, k, gone) &&
    docs == CutDocs(all, groups, k, gone)
  }

  lemma DocAt(all: seq<Lead>, groups: seq<seq<nat>>, k: nat, gone: set<string>, docs: map<string, Lead>, i: nat)
    requires IsCut(all, groups, k, gone, docs) && i < |all|
    ensures InRange(all, groups)
    ensures var g := GroupAt(all, groups, i);
            DocIs(docs, Pick(all, groups[g]), gone, Done(all, groups, k, g), all[i])
  {
    CompletesParts(all, groups);
    hide Completes, Possible, DocIs, Done, CutDocs, Pick;
    CutAt(all, groups, k, gone, i, GroupAt(all, groups, i));
  }

  lemma CutKeysIn(all: seq<Lead>, groups: seq<seq<nat>>, k: nat, gone: set<string>, docs: map<string, Lead>, id: string)
    requires IsCut(all, groups, k, gone, docs) && id in docs
    ensures exists i: nat :: i < |all| && all[i].id == id
  {
    CompletesParts(all, groups);
    CutDocsIs(all, groups, k, gone);
    ConsolidatedKeys(all, groups, k, id);
    hide Completes, Possible, CutDocs, Consolidated;
    var i :| 0 <= i < |all| && all[i].id == id;
  }

  lemma CutOwn(all: seq<Lead>, groups: seq<seq<nat>>, k: nat, gone: set<string>, docs: map<string, Lead>)
    requires IsCut(all, groups, k, gone, docs)
    ensures OwnIds(docs)
  {
    hide IsCut, Pick, Done;
    forall id | id in docs ensures docs[id].id == id {
      CutKeysIn(all, groups, k, gone, docs, id);
      var i: nat :| i < |all| && all[i].id == id;
      IsCutParts(all, groups, k, gone, docs);
      var g := GroupAt(all, groups, i);
      DocAt(all, groups, k, gone, docs, i);
      OwnId(docs, Pick(all, groups[g]), gone, Done(all, groups, k, g), all[i]);
    }
  }

  lemma IsCutParts(all: seq<Lead>, groups: seq<seq<nat>>, k: nat, gone: set<string>, docs: map<string, Lead>)
    requires IsCut(all, groups, k, gone, docs)
    ensures Completes(all, groups) && k <= |groups| && DistinctLeads(all)
    ensures Components(Contacts(all), groups) && InRange(all, groups) && Possible(all, groups, k, gone)
  {
    hide CutDocs, Possible;
  }

  lemma OwnId(docs: map<string, Lead>, group: seq<Lead>, gone: set<string>, done: bool, lead: Lead)
    requires DocIs(docs, group, gone, done, lead) && lead.id in docs
    ensures docs[lead.id].id == lead.id
  {
    if done {
      SurvivorText(SortByCreated(group));
    }
    hide Survivor, SortByCreated;
  }

  /** The phone and the email of a document are those of leads of its group. */
  lemma DocKeys(
    all: seq<Lead>, groups: seq<seq<nat>>, k: nat, gone: set<string>, docs: map<string, Lead>, i: nat)
    returns (x: nat, y: nat)
    requires IsCut(all, groups, k, gone, docs) && i < |all| && all[i].id in docs
    ensures InRange(all, groups) && x < |all| && y < |all|
    ensures Completes(all, groups)
    ensures var g, c := GroupAt(all, groups, i), AsContact(docs[all[i].id]);
            && x in groups[g] && y in groups[g]
            && (c.phone != "" ==> AsContact(all[x]).phone == c.phone)
            && (c.email != "" ==> AsContact(all[y]).email == c.email)
  {
    IsCutParts(all, groups, k, gone, docs);
    var g := GroupAt(all, groups, i);
    DocAt(all, groups, k, gone, docs, i);
    hide IsCut, AsContact, Completes, Survivor, SortByCreated, Components, Possible, Contacts, Merges;
    x, y := i, i;
    if Done(all, groups, k, g) {
      var group := Pick(all, groups[g]);
      var sorted := SortByCreated(group);
      SurvivorInForm(sorted);
      FormContact(Survivor(sorted));
      var p := SortedPhoneFrom(group);
      var e := SortedEmailFrom(group);
      x, y := groups[g][p], groups[g][e];
      assert x in groups[g] && y in groups[g];
    }
  }

  /** Documents that share a phone or an email are of one group. */
  lemma SharesGroup(
    all: seq<Lead>, groups: seq<seq<nat>>, k: nat, gone: set<string>, docs: map<string, Lead>, i: nat, j: nat)
    requires IsCut(all, groups, k, gone, docs) && i < |all| && j < |all| && all[i].id in docs && all[j].id in docs
    requires Shares(AsContact(docs[all[i].id]), AsContact(docs[all[j].id]))
    ensures Completes(all, groups) && GroupAt(all, groups, i) == GroupAt(all, groups, j)
  {
    hide IsCut, AsContact, Completes, Contacts;
    var a, b := DocKeys(all, groups, k, gone, docs, i);
    var c, d := DocKeys(all, groups, k, gone, docs, j);
    if Shares(AsContact(all[a]), AsContact(all[c])) {
      LinkGroups(all, groups, i, a, j, c);
    } else {
      LinkGroups(all, groups, i, b, j, d);
    }
  }

  lemma LinkGroups(all: seq<Lead>, groups: seq<seq<nat>>, i: nat, a: nat, j: nat, c: nat)
    requires Completes(all, groups) && i < |all| && j < |all| && a < |all| && c < |all|
    requires a in groups[GroupAt(all, groups, i)] && c in groups[GroupAt(all, groups, j)]
    requires Shares(AsContact(all[a]), AsContact(all[c]))
    ensures GroupAt(all, groups, i) == GroupAt(all, groups, j)
  {
    hide AsContact, Completes, Connected;
    ContactAt(all, a);
    ContactAt(all, c);
    ConnectedShares(Contacts(all), a, c);
    SameGroup(all, groups, a, c);
    GroupIs(all, groups, a, GroupAt(all, groups, i));
    GroupIs(all, groups, c, GroupAt(all, groups, j));
  }

  /** Connected documents are of one group. */
  lemma ConnectedGroup(
    all: seq<Lead>, groups: seq<seq<nat>>, k: nat, gone: set<string>, docs: map<string, Lead>, x: nat, y: nat)
    requires IsCut(all, groups, k, gone, docs) && x < |Reread(all, docs)| && y < |Reread(all, docs)|
    requires Connected(Contacts(Reread(all, docs)), x, y)
    ensures Completes(all, groups) && |Places(all, docs)| == |Reread(all, docs)|
    ensures GroupAt(all, groups, Places(all, docs)[x]) == GroupAt(all, groups, Places(all, docs)[y])
  {
    var contacts, places := Contacts(Reread(all, docs)), Places(all, docs);
    var path :| Joins(contacts, path, x, y);
    IsCutParts(all, groups, k, gone, docs);
    RereadSize(all, docs);
    hide IsCut, AsContact, Completes, Shares, Reread, Places, Contacts, Joins, Components, InRange, Possible;
    hide DistinctLeads;
    var mark := seq(|places|, j requires 0 <= j < |places| => GroupAt(all, groups, places[j]));
    forall i: nat, j: nat | i < |contacts| && j < |contacts| && Shares(contacts[i], contacts[j])
      ensures mark[i] == mark[j] {
      RereadAt(all, docs, i);
      RereadAt(all, docs, j);
      ContactAt(Reread(all, docs), i);
      ContactAt(Reread(all, docs), j);
      SharesGroup(all, groups, k, gone, docs, places[i], places[j]);
    }
    JoinsPath(contacts, path, x, y);
    MarksAgree(contacts, mark, path);
  }

  lemma JoinsPath(contacts: seq<Contact>, path: seq<nat>, x: nat, y: nat)
    requires Joins(contacts, path, x, y)
    ensures IsPath(contacts, path) && path != [] && path[0] == x && path[|path| - 1] == y
  {
  }

  // ---------- the groups of the next run, when nothing was deleted on the way ----------

  /** The leads of the group are stored as they were. */
  ghost predicate Untouched(all: seq<Lead>, group: seq<nat>, docs: map<string, Lead>) {
    forall i :: i in group ==> i < |all| && all[i].id in docs && docs[all[i].id] == all[i]
  }

  lemma UntouchedAt(all: seq<Lead>, group: seq<nat>, docs: map<string, Lead>, i: nat)
    requires Untouched(all, group, docs) && i in group
    ensures i < |all| && all[i].id in docs && docs[all[i].id] == all[i]
  {
  }

  lemma GroupUntouched(all: seq<Lead>, groups: seq<seq<nat>>, k: nat, docs: map<string, Lead>, g: nat)
    requires IsCut(all, groups, k, {}, docs) && g < |groups|
    ensures InRange(all, groups)
    ensures !Done(all, groups, k, g) ==> Untouched(all, groups[g], docs)
  {
    IsCutParts(all, groups, k, {}, docs);
    if !Done(all, groups, k, g) {
      forall i | i in groups[g] ensures i < |all| && all[i].id in docs && docs[all[i].id] == all[i] {
        assert i < |all|;
        GroupIs(all, groups, i, g);
        hide IsCut, Done, Completes, Components, Pick, SortByCreated, Survivor;
        DocAt(all, groups, k, {}, docs, i);
      }
    }
  }

  /** The next lead of a path is in the same group. */
  lemma NextInGroup(all: seq<Lead>, groups: seq<seq<nat>>, g: nat, a: nat, b: nat)
    requires Completes(all, groups) && g < |groups| && a < |all| && b < |all| && a in groups[g]
    requires Shares(AsContact(all[a]), AsContact(all[b]))
    ensures b in groups[g]
  {
    hide AsContact, Completes, Connected;
    ContactAt(all, a);
    ContactAt(all, b);
    ConnectedShares(Contacts(all), a, b);
    SameGroup(all, groups, a, b);
    GroupIs(all, groups, a, g);
  }

  lemma PathStep(contacts: seq<Contact>, path: seq<nat>)
    requires IsPath(contacts, path) && |path| > 1
    ensures IsPath(contacts, path[1..]) && path[0] < |contacts| && path[1] < |contacts|
    ensures Shares(contacts[path[0]], contacts[path[1]])
  {
  }

  /** A path through a group stored as it was is a path of the next run. */
  lemma {:induction false} PathKept(
    all: seq<Lead>, groups: seq<seq<nat>>, docs: map<string, Lead>, g: nat, path: seq<nat>, x: nat)
    returns (y: nat)
    requires Completes(all, groups) && g < |groups| && Untouched(all, groups[g], docs)
    requires IsPath(Contacts(all), path) && path != [] && path[0] in groups[g]
    requires x < |Places(all, docs)| && Places(all, docs)[x] == path[0]
    ensures y < |Places(all, docs)| && Places(all, docs)[y] == path[|path| - 1]
    ensures Connected(Contacts(Reread(all, docs)), x, y)
    decreases |path|
  {
    RereadSize(all, docs);
    if |path| == 1 {
      hide *;
      ConnectedRefl(Contacts(Reread(all, docs)), x);
      y := x;
    } else {
      hide *;
      PathStep(Contacts(all), path);
      var a, b := path[0], path[1];
      RereadSize(all, docs);
      ContactsSize(all);
      ContactAt(all, a);
      ContactAt(all, b);
      NextInGroup(all, groups, g, a, b);
      UntouchedAt(all, groups[g], docs, a);
      UntouchedAt(all, groups[g], docs, b);
      var z := PlaceOf(all, docs, b);
      RereadAt(all, docs, x);
      ContactAt(Reread(all, docs), x);
      ContactAt(Reread(all, docs), z);
      ConnectedShares(Contacts(Reread(all, docs)), x, z);
      y := PathKept(all, groups, docs, g, path[1..], z);
      ConnectedTrans(Contacts(Reread(all, docs)), x, z, y);
    }
  }

  lemma ContactsSize(all: seq<Lead>)
    ensures |Contacts(all)| == |all|
  {
  }

  /** Documents of one group are connected: a merged group has one, another one is stored as it was. */
  lemma GroupConnected(
    all: seq<Lead>, groups: seq<seq<nat>>, k: nat, docs: map<string, Lead>, x: nat, y: nat)
    requires IsCut(all, groups, k, {}, docs) && x < |Reread(all, docs)| && y < |Reread(all, docs)|
    requires Completes(all, groups) && |Places(all, docs)| == |Reread(all, docs)|
    requires GroupAt(all, groups, Places(all, docs)[x]) == GroupAt(all, groups, Places(all, docs)[y])
    ensures Connected(Contacts(Reread(all, docs)), x, y)
  {
    var places := Places(all, docs);
    var i, j := places[x], places[y];
    var g := GroupAt(all, groups, i);
    IsCutParts(all, groups, k, {}, docs);
    RereadSize(all, docs);
    hide *;
    RereadAt(all, docs, x);
    RereadAt(all, docs, y);
    if Done(all, groups, k, g) {
      OneDocument(all, groups, k, docs, i, j);
      SamePlace(all, docs, x, y);
      ConnectedRefl(Contacts(Reread(all, docs)), x);
    } else {
      GroupUntouched(all, groups, k, docs, g);
      SameGroup(all, groups, i, j);
      var path := PathOf(Contacts(all), i, j);
      var z := PathKept(all, groups, docs, g, path, x);
      SamePlace(all, docs, y, z);
    }
  }

  lemma PathOf(contacts: seq<Contact>, i: nat, j: nat) returns (path: seq<nat>)
    requires Connected(contacts, i, j)
    ensures IsPath(contacts, path) && path != [] && path[0] == i && path[|path| - 1] == j
  {
    path :| Joins(contacts, path, i, j);
  }

  lemma OneDocument(all: seq<Lead>, groups: seq<seq<nat>>, k: nat, docs: map<string, Lead>, i: nat, j: nat)
    requires IsCut(all, groups, k, {}, docs) && i < |all| && j < |all| && all[i].id in docs && all[j].id in docs
    requires Completes(all, groups) && InRange(all, groups)
    requires GroupAt(all, groups, i) == GroupAt(all, groups, j) && Done(all, groups, k, GroupAt(all, groups, i))
    ensures i == j
  {
    IsCutParts(all, groups, k, {}, docs);
    DocAt(all, groups, k, {}, docs, i);
    DocAt(all, groups, k, {}, docs, j);
    hide IsCut, Completes, Done, Pick, SortByCreated, Survivor, Components, Contacts, InRange, Possible;
  }

  lemma SamePlace(all: seq<Lead>, docs: map<string, Lead>, x: nat, y: nat)
    requires x < |Places(all, docs)| && y < |Places(all, docs)| && Places(all, docs)[x] == Places(all, docs)[y]
    ensures x == y
  {
    PlacesInOrder(all, docs);
    hide Places;
  }

  /** Where the documents of one group of the next run were read. */
  function Origins(places: seq<nat>, group: seq<nat>): seq<nat>
    requires forall x :: x in group ==> x < |places|
  {
    seq(|group|, y requires 0 <= y < |group| => assert group[y] in group; places[group[y]])
  }

  lemma OriginsRise(places: seq<nat>, group: seq<nat>)
    requires InOrder(places) && InOrder(group) && forall x :: x in group ==> x < |places|
    ensures InOrder(Origins(places, group)) && |Origins(places, group)| == |group|
  {
    forall y, z | 0 <= y < z < |group| ensures Origins(places, group)[y] < Origins(places, group)[z] {
      assert group[y] in group && group[z] in group;
    }
  }

  lemma OriginIn(places: seq<nat>, group: seq<nat>, i: nat)
    requires forall x :: x in group ==> x < |places|
    ensures i in Origins(places, group) <==> exists x :: x in group && places[x] == i
  {
    if i in Origins(places, group) {
      var y :| 0 <= y < |group| && Origins(places, group)[y] == i;
      assert group[y] in group;
    }
    if exists x :: x in group && places[x] == i {
      var x :| x in group && places[x] == i;
      var y :| 0 <= y < |group| && group[y] == x;
      assert Origins(places, group)[y] == i;
    }
  }

  /** Groups of the next run. */
  ghost predicate NextGroups(all: seq<Lead>, docs: map<string, Lead>, next: seq<seq<nat>>) {
    Components(Contacts(Reread(all, docs)), next) && InRange(Reread(all, docs), next) &&
    |Places(all, docs)| == |Reread(all, docs)|
  }

  lemma NextMember(all: seq<Lead>, docs: map<string, Lead>, next: seq<seq<nat>>, h: nat, x: nat, y: nat)
    requires NextGroups(all, docs, next) && h < |next| && x in next[h] && y < |Reread(all, docs)|
    ensures x < |Reread(all, docs)|
    ensures y in next[h] <==> Connected(Contacts(Reread(all, docs)), x, y)
  {
    var leads := Reread(all, docs);
    FindGroup(leads, next, y);
    hide Reread, Connected, Contacts;
    var e: nat :| e < |next| && y in next[e];
  }

  /** The documents of a group of the next run are those of one group of the first. */
  lemma NextSame(
    all: seq<Lead>, groups: seq<seq<nat>>, k: nat, docs: map<string, Lead>, next: seq<seq<nat>>,
    h: nat, x: nat, y: nat)
    requires IsCut(all, groups, k, {}, docs) && NextGroups(all, docs, next) && h < |next| && x in next[h]
    requires y < |Places(all, docs)|
    ensures Completes(all, groups) && x < |Places(all, docs)|
    ensures y in next[h] <==>
            GroupAt(all, groups, Places(all, docs)[x]) == GroupAt(all, groups, Places(all, docs)[y])
  {
    IsCutParts(all, groups, k, {}, docs);
    RereadSize(all, docs);
    NextMember(all, docs, next, h, x, y);
    hide *;
    if y in next[h] {
      ConnectedGroup(all, groups, k, {}, docs, x, y);
    }
    if GroupAt(all, groups, Places(all, docs)[x]) == GroupAt(all, groups, Places(all, docs)[y]) {
      GroupConnected(all, groups, k, docs, x, y);
    }
  }

  lemma NextInRange(all: seq<Lead>, docs: map<string, Lead>, next: seq<seq<nat>>, h: nat)
    requires NextGroups(all, docs, next) && h < |next|
    ensures InRange(Reread(all, docs), next) && next[h] != [] && InOrder(next[h])
    ensures forall x :: x in next[h] ==> x < |Places(all, docs)|
  {
    hide Connected, Contacts, Reread, Places;
  }

  /** A group that was stored as it was is the same group to the next run. */
  lemma UntouchedNext(
    all: seq<Lead>, groups: seq<seq<nat>>, k: nat, docs: map<string, Lead>, next: seq<seq<nat>>, h: nat, x: nat)
    requires IsCut(all, groups, k, {}, docs) && NextGroups(all, docs, next) && h < |next| && x in next[h]
    requires Completes(all, groups) && InRange(all, groups) && x < |Places(all, docs)|
    requires !Done(all, groups, k, GroupAt(all, groups, Places(all, docs)[x]))
    ensures InRange(Reread(all, docs), next)
    ensures Pick(Reread(all, docs), next[h]) == Pick(all, groups[GroupAt(all, groups, Places(all, docs)[x])])
  {
    var places := Places(all, docs);
    var g := GroupAt(all, groups, places[x]);
    hide *;
    NextInRange(all, docs, next, h);
    PlacesInOrder(all, docs);
    OriginsRise(places, next[h]);
    GroupInOrder(all, groups, g);
    GroupUntouched(all, groups, k, docs, g);
    forall i: nat ensures i in Origins(places, next[h]) <==> i in groups[g] {
      OriginIn(places, next[h], i);
      NextIs(all, groups, k, docs, next, h, x, i);
    }
    RisingSame(Origins(places, next[h]), groups[g]);
    PickSame(all, docs, next[h], groups[g]);
  }

  lemma GroupInOrder(all: seq<Lead>, groups: seq<seq<nat>>, g: nat)
    requires Completes(all, groups) && g < |groups|
    ensures InOrder(groups[g])
  {
    hide Connected, Contacts, NoneRefused, DistinctLeads;
  }

  lemma NextIs(
    all: seq<Lead>, groups: seq<seq<nat>>, k: nat, docs: map<string, Lead>, next: seq<seq<nat>>,
    h: nat, x: nat, i: nat)
    requires IsCut(all, groups, k, {}, docs) && NextGroups(all, docs, next) && h < |next| && x in next[h]
    requires Completes(all, groups) && x < |Places(all, docs)|
    requires forall y :: y in next[h] ==> y < |Places(all, docs)|
    requires Untouched(all, groups[GroupAt(all, groups, Places(all, docs)[x])], docs)
    ensures (exists y :: y in next[h] && Places(all, docs)[y] == i) <==>
            i in groups[GroupAt(all, groups, Places(all, docs)[x])]
  {
    var places := Places(all, docs);
    var g := GroupAt(all, groups, places[x]);
    hide *;
    if i in groups[g] {
      UntouchedAt(all, groups[g], docs, i);
      GroupIs(all, groups, i, g);
      var y := PlaceOf(all, docs, i);
      NextSame(all, groups, k, docs, next, h, x, y);
    }
    if exists y :: y in next[h] && places[y] == i {
      var y :| y in next[h] && places[y] == i;
      NextSame(all, groups, k, docs, next, h, x, y);
    }
  }

  lemma PickSame(all: seq<Lead>, docs: map<string, Lead>, group: seq<nat>, origin: seq<nat>)
    requires (forall x :: x in group ==> x < |Places(all, docs)|) && |Places(all, docs)| == |Reread(all, docs)|
    requires Origins(Places(all, docs), group) == origin && Untouched(all, origin, docs)
    ensures (forall i :: i in origin ==> i < |all|) && Pick(Reread(all, docs), group) == Pick(all, origin)
  {
    var leads := Reread(all, docs);
    forall y | 0 <= y < |group| ensures Pick(leads, group)[y] == Pick(all, origin)[y] {
      assert group[y] in group && origin[y] in origin;
      RereadAt(all, docs, group[y]);
    }
  }

  // ---------- the end of the next run ----------

  lemma AllOne(group: seq<nat>, x: nat)
    requires InOrder(group) && x in group && forall y :: y in group ==> y == x
    ensures group == [x]
  {
    RisingSame(group, [x]);
  }

  /** The survivor of a group merged before is alone in its group. */
  lemma DoneAlone(
    all: seq<Lead>, groups: seq<seq<nat>>, k: nat, docs: map<string, Lead>, next: seq<seq<nat>>, h: nat, x: nat)
    requires IsCut(all, groups, k, {}, docs) && NextGroups(all, docs, next) && h < |next| && x in next[h]
    requires Completes(all, groups) && InRange(all, groups) && x < |Places(all, docs)|
    requires Done(all, groups, k, GroupAt(all, groups, Places(all, docs)[x]))
    ensures next[h] == [x]
  {
    hide *;
    NextInRange(all, docs, next, h);
    forall y | y in next[h] ensures y == x {
      NextSame(all, groups, k, docs, next, h, x, y);
      OneDocument(all, groups, k, docs, Places(all, docs)[x], Places(all, docs)[y]);
      SamePlace(all, docs, x, y);
    }
    AllOne(next[h], x);
  }

  lemma PickOne(leads: seq<Lead>, x: nat)
    requires x < |leads|
    ensures (forall i :: i in [x] ==> i < |leads|) && Pick(leads, [x]) == [leads[x]]
  {
  }

  lemma SortOneLead(lead: Lead)
    ensures SortByCreated([lead]) == [lead]
  {
    assert [lead][..0] == [];
  }

  /** A merged lead alone keeps its group from being refused, and stays as it is. */
  lemma AloneStays(group: seq<Lead>, end: map<string, Lead>)
    requires group != [] && Merges(group) && SortByCreated(group) != []
    ensures var s := Survivor(SortByCreated(group));
            !Refused([s]) && (Outcome(end, [s], s) ==> s.id in end && end[s.id] == s)
  {
    var s := Survivor(SortByCreated(group));
    RefusedIff(group);
    SurvivorInForm(SortByCreated(group));
    MergeTwice(SortByCreated(group));
    SortOneLead(s);
    hide SortByCreated, Survivor, Processed, SafeEmail, SafePhone, Tidy, NoRepeats;
    assert [s][0].email == s.email;
  }

  lemma OutcomeSame(group: seq<Lead>, lead: Lead, a: map<string, Lead>, b: map<string, Lead>)
    requires Outcome(a, group, lead) && Outcome(b, group, lead)
    ensures lead.id in a <==> lead.id in b
    ensures lead.id in a ==> a[lead.id] == b[lead.id]
  {
    hide SortByCreated, Survivor, Processed, Refused;
  }

  lemma OutcomeMerged(group: seq<Lead>, lead: Lead, end: map<string, Lead>)
    requires Merges(group) && Outcome(end, group, lead)
    ensures var sorted := SortByCreated(group);
            sorted != [] && if lead.id == sorted[0].id then lead.id in end && end[lead.id] == Survivor(sorted)
                            else lead.id !in end
  {
    hide SortByCreated, Survivor, Processed, Refused;
  }

  lemma DocDone(docs: map<string, Lead>, group: seq<Lead>, gone: set<string>, lead: Lead)
    requires DocIs(docs, group, gone, true, lead)
    ensures var sorted := SortByCreated(group);
            sorted != [] && (lead.id in docs <==> lead.id == sorted[0].id) &&
            (lead.id in docs ==> docs[lead.id] == Survivor(sorted))
  {
    hide SortByCreated, Survivor;
  }

  lemma DocLeft(docs: map<string, Lead>, group: seq<Lead>, gone: set<string>, lead: Lead)
    requires DocIs(docs, group, gone, false, lead)
    ensures (lead.id in docs <==> lead.id !in gone) && (lead.id in docs ==> docs[lead.id] == lead)
  {
    hide SortByCreated, Survivor;
  }

  lemma GroupMerges(all: seq<Lead>, groups: seq<seq<nat>>, k: nat, g: nat)
    requires InRange(all, groups) && g < |groups|
    ensures Done(all, groups, k, g) ==> Merges(Pick(all, groups[g])) && Pick(all, groups[g]) != []
  {
    hide Merges;
  }

  lemma SurvivorId(sorted: seq<Lead>)
    requires sorted != []
    ensures Survivor(sorted).id == sorted[0].id
  {
    SurvivorText(sorted);
    hide Survivor;
  }

  /** No group of the next run is refused, and what it makes of a document is what the first run made of it. */
  lemma SameAtEnd(
    all: seq<Lead>, groups: seq<seq<nat>>, k: nat, docs: map<string, Lead>, next: seq<seq<nat>>,
    h: nat, x: nat, end: map<string, Lead>, again: map<string, Lead>)
    requires IsCut(all, groups, k, {}, docs) && NextGroups(all, docs, next) && h < |next| && x in next[h]
    requires Completes(all, groups) && InRange(all, groups) && InRange(Reread(all, docs), next)
    requires x < |Places(all, docs)| && x < |Reread(all, docs)|
    ensures !Refused(Pick(Reread(all, docs), next[h]))
    ensures var i := Places(all, docs)[x];
            Outcome(again, Pick(Reread(all, docs), next[h]), Reread(all, docs)[x]) &&
            Outcome(end, Pick(all, groups[GroupAt(all, groups, i)]), all[i]) ==>
              (all[i].id in again <==> all[i].id in end) &&
              (all[i].id in again ==> again[all[i].id] == end[all[i].id])
  {
    var i := Places(all, docs)[x];
    var g := GroupAt(all, groups, i);
    var group, leads := Pick(all, groups[g]), Reread(all, docs);
    hide *;
    RereadAt(all, docs, x);
    DocAt(all, groups, k, {}, docs, i);
    if Done(all, groups, k, g) {
      DoneAlone(all, groups, k, docs, next, h, x);
      PickOne(leads, x);
      DocDone(docs, group, {}, all[i]);
      GroupMerges(all, groups, k, g);
      SurvivorId(SortByCreated(group));
      AloneStays(group, again);
      if Outcome(end, group, all[i]) {
        OutcomeMerged(group, all[i], end);
      }
    } else {
      DocLeft(docs, group, {}, all[i]);
      UntouchedNext(all, groups, k, docs, next, h, x);
      CompletesParts(all, groups);
      NotRefused(all, groups, g);
      if Outcome(again, group, all[i]) && Outcome(end, group, all[i]) {
        OutcomeSame(group, all[i], again, end);
      }
    }
  }

  lemma NextCompletes(all: seq<Lead>, groups: seq<seq<nat>>, k: nat, docs: map<string, Lead>, next: seq<seq<nat>>)
    requires IsCut(all, groups, k, {}, docs) && NextGroups(all, docs, next)
    ensures InRange(Reread(all, docs), next) && NoneRefused(Reread(all, docs), next, |next|)
  {
    IsCutParts(all, groups, k, {}, docs);
    NextParts(all, docs, next);
    hide IsCut, NextGroups, Completes, InRange, Pick, Refused, Reread, Places, Components, DistinctLeads, Possible;
    forall h | 0 <= h < |next| ensures !Refused(Pick(Reread(all, docs), next[h])) {
      NextInRange(all, docs, next, h);
      assert next[h][0] in next[h];
      SameAtEnd(all, groups, k, docs, next, h, next[h][0], map[], map[]);
    }
  }

  lemma NextParts(all: seq<Lead>, docs: map<string, Lead>, next: seq<seq<nat>>)
    requires NextGroups(all, docs, next)
    ensures Components(Contacts(Reread(all, docs)), next) && InRange(Reread(all, docs), next)
    ensures |Places(all, docs)| == |Reread(all, docs)|
  {
    hide Components, InRange, Contacts, Reread, Places;
  }

  lemma OutcomeOf(all: seq<Lead>, groups: seq<seq<nat>>, g: nat, i: nat)
    requires DistinctLeads(all) && Components(Contacts(all), groups) && InRange(all, groups)
    requires g < |groups| && i < |all| && i in groups[g]
    ensures Outcome(Consolidated(all, groups, |groups|), Pick(all, groups[g]), all[i])
  {
    ConsolidatedAt(all, groups, |groups|, g, i);
    hide Outcome, Consolidated, Components, Contacts, InRange, Pick, DistinctLeads;
  }

  /** Both ends hold the same for a lead that was still stored. */
  lemma SameStored(
    all: seq<Lead>, groups: seq<seq<nat>>, k: nat, docs: map<string, Lead>, next: seq<seq<nat>>, i: nat)
    requires IsCut(all, groups, k, {}, docs) && NextGroups(all, docs, next) && i < |all| && all[i].id in docs
    ensures InRange(all, groups) && InRange(Reread(all, docs), next)
    ensures var end, again, id := Consolidated(all, groups, |groups|), Consolidated(Reread(all, docs), next, |next|),
                                  all[i].id;
            (id in again <==> id in end) && (id in again ==> again[id] == end[id])
  {
    hide *;
    IsCutParts(all, groups, k, {}, docs);
    NextParts(all, docs, next);
    CutOwn(all, groups, k, {}, docs);
    RereadDistinct(all, docs);
    var x := PlaceOf(all, docs, i);
    FindGroup(Reread(all, docs), next, x);
    var h: nat :| h < |next| && x in next[h];
    OutcomeOf(Reread(all, docs), next, h, x);
    OutcomeOf(all, groups, GroupAt(all, groups, i), i);
    SameAtEnd(all, groups, k, docs, next, h, x, Consolidated(all, groups, |groups|),
      Consolidated(Reread(all, docs), next, |next|));
  }

  /** A lead no longer stored is in neither end. */
  lemma GoneStaysGone(all: seq<Lead>, groups: seq<seq<nat>>, k: nat, docs: map<string, Lead>, i: nat)
    requires IsCut(all, groups, k, {}, docs) && i < |all| && all[i].id !in docs
    ensures InRange(all, groups) && all[i].id !in Consolidated(all, groups, |groups|)
  {
    IsCutParts(all, groups, k, {}, docs);
    var g := GroupAt(all, groups, i);
    var group := Pick(all, groups[g]);
    hide *;
    DocAt(all, groups, k, {}, docs, i);
    OutcomeOf(all, groups, g, i);
    MissingIsDone(docs, group, Done(all, groups, k, g), all[i]);
    DocDone(docs, group, {}, all[i]);
    GroupMerges(all, groups, k, g);
    OutcomeMerged(group, all[i], Consolidated(all, groups, |groups|));
  }

  lemma MissingIsDone(docs: map<string, Lead>, group: seq<Lead>, done: bool, lead: Lead)
    requires DocIs(docs, group, {}, done, lead) && lead.id !in docs
    ensures done
  {
    hide SortByCreated, Survivor;
  }

  lemma RereadIds(all: seq<Lead>, docs: map<string, Lead>, id: string)
    requires OwnIds(docs) && HasId(Reread(all, docs), id)
    ensures exists i: nat :: i < |all| && all[i].id == id && id in docs
  {
    hide Places;
    var x :| 0 <= x < |Reread(all, docs)| && Reread(all, docs)[x].id == id;
    var i := Places(all, docs)[x];
    assert all[i].id == id;
  }

  lemma IdOf(all: seq<Lead>, id: string)
    requires HasId(all, id)
    ensures exists i: nat :: i < |all| && all[i].id == id
  {
    var x :| 0 <= x < |all| && all[x].id == id;
  }

  lemma SameMaps(a: map<string, Lead>, b: map<string, Lead>)
    requires forall id :: id in a ==> id in b && a[id] == b[id]
    requires forall id :: id in b ==> id in a
    ensures a == b
  {
  }

  /** Stopped with no duplicate deleted ahead of its merge, the next run ends in the same collection. */
  lemma RerunSame(all: seq<Lead>, groups: seq<seq<nat>>, k: nat, docs: map<string, Lead>, next: seq<seq<nat>>)
    requires IsCut(all, groups, k, {}, docs) && NextGroups(all, docs, next)
    ensures InRange(all, groups) && InRange(Reread(all, docs), next)
    ensures Consolidated(Reread(all, docs), next, |next|) == Consolidated(all, groups, |groups|)
  {
    hide *;
    IsCutParts(all, groups, k, {}, docs);
    NextParts(all, docs, next);
    CutOwn(all, groups, k, {}, docs);
    var end, again := Consolidated(all, groups, |groups|), Consolidated(Reread(all, docs), next, |next|);
    forall id | id in again ensures id in end && again[id] == end[id] {
      ConsolidatedKeys(Reread(all, docs), next, |next|, id);
      RereadIds(all, docs, id);
      var i: nat :| i < |all| && all[i].id == id;
      SameStored(all, groups, k, docs, next, i);
    }
    forall id | id in end ensures id in again {
      ConsolidatedKeys(all, groups, |groups|, id);
      IdOf(all, id);
      var i: nat :| i < |all| && all[i].id == id;
      if id in docs {
        SameStored(all, groups, k, docs, next, i);
      } else {
        GoneStaysGone(all, groups, k, docs, i);
      }
    }
    SameMaps(again, end);
  }

  // ---------- a stop among the deletions of a group ----------

  lemma DuplicateIn(all: seq<Lead>, groups: seq<seq<nat>>, k: nat, id: string) returns (i: nat)
    requires Completes(all, groups) && InRange(all, groups) && k < |groups|
    requires id in Duplicates(Pick(all, groups[k]))
    ensures i < |all| && i in groups[k] && all[i].id == id
  {
    hide Completes, SortByCreated, LeadIds;
    GroupDistinct(all, groups, k);
    SortedIds(Pick(all, groups[k]), id);
    var x :| 0 <= x < |Pick(all, groups[k])| && Pick(all, groups[k])[x].id == id;
    i := groups[k][x];
    assert i in groups[k];
  }

  lemma GroupDistinct(all: seq<Lead>, groups: seq<seq<nat>>, k: nat)
    requires Completes(all, groups) && InRange(all, groups) && k < |groups|
    ensures DistinctLeads(Pick(all, groups[k]))
  {
    CompletesParts(all, groups);
    GroupInOrder(all, groups, k);
    hide Completes, Components, Contacts, InOrder, DistinctLeads;
    PickDistinct(all, groups[k]);
  }

  /** The earliest lead of a group. */
  lemma FirstOf(all: seq<Lead>, groups: seq<seq<nat>>, k: nat) returns (i: nat)
    requires Completes(all, groups) && InRange(all, groups) && k < |groups|
    ensures i < |all| && i in groups[k] && Pick(all, groups[k]) != []
    ensures var sorted := SortByCreated(Pick(all, groups[k])); sorted != [] && sorted[0] == all[i]
    ensures all[i].id !in Duplicates(Pick(all, groups[k]))
  {
    var group := Pick(all, groups[k]);
    hide Completes, SortByCreated, LeadIds;
    var m := SortFirst(group);
    i := groups[k][m];
    assert i in groups[k] && group[m] == all[i];
    GroupDistinct(all, groups, k);
    OthersAreDuplicates(group, all[i]);
  }

  /** The merge of a group records every other lead of it. */
  lemma HistoryGrows(group: seq<Lead>)
    requires group != []
    ensures var sorted := SortByCreated(group);
            sorted != [] && |Survivor(sorted).mergedFrom| == |sorted[0].mergedFrom| + |group| - 1
  {
    SortFacts(group);
    SurvivorText(SortByCreated(group));
    hide SortByCreated, Survivor;
  }

  lemma FewerInOrder(a: seq<nat>, b: seq<nat>, i: nat)
    requires InOrder(a) && InOrder(b) && (forall x :: x in a ==> x in b) && i in b && i !in a
    ensures |a| < |b|
  {
    SizeInOrder(a);
    SizeInOrder(b);
    assert Elements(a) <= Elements(b) - {i};
    SubsetSize(Elements(a), Elements(b) - {i});
  }

  lemma {:induction false} SizeInOrder(a: seq<nat>)
    requires InOrder(a)
    ensures |Elements(a)| == |a|
    decreases |a|
  {
    if a != [] {
      var c, p := a[..|a| - 1], a[|a| - 1];
      RisingLast(a);
      hide InOrder;
      SizeInOrder(c);
      assert p !in c;
      ElementsGrow(c, p);
    }
  }

  lemma ElementsGrow(items: seq<nat>, x: nat)
    ensures Elements(items + [x]) == Elements(items) + {x}
  {
  }

  /** The group of the earliest lead in the next run is smaller than it was, by the deleted leads at least. */
  lemma NextSmaller(
    all: seq<Lead>, groups: seq<seq<nat>>, k: nat, gone: set<string>, docs: map<string, Lead>, next: seq<seq<nat>>,
    h: nat, x: nat, i: nat)
    requires IsCut(all, groups, k, gone, docs) && NextGroups(all, docs, next) && h < |next| && x in next[h]
    requires Completes(all, groups) && x < |Places(all, docs)| && k < |groups|
    requires GroupAt(all, groups, Places(all, docs)[x]) == k && i in groups[k] && i < |all| && all[i].id !in docs
    ensures |next[h]| < |groups[k]|
  {
    var places := Places(all, docs);
    hide *;
    NextInRange(all, docs, next, h);
    PlacesInOrder(all, docs);
    OriginsRise(places, next[h]);
    GroupInOrder(all, groups, k);
    forall j | j in Origins(places, next[h]) ensures j in groups[k] && j != i {
      OriginIn(places, next[h], j);
      var y :| y in next[h] && places[y] == j;
      RereadSize(all, docs);
      NextMember(all, docs, next, h, x, y);
      ConnectedGroup(all, groups, k, gone, docs, x, y);
    }
    FewerInOrder(Origins(places, next[h]), groups[k], i);
  }

  lemma FirstIsLead(group: seq<Lead>, lead: Lead)
    requires DistinctLeads(group) && lead in group
    ensures SortByCreated(group) != [] && (lead.id == SortByCreated(group)[0].id ==> lead == SortByCreated(group)[0])
  {
    var m := SortFirst(group);
    hide SortByCreated, IsEarliest;
    SameLeadIff(group, lead, group[m]);
  }

  /** What a run makes of a lead in a smaller group has another history than the merge of the whole group gives it. */
  lemma OtherHistory(docs: map<string, Lead>, group: seq<Lead>, k: nat, h: nat, lead: Lead, size: nat)
    requires TurnTaken(docs, group, k, h, lead) && DistinctLeads(group) && lead in group && |group| < size
    ensures lead.id in docs ==> |docs[lead.id].mergedFrom| != |lead.mergedFrom| + size - 1
  {
    FirstIsLead(group, lead);
    HistoryGrows(group);
    hide Survivor, Processed, Refused, SortByCreated, DistinctLeads;
  }

  /** Stopped with duplicates deleted ahead of their merge, no next run ends in the same collection. */
  lemma RerunDiffers(
    all: seq<Lead>, groups: seq<seq<nat>>, k: nat, gone: set<string>, docs: map<string, Lead>,
    next: seq<seq<nat>>, m: nat)
    requires IsCut(all, groups, k, gone, docs) && NextGroups(all, docs, next) && gone != {} && m <= |next|
    ensures InRange(all, groups) && InRange(Reread(all, docs), next)
    ensures Consolidated(Reread(all, docs), next, m) != Consolidated(all, groups, |groups|)
  {
    IsCutParts(all, groups, k, gone, docs);
    NextParts(all, docs, next);
    var d := DeletedLead(all, groups, k, gone, docs);
    var first := FirstOf(all, groups, k);
    var group, leads := Pick(all, groups[k]), Reread(all, docs);
    hide *;
    GroupIs(all, groups, first, k);
    FirstStored(all, groups, k, gone, docs, first);
    CutOwn(all, groups, k, gone, docs);
    RereadDistinct(all, docs);
    var x := PlaceOf(all, docs, first);
    FindGroup(leads, next, x);
    var h: nat :| h < |next| && x in next[h];
    NextSmaller(all, groups, k, gone, docs, next, h, x, d);
    ConsolidatedAt(leads, next, m, h, x);
    NextPicked(all, docs, next, h, x);
    PickedSize(all, groups[k]);
    OtherHistory(Consolidated(leads, next, m), Pick(leads, next[h]), m, h, all[first], |groups[k]|);
    OutcomeOf(all, groups, k, first);
    MergesNext(all, groups, k, gone);
    OutcomeMerged(group, all[first], Consolidated(all, groups, |groups|));
    HistoryGrows(group);
  }

  /** A deleted duplicate. */
  lemma DeletedLead(all: seq<Lead>, groups: seq<seq<nat>>, k: nat, gone: set<string>, docs: map<string, Lead>)
    returns (d: nat)
    requires IsCut(all, groups, k, gone, docs) && gone != {}
    ensures InRange(all, groups) && Completes(all, groups)
    ensures k < |groups| && d < |all| && d in groups[k] && all[d].id !in docs
  {
    IsCutParts(all, groups, k, gone, docs);
    CutDocsIs(all, groups, k, gone);
    var id :| id in gone;
    hide CutDocs, Completes, Consolidated, Merges;
    d := DuplicateIn(all, groups, k, id);
  }

  lemma FirstStored(
    all: seq<Lead>, groups: seq<seq<nat>>, k: nat, gone: set<string>, docs: map<string, Lead>, i: nat)
    requires IsCut(all, groups, k, gone, docs) && Completes(all, groups) && InRange(all, groups) && k < |groups|
    requires i < |all| && GroupAt(all, groups, i) == k && all[i].id !in Duplicates(Pick(all, groups[k]))
    ensures all[i].id in docs && docs[all[i].id] == all[i]
  {
    DocAt(all, groups, k, gone, docs, i);
    hide Completes, SortByCreated, Survivor, LeadIds, CutDocs, Merges, InRange;
  }

  lemma NextPicked(all: seq<Lead>, docs: map<string, Lead>, next: seq<seq<nat>>, h: nat, x: nat)
    requires NextGroups(all, docs, next) && h < |next| && x in next[h] && DistinctLeads(Reread(all, docs))
    ensures InRange(Reread(all, docs), next) && x < |Reread(all, docs)|
    ensures var group := Pick(Reread(all, docs), next[h]);
            DistinctLeads(group) && Reread(all, docs)[x] in group && |group| == |next[h]|
  {
    NextParts(all, docs, next);
    NextInRange(all, docs, next, h);
    hide NextGroups, Reread, Places, Components, DistinctLeads, InOrder;
    PickDistinct(Reread(all, docs), next[h]);
    PickHas(Reread(all, docs), next[h], x);
  }

  lemma PickedSize(all: seq<Lead>, group: seq<nat>)
    requires forall i :: i in group ==> i < |all|
    ensures |Pick(all, group)| == |group|
  {
  }

  lemma MergesNext(all: seq<Lead>, groups: seq<seq<nat>>, k: nat, gone: set<string>)
    requires InRange(all, groups) && Possible(all, groups, k, gone) && gone != {}
    ensures k < |groups| && Merges(Pick(all, groups[k]))
  {
  }

  // ---------- the main results ----------

  lemma LeavesParts(
    all: seq<Lead>, docs: map<string, Lead>, next: seq<seq<nat>>, m: nat, stopped: bool, again: map<string, Lead>)
    requires Leaves(Reread(all, docs), next, m, stopped, again)
    ensures NextGroups(all, docs, next) && InRange(Reread(all, docs), next)
    ensures EndsAfter(Reread(all, docs), next, m, stopped) && m <= |next|
    ensures again == Consolidated(Reread(all, docs), next, m)
  {
    RereadSize(all, docs);
    hide Components, Reread, Places, Contacts, Consolidated, Refused;
  }

  /** A run that is stopped after any single deletion or update and run again is completed and ends in the collection
      of an unstopped run exactly when it was not stopped between the first deletion of a group and its update. */
  lemma RerunIff(
    all: seq<Lead>, groups: seq<seq<nat>>, k: nat, gone: set<string>, docs: map<string, Lead>,
    next: seq<seq<nat>>, m: nat, stopped: bool, again: map<string, Lead>)
    requires IsCut(all, groups, k, gone, docs) && Leaves(Reread(all, docs), next, m, stopped, again)
    ensures InRange(all, groups)
    ensures again == Consolidated(all, groups, |groups|) <==> gone == {}
    ensures gone == {} ==> !stopped
  {
    hide *;
    IsCutParts(all, groups, k, gone, docs);
    LeavesParts(all, docs, next, m, stopped, again);
    if gone == {} {
      NextCompletes(all, groups, k, docs, next);
      EndsOnce(Reread(all, docs), next, m, stopped);
      RerunSame(all, groups, k, docs, next);
    } else {
      RerunDiffers(all, groups, k, gone, docs, next, m);
    }
  }

  /** Every run on what is stored now ends in this collection. */
  ghost predicate Recovers(all: seq<Lead>, docs: map<string, Lead>, end: map<string, Lead>) {
    forall next, m, stopped, again :: Leaves(Reread(all, docs), next, m, stopped, again) ==> again == end
  }

  lemma {:induction false} SomeEnd(all: seq<Lead>, groups: seq<seq<nat>>, k: nat) returns (m: nat, stopped: bool)
    requires InRange(all, groups) && k <= |groups| && NoneRefused(all, groups, k)
    ensures EndsAfter(all, groups, m, stopped)
    decreases |groups| - k
  {
    hide Refused, Pick;
    if k == |groups| {
      m, stopped := k, false;
    } else if Refused(Pick(all, groups[k])) {
      m, stopped := k + 1, true;
    } else {
      m, stopped := SomeEnd(all, groups, k + 1);
    }
  }

  /** There is a next run. */
  lemma SomeRun(all: seq<Lead>) returns (groups: seq<seq<nat>>, m: nat, stopped: bool, docs: map<string, Lead>)
    requires DistinctLeads(all)
    ensures Leaves(all, groups, m, stopped, docs)
  {
    hide *;
    DistinctContacts(all);
    groups := SomeComponents(Contacts(all));
    ComponentsInRange(all, groups);
    NothingRefused(all, groups);
    m, stopped := SomeEnd(all, groups, 0);
    EndsWithin(all, groups, m, stopped);
    docs := Consolidated(all, groups, m);
    LeavesAs(all, groups, m, stopped, docs);
  }

  lemma EndsWithin(all: seq<Lead>, groups: seq<seq<nat>>, m: nat, stopped: bool)
    requires InRange(all, groups) && EndsAfter(all, groups, m, stopped)
    ensures m <= |groups|
  {
    hide Refused;
  }

  lemma RecoversIff(all: seq<Lead>, groups: seq<seq<nat>>, k: nat, gone: set<string>, docs: map<string, Lead>)
    requires IsCut(all, groups, k, gone, docs)
    ensures InRange(all, groups)
    ensures Recovers(all, docs, Consolidated(all, groups, |groups|)) <==> gone == {}
  {
    IsCutParts(all, groups, k, gone, docs);
    CutOwn(all, groups, k, gone, docs);
    RereadDistinct(all, docs);
    hide IsCut, Leaves, Reread, Consolidated, Completes, InRange, Components, DistinctLeads, Possible, OwnIds;
    var end := Consolidated(all, groups, |groups|);
    forall next, m, stopped, again | Leaves(Reread(all, docs), next, m, stopped, again)
      ensures again == end <==> gone == {} {
      RerunIff(all, groups, k, gone, docs, next, m, stopped, again);
    }
    var next, m, stopped, again := SomeRun(Reread(all, docs));
  }

  /** Some group to be merged has more than one lead. */
  ghost predicate HasDuplicates(all: seq<Lead>, groups: seq<seq<nat>>)
    requires InRange(all, groups)
  {
    exists g :: 0 <= g < |groups| && Merges(Pick(all, groups[g])) && |groups[g]| > 1
  }

  /** Every stop of a run can be made good by running it again exactly when the run deletes nothing. */
  lemma EveryStopIff(all: seq<Lead>, groups: seq<seq<nat>>)
    requires Completes(all, groups) && InRange(all, groups)
    ensures (forall k: nat, gone, docs :: IsCut(all, groups, k, gone, docs) ==>
               Recovers(all, docs, Consolidated(all, groups, |groups|))) <==>
            !HasDuplicates(all, groups)
  {
    hide Completes, Recovers, Consolidated, Merges, Pick, IsCut;
    if HasDuplicates(all, groups) {
      var g: nat :| g < |groups| && Merges(Pick(all, groups[g])) && |groups[g]| > 1;
      var id := SomeDuplicate(all, groups, g);
      var docs := CutDocs(all, groups, g, {id});
      CutFrom(all, groups, g, id);
      RecoversIff(all, groups, g, {id}, docs);
    }
    forall k: nat, gone, docs | IsCut(all, groups, k, gone, docs) && !HasDuplicates(all, groups)
      ensures Recovers(all, docs, Consolidated(all, groups, |groups|)) {
      NothingDeleted(all, groups, k, gone, docs);
      RecoversIff(all, groups, k, gone, docs);
    }
  }

  lemma SomeDuplicate(all: seq<Lead>, groups: seq<seq<nat>>, g: nat) returns (id: string)
    requires Completes(all, groups) && InRange(all, groups) && g < |groups| && |groups[g]| > 1
    ensures id in Duplicates(Pick(all, groups[g]))
  {
    var group := Pick(all, groups[g]);
    SortFacts(group);
    hide Completes, SortByCreated;
    var ids := Duplicates(group);
    id := ids[0];
  }

  lemma CutFrom(all: seq<Lead>, groups: seq<seq<nat>>, g: nat, id: string)
    requires Completes(all, groups) && InRange(all, groups) && g < |groups|
    requires Merges(Pick(all, groups[g])) && id in Duplicates(Pick(all, groups[g]))
    ensures IsCut(all, groups, g, {id}, CutDocs(all, groups, g, {id}))
  {
    hide Completes, CutDocs, Merges, Duplicates, Pick;
  }

  lemma NothingDeleted(all: seq<Lead>, groups: seq<seq<nat>>, k: nat, gone: set<string>, docs: map<string, Lead>)
    requires IsCut(all, groups, k, gone, docs) && InRange(all, groups) && !HasDuplicates(all, groups)
    ensures gone == {}
  {
    if gone != {} {
      var id :| id in gone;
      SortFacts(Pick(all, groups[k]));
      hide Completes, CutDocs, Merges, SortByCreated;
    }
  }

  // ---------- a note that is lost ----------

  const KEPT: Lead := LeadWith("1", "+8801712345678", None, "a@b.c")

  const NOTED: Lead := LeadWith("2", "+8801712345678", None, "a@b.c").(notes := "call")

  lemma PairSorted()
    ensures SortByCreated([KEPT, NOTED]) == [KEPT, NOTED] && Duplicates([KEPT, NOTED]) == ["2"]
  {
    var all := [KEPT, NOTED];
    assert all[..1] == [KEPT];
    SortOneLead(KEPT);
    assert LeadIds(all[1..]) == ["2"];
  }

  lemma PairGroup()
    ensures Merges([KEPT, NOTED]) && Components(Contacts([KEPT, NOTED]), [[0, 1]])
  {
    SamplePhone();
    SampleEmail();
    hide SafePhone, SafeEmail;
    var all := [KEPT, NOTED];
    assert AsContact(all[0]).phone != "" && SafeEmail(all[0].email) != "";
    OneComponent(Contacts(all));
    hide Components;
  }

  lemma PairMerges()
    ensures var all, groups := [KEPT, NOTED], [[0, 1]];
            && Pick(all, [0, 1]) == all && Merges(all) && SortByCreated(all) == all && Duplicates(all) == ["2"]
            && Completes(all, groups) && InRange(all, groups)
  {
    PairGroup();
    PairSorted();
    TwoPicked(KEPT, NOTED);
    hide Components, Contacts, SortByCreated, Duplicates, Processed, SafeEmail;
  }

  lemma NotesGrow(front: seq<Lead>, lead: Lead)
    ensures var note, before := Trim(lead.notes), NotesOf(front);
            NotesOf(front + [lead]) == if note != "" && note !in before then before + [note] else before
  {
    assert (front + [lead])[..|front|] == front;
    hide Trim;
  }

  lemma JoinOne(note: string)
    ensures Join([note]) == note
  {
  }

  lemma TidyTrim(note: string)
    requires Tidy(note)
    ensures Trim(note) == note
  {
    TrimId(note);
  }

  lemma FirstNote(lead: Lead, note: string)
    requires lead.notes == note != "" && Tidy(note)
    ensures forall front :: NotesOf(front) == [] ==> NotesOf(front + [lead]) == [note]
  {
    TidyTrim(note);
    forall front | NotesOf(front) == [] ensures NotesOf(front + [lead]) == [note] {
      NotesGrow(front, lead);
      assert [] + [note] == [note];
    }
    hide NotesOf, Trim;
  }

  lemma NoNote(lead: Lead)
    requires lead.notes == ""
    ensures NotesOf([lead]) == []
  {
    assert [lead][..0] == [];
    TrimId("");
    hide Trim;
  }

  lemma SurvivorNotes(sorted: seq<Lead>)
    requires sorted != []
    ensures Survivor(sorted).notes == Join(NotesOf(sorted))
  {
    SurvivorText(sorted);
    hide Survivor, Join, NotesOf, InterestsOf, HistoryOf;
  }

  lemma TwoNotes(a: Lead, b: Lead)
    requires a.notes == "" && b.notes != "" && Tidy(b.notes)
    ensures Survivor([a, b]).notes == b.notes
  {
    hide *;
    NoNote(a);
    FirstNote(b, b.notes);
    assert [a] + [b] == [a, b];
    SurvivorNotes([a, b]);
    JoinOne(b.notes);
  }

  lemma PairNotes()
    ensures Survivor([KEPT, NOTED]).notes == "call"
  {
    assert KEPT.notes == "" && NOTED.notes == "call" && Tidy("call");
    hide Survivor, Tidy;
    TwoNotes(KEPT, NOTED);
  }

  lemma PairStored()
    ensures var all, groups := [KEPT, NOTED], [[0, 1]];
            && InRange(all, groups) && Consolidated(all, groups, 0) == map["1" := KEPT, "2" := NOTED]
            && CutDocs(all, groups, 0, {"2"}) == map["1" := KEPT]
            && Reread(all, map["1" := KEPT]) == [KEPT]
  {
    StoreOfTwo(KEPT, NOTED);
    TwoPicked(KEPT, NOTED);
    var all := [KEPT, NOTED];
    assert KeptAt(all, map["1" := KEPT], 0) == [] && KeptAt(all, map["1" := KEPT], 1) == [0];
  }

  /** Alone, a lead without notes has none after any run. */
  lemma AloneNoNotes(lead: Lead, next: seq<seq<nat>>, m: nat, stopped: bool, again: map<string, Lead>, id: string)
    requires Leaves([lead], next, m, stopped, again) && lead.notes == "" && id in again
    ensures again[id].notes == ""
  {
    EndsWithin([lead], next, m, stopped);
    ConsolidatedKeys([lead], next, m, id);
    FindGroup([lead], next, 0);
    var h: nat :| h < |next| && 0 in next[h];
    hide Connected, AsContact, Consolidated, Refused, Processed, SortByCreated, Survivor;
    AllOne(next[h], 0);
    ConsolidatedAt([lead], next, m, h, 0);
    PickOne([lead], 0);
    SortOneLead(lead);
    SurvivorText([lead]);
    NotesAlone(lead);
  }

  /** Two leads of one person, the second with a note.  Stopped after the second was deleted, no further run brings the
      note back, which an unstopped run keeps. */
  lemma NoteLost()
    ensures var all, groups, docs := [KEPT, NOTED], [[0, 1]], map["1" := KEPT];
            && IsCut(all, groups, 0, {"2"}, docs) && InRange(all, groups)
            && (var end := Consolidated(all, groups, 1); "1" in end && end["1"].notes == "call")
            && forall next, m, stopped, again: map<string, Lead>, id ::
                 Leaves(Reread(all, docs), next, m, stopped, again) && id in again ==> again[id].notes == ""
  {
    var all, groups, docs := [KEPT, NOTED], [[0, 1]], map["1" := KEPT];
    PairMerges();
    PairNotes();
    PairStored();
    hide Completes, Survivor, SortByCreated, Merges, Leaves, Reread, CutDocs, Duplicates;
    assert Pick(all, groups[0]) == all;
    assert IsCut(all, groups, 0, {"2"}, docs);
    ConsolidatedNext(all, groups, 0);
    PairApplied();
    forall next, m, stopped, again: map<string, Lead>, id |
      Leaves(Reread(all, docs), next, m, stopped, again) && id in again
      ensures again[id].notes == "" {
      AloneNoNotes(KEPT, next, m, stopped, again, id);
    }
  }

  lemma PairApplied()
    ensures var end := ApplyGroup(map["1" := KEPT, "2" := NOTED], [KEPT, NOTED]);
            "1" in end && end["1"] == Survivor([KEPT, NOTED])
  {
    PairMerges();
    hide SortByCreated, Survivor, Processed, Refused, Completes, SafeEmail;
    assert LeadIds([KEPT, NOTED][1..]) == ["2"];
  }
}
