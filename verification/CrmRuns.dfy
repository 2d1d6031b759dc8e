/** What a whole run of the migration establishes, and when it may be stopped and run again. */
module CrmRuns {
  import opened Wrappers
  import opened CrmMigration
  import opened CrmResume

  // ---------- the phases keep the final documents ----------

  lemma {:induction false} StatusesKeep(db: Db, t: map<string, string>, order: seq<string>, n: nat,
    mint: string -> string)
    requires Inv(db, t, mint) && Covers(order, db) && n <= |order|
    ensures Inv(Statuses(db, order, n), t, mint) && SameFinal(db, Statuses(db, order, n), t)
  {
    hide Inv, SameFinal, SetStatus;
    if n == 0 {
      SameFinalReflexive(db, t);
    } else {
      var before := Statuses(db, order, n - 1);
      StatusesKeep(db, t, order, n - 1, mint);
      assert order[n - 1] in before.leads;
      StatusStep(before, t, mint, order[n - 1]);
      SameFinalTransitive(db, before, SetStatus(before, order[n - 1]), t);
    }
  }

  lemma {:induction false} LeadsKeep(db: Db, t: map<string, string>, order: seq<string>, n: nat, mint: string -> string)
    requires Inv(db, t, mint) && Covers(order, db) && n <= |order|
    ensures Inv(Leads(db, order, n, mint), t, mint) && SameFinal(db, Leads(db, order, n, mint), t)
  {
    hide Inv, SameFinal, LeadWrites;
    if n == 0 {
      SameFinalReflexive(db, t);
    } else {
      var before := Leads(db, order, n - 1, mint);
      LeadsKeep(db, t, order, n - 1, mint);
      assert order[n - 1] in before.leads;
      LeadSteps(before, t, mint, order[n - 1], 3);
      SameFinalTransitive(db, before, LeadWrites(before, order[n - 1], 3, mint), t);
    }
  }

  // ---------- a processed lead stays processed ----------

  /** The lead, its contact and its note have their final form. */
  ghost predicate LeadSettled(db: Db, t: map<string, string>, l: string) {
    l in db.leads &&
    var lead := db.leads[l];
    && lead == FinalLead(lead, t, l)
    && (l in t ==> t[l] in db.contacts && db.contacts[t[l]] == Patched(db.contacts[t[l]], lead, l))
    && (lead.notes != "" ==> (lead.org, l) in db.notes && db.notes[(lead.org, l)] == lead.notes)
  }

  /** All the writes for a lead, seen together. */
  lemma WritesAre(db: Db, t: map<string, string>, mint: string -> string, l: string)
    requires Inv(db, t, mint) && l in db.leads
    ensures var lead, after := db.leads[l], LeadWrites(db, l, 3, mint);
            && after.leads == db.leads[l := FinalLead(lead, t, l)]
            && after.contacts == (if l !in t then db.contacts else
                 db.contacts[t[l] := Patched(if t[l] in db.contacts then db.contacts[t[l]] else Blank(lead), lead, l)])
            && after.notes == if lead.notes == "" then db.notes else db.notes[(lead.org, l) := lead.notes]
  {
    ContactFound(db, t, mint, l);
    FitsOf(db, t, mint, l);
    LinkIsWon(db, t, mint, l);
    hide Inv, LeadFits, PointsBack, ContactOf, Patched, Converted, Reopened, Won, Blank;
  }

  lemma LeadDone(db: Db, t: map<string, string>, mint: string -> string, l: string)
    requires Inv(db, t, mint) && l in db.leads
    ensures LeadSettled(LeadWrites(db, l, 3, mint), t, l)
  {
    WritesAre(db, t, mint, l);
    FitsOf(db, t, mint, l);
    LinkIsWon(db, t, mint, l);
    hide Inv, LeadFits, LeadWrites, Patched, Converted, Reopened, Won, Blank;
    PatchedTwice(if l in t && t[l] in db.contacts then db.contacts[t[l]] else Blank(db.leads[l]), db.leads[l],
                 if l in t then t[l] else "", l);
  }

  lemma LinkIsWon(db: Db, t: map<string, string>, mint: string -> string, l: string)
    requires l in db.leads && LeadFits(db, t, mint, l)
    ensures Won(db.leads[l]) ==> l in t
    ensures l in t && t[l] !in db.contacts ==> Won(db.leads[l]) && t[l] == mint(l)
  {
  }

  lemma PatchedTwice(contact: Contact, lead: Lead, c: string, l: string)
    ensures Patched(Patched(contact, lead, l), lead, l) == Patched(contact, lead, l)
    ensures !Won(lead) ==> Patched(Patched(contact, lead, l), Reopened(lead), l) == Patched(contact, lead, l)
    ensures Won(lead) ==> Patched(Patched(contact, lead, l), Converted(lead, c), l) == Patched(contact, lead, l)
    ensures Won(lead) ==> Converted(Converted(lead, c), c) == Converted(lead, c) && Won(Converted(lead, c))
    ensures !Won(lead) ==> Reopened(Reopened(lead)) == Reopened(lead) && !Won(Reopened(lead))
    ensures Converted(lead, c).notes == lead.notes && Converted(lead, c).org == lead.org
    ensures Reopened(lead).notes == lead.notes && Reopened(lead).org == lead.org
  {
  }

  /** The writes for one lead touch neither another lead nor its contact or note. */
  lemma OthersUntouched(db: Db, t: map<string, string>, mint: string -> string, l: string, m: string)
    requires Inv(db, t, mint) && l in db.leads && m in db.leads && l != m
    ensures var after := LeadWrites(db, l, 3, mint);
            && after.leads[m] == db.leads[m]
            && (m in t ==> (t[m] in after.contacts <==> t[m] in db.contacts))
            && (m in t && t[m] in db.contacts ==> after.contacts[t[m]] == db.contacts[t[m]])
            && (forall org :: (org, m) in after.notes <==> (org, m) in db.notes)
            && (forall org :: (org, m) in db.notes ==> after.notes[(org, m)] == db.notes[(org, m)])
  {
    WritesAre(db, t, mint, l);
    assert m in t && l in t ==> t[m] != t[l];
    hide Inv, LeadWrites, FinalLead, Patched, Blank;
  }

  lemma SettledStays(db: Db, t: map<string, string>, mint: string -> string, l: string, m: string)
    requires Inv(db, t, mint) && l in db.leads && LeadSettled(db, t, m)
    ensures LeadSettled(LeadWrites(db, l, 3, mint), t, m)
  {
    if l == m {
      LeadDone(db, t, mint, l);
    } else {
      OthersUntouched(db, t, mint, l, m);
      hide Inv, LeadWrites, FinalLead, Patched;
    }
  }

  lemma LeadsStep(db: Db, order: seq<string>, n: nat, mint: string -> string)
    requires Covers(order, db) && 0 < n <= |order|
    ensures order[n - 1] in Leads(db, order, n - 1, mint).leads
    ensures Leads(db, order, n, mint) == LeadWrites(Leads(db, order, n - 1, mint), order[n - 1], 3, mint)
  {
  }

  lemma CoversAt(order: seq<string>, db: Db, i: nat)
    requires Covers(order, db) && i < |order|
    ensures order[i] in db.leads
  {
  }

  lemma {:induction false} LeadsSettle(
    db: Db, t: map<string, string>, order: seq<string>, n: nat, mint: string -> string, i: nat)
    requires Inv(db, t, mint) && Covers(order, db) && i < n <= |order|
    ensures LeadSettled(Leads(db, order, n, mint), t, order[i])
  {
    hide *;
    CoversAt(order, db, n - 1);
    var before, l := Leads(db, order, n - 1, mint), order[n - 1];
    LeadsKeep(db, t, order, n - 1, mint);
    LeadsStep(db, order, n, mint);
    if i == n - 1 {
      LeadDone(before, t, mint, l);
    } else {
      LeadsSettle(db, t, order, n - 1, mint, i);
      SettledStays(before, t, mint, l, order[i]);
    }
  }

  ghost predicate AllLeadsSettled(db: Db, t: map<string, string>) {
    forall l :: l in db.leads ==> LeadSettled(db, t, l)
  }

  lemma AfterLeads(db: Db, t: map<string, string>, order: seq<string>, mint: string -> string)
    requires Inv(db, t, mint) && Covers(order, db)
    ensures AllLeadsSettled(Leads(db, order, |order|, mint), t)
  {
    hide LeadSettled, Inv, Leads;
    forall l | l in db.leads ensures LeadSettled(Leads(db, order, |order|, mint), t, l) {
      var i :| 0 <= i < |order| && order[i] == l;
      LeadsSettle(db, t, order, |order|, mint, i);
    }
  }

  // ---------- the contacts without a source ----------

  lemma ManualUnowned(db: Db, t: map<string, string>, mint: string -> string, c: string)
    requires Inv(db, t, mint) && AllLeadsSettled(db, t) && c in db.contacts
    ensures Owner(t, c).Some? ==> Manual(db.contacts[c]) == db.contacts[c]
  {
    var l := Owner(t, c);
    if l.Some? {
      assert LeadSettled(db, t, l.value);
    }
  }

  lemma ManualInv(db: Db, t: map<string, string>, mint: string -> string, c: string)
    requires Inv(db, t, mint)
    ensures Inv(SetManual(db, c), t, mint)
  {
    hide Canonical, NoConflict, Won, Or;
    var after := SetManual(db, c);
    forall m | m in after.leads ensures LeadFits(after, t, mint, m) {
      assert LeadFits(db, t, mint, m);
    }
    forall m, d | PointsBack(after, d, m) ensures m in t && t[m] == d {
      assert PointsBack(db, d, m);
    }
  }

  lemma ManualFinal(db: Db, t: map<string, string>, mint: string -> string, c: string, d: string)
    requires Inv(db, t, mint) && AllLeadsSettled(db, t)
    ensures FinalContact(db, t, d) == FinalContact(SetManual(db, c), t, d)
  {
    hide LeadSettled, LeadFits, PointsBack, Owner, Won, Or;
    if c in db.contacts {
      ManualUnowned(db, t, mint, c);
    }
  }

  lemma ManualSettled(db: Db, t: map<string, string>, mint: string -> string, c: string, l: string)
    requires Inv(db, t, mint) && AllLeadsSettled(db, t) && l in db.leads
    ensures LeadSettled(SetManual(db, c), t, l)
  {
    assert LeadSettled(db, t, l);
    hide Inv, AllLeadsSettled, FinalLead, Won, Or;
  }

  lemma ManualStep(db: Db, t: map<string, string>, mint: string -> string, c: string)
    requires Inv(db, t, mint) && AllLeadsSettled(db, t)
    ensures Inv(SetManual(db, c), t, mint) && AllLeadsSettled(SetManual(db, c), t)
    ensures SameFinal(db, SetManual(db, c), t)
  {
    hide Inv, LeadSettled, FinalContact, FinalNote, FinalLead, Manual;
    var after := SetManual(db, c);
    ManualInv(db, t, mint, c);
    forall l | l in after.leads ensures LeadSettled(after, t, l) {
      ManualSettled(db, t, mint, c, l);
    }
    forall d ensures FinalContact(db, t, d) == FinalContact(after, t, d) {
      ManualFinal(db, t, mint, c, d);
    }
    forall k ensures FinalNote(db, k) == FinalNote(after, k) {
      SameLeadsSameNote(db, after, k);
    }
  }

  lemma {:induction false} ManualsKeep(
    db: Db, t: map<string, string>, people: seq<string>, n: nat, mint: string -> string)
    requires Inv(db, t, mint) && AllLeadsSettled(db, t) && n <= |people|
    ensures var after := Manuals(db, people, n);
            Inv(after, t, mint) && AllLeadsSettled(after, t) && SameFinal(db, after, t)
  {
    hide Inv, SameFinal, AllLeadsSettled, SetManual;
    if n == 0 {
      SameFinalReflexive(db, t);
    } else {
      var before := Manuals(db, people, n - 1);
      ManualsKeep(db, t, people, n - 1, mint);
      ManualStep(before, t, mint, people[n - 1]);
      SameFinalTransitive(db, before, SetManual(before, people[n - 1]), t);
    }
  }

  predicate HasState(contact: Contact) {
    contact.source == None ==> contact.state != Unset
  }

  lemma {:induction false} ManualsDone(db: Db, people: seq<string>, n: nat, c: string)
    requires n <= |people|
    ensures Manuals(db, people, n).contacts.Keys == db.contacts.Keys
    ensures c in db.contacts && (c in people[..n] || HasState(db.contacts[c])) ==>
            HasState(Manuals(db, people, n).contacts[c])
  {
    if n > 0 {
      ManualsDone(db, people, n - 1, c);
      assert people[..n] == people[..n - 1] + [people[n - 1]];
    }
  }

  // ---------- the end of a run ----------

  /** No document needs another write. */
  ghost predicate Settled(db: Db, t: map<string, string>) {
    AllLeadsSettled(db, t) && forall c :: c in db.contacts ==> HasState(db.contacts[c])
  }

  predicate Lists(people: seq<string>, db: Db) {
    forall c :: c in db.contacts ==> c in people
  }

  lemma RunStages(db: Db, order: seq<string>, people: seq<string>, mint: string -> string)
    requires Covers(order, db)
    ensures Covers(order, Statuses(db, order, |order|))
    ensures RunAll(db, order, people, mint) ==
            Manuals(Leads(Statuses(db, order, |order|), order, |order|, mint), people, |people|)
  {
  }

  /** A run ends settled, with the final documents of its start. */
  lemma RunReaches(db: Db, t: map<string, string>, order: seq<string>, people: seq<string>, mint: string -> string)
    requires Inv(db, t, mint) && Covers(order, db) && Lists(people, db)
    ensures var after := RunAll(db, order, people, mint);
            Inv(after, t, mint) && Settled(after, t) && SameFinal(db, after, t)
  {
    hide Inv, AllLeadsSettled, SameFinal, Manuals, Leads, Statuses, HasState, Lists;
    var one := Statuses(db, order, |order|);
    StatusesKeep(db, t, order, |order|, mint);
    var two := Leads(one, order, |order|, mint);
    LeadsKeep(one, t, order, |order|, mint);
    AfterLeads(one, t, order, mint);
    var three := Manuals(two, people, |people|);
    ManualsKeep(two, t, people, |people|, mint);
    SameFinalTransitive(db, one, two, t);
    SameFinalTransitive(db, two, three, t);
    assert people[..|people|] == people;
    forall c | c in three.contacts ensures HasState(three.contacts[c]) {
      ManualsDone(two, people, |people|, c);
      OwnedOrOld(db, two, t, mint, people, c);
    }
  }

  lemma OwnedOrOld(db: Db, two: Db, t: map<string, string>, mint: string -> string, people: seq<string>, c: string)
    requires SameFinal(db, two, t) && Inv(two, t, mint) && AllLeadsSettled(two, t) && Lists(people, db)
             && c in two.contacts
    ensures c in people || HasState(two.contacts[c])
  {
    hide Patched, FinalNote, FinalLead, Inv;
    assert FinalContact(db, t, c) == FinalContact(two, t, c);
    if Owner(t, c).Some? {
      OwnedHasState(two, t, mint, c);
    }
  }

  lemma OwnedHasState(db: Db, t: map<string, string>, mint: string -> string, c: string)
    requires Inv(db, t, mint) && AllLeadsSettled(db, t) && c in db.contacts && Owner(t, c).Some?
    ensures HasState(db.contacts[c])
  {
    var l := Owner(t, c).value;
    assert LeadSettled(db, t, l);
  }

  // ---------- the final documents decide the end ----------

  lemma SettledContact(db: Db, t: map<string, string>, mint: string -> string, c: string)
    requires Inv(db, t, mint) && Settled(db, t)
    ensures FinalContact(db, t, c) == if c in db.contacts then Some(db.contacts[c]) else None
  {
    hide LeadFits, PointsBack;
    var l := Owner(t, c);
    if l.Some? {
      assert LeadSettled(db, t, l.value);
    }
  }

  lemma SettledNote(db: Db, t: map<string, string>, k: (string, string))
    requires AllLeadsSettled(db, t)
    ensures FinalNote(db, k) == if k in db.notes then Some(db.notes[k]) else None
  {
    if k.1 in db.leads {
      assert LeadSettled(db, t, k.1);
    }
  }

  lemma SettledSame(a: Db, b: Db, t: map<string, string>, mint: string -> string)
    requires Inv(a, t, mint) && Inv(b, t, mint) && Settled(a, t) && Settled(b, t) && SameFinal(a, b, t)
    ensures a == b
  {
    SettledSameLeads(a, b, t);
    hide Inv, Settled, FinalContact, FinalNote, FinalLead, LeadSettled;
    forall c ensures c in a.contacts <==> c in b.contacts
             ensures c in a.contacts ==> a.contacts[c] == b.contacts[c] {
      SettledContact(a, t, mint, c);
      SettledContact(b, t, mint, c);
      assert FinalContact(a, t, c) == FinalContact(b, t, c);
    }
    forall k ensures k in a.notes <==> k in b.notes
             ensures k in a.notes ==> a.notes[k] == b.notes[k] {
      SettledAll(a, t);
      SettledAll(b, t);
      SettledNote(a, t, k);
      SettledNote(b, t, k);
      assert FinalNote(a, k) == FinalNote(b, k);
    }
    assert a.contacts == b.contacts && a.notes == b.notes && a.leads == b.leads;
  }

  lemma SettledAll(a: Db, t: map<string, string>)
    requires Settled(a, t)
    ensures AllLeadsSettled(a, t)
  {
  }

  lemma SettledSameLeads(a: Db, b: Db, t: map<string, string>)
    requires Settled(a, t) && Settled(b, t) && SameFinal(a, b, t)
    ensures a.leads == b.leads
  {
    hide FinalLead, FinalContact, FinalNote;
    forall l | l in a.leads ensures a.leads[l] == b.leads[l] {
      assert LeadSettled(a, t, l) && LeadSettled(b, t, l) && SameLead(a, b, t, l);
    }
  }
}
