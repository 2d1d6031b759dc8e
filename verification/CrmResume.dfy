/** Stopping the migration after any single write and running it again. */
module CrmResume {
  import opened Wrappers
  import opened CrmMigration

  // ---------- the contact each lead ends with ----------

  /** What holds before, between and after the writes of a run, with `t` the contact each lead ends with: a linked
      contact, a recovered one, or, for a won lead with neither, one still to be made with a fresh id. */
  ghost predicate Inv(db: Db, t: map<string, string>, mint: string -> string) {
    && (forall l :: l in db.leads ==> LeadFits(db, t, mint, l))
    && (forall l :: l in t ==> l in db.leads)
    && (forall l, m :: l in t && m in t && t[l] == t[m] ==> l == m)
    && (forall l, c :: PointsBack(db, c, l) ==> l in t && t[l] == c)
  }

  ghost predicate LeadFits(db: Db, t: map<string, string>, mint: string -> string, l: string)
    requires l in db.leads
  {
    var lead := db.leads[l];
    && Canonical(lead.status) in STATUSES && NoConflict(lead)
    && (Linked(lead).Some? ==> l in t && t[l] == Linked(lead).value && t[l] in db.contacts)
    && (Won(lead) ==> l in t)
    && (l in t && t[l] in db.contacts ==>
          var contact := db.contacts[t[l]];
          contact.org == lead.org && (contact.source == None || contact.source == Some(l)) &&
          (Linked(lead).None? ==> contact.source == Some(l)))
    && (l in t && t[l] !in db.contacts ==> Won(lead) && t[l] == mint(l))
  }

  lemma ContactFound(db: Db, t: map<string, string>, mint: string -> string, l: string)
    requires Inv(db, t, mint) && l in db.leads
    ensures ContactOf(db, l) == if l in t && t[l] in db.contacts then Some(t[l]) else None
  {
    assert LeadFits(db, t, mint, l);
    if Linked(db.leads[l]).None? && l in t && t[l] in db.contacts {
      assert PointsBack(db, t[l], l);
    }
  }

  // ---------- the final documents ----------

  function FinalLead(lead: Lead, t: map<string, string>, l: string): Lead {
    if Won(lead) && l in t then Converted(lead, t[l]) else Reopened(lead)
  }

  ghost function Owner(t: map<string, string>, c: string): (l: Option<string>)
    ensures l.Some? ==> l.value in t && t[l.value] == c
    ensures l.None? ==> forall m :: m in t ==> t[m] != c
  {
    if exists l :: l in t && t[l] == c then var l :| l in t && t[l] == c; Some(l) else None
  }

  /** The contact a run leaves under this id, if any. */
  ghost function FinalContact(db: Db, t: map<string, string>, c: string): Option<Contact> {
    var l := Owner(t, c);
    if l.Some? && l.value in db.leads then
      var lead := db.leads[l.value];
      Some(Patched(if c in db.contacts then db.contacts[c] else Blank(lead), lead, l.value))
    else if c in db.contacts then Some(Manual(db.contacts[c]))
    else None
  }

  function FinalNote(db: Db, k: (string, string)): Option<string> {
    if k.1 in db.leads && db.leads[k.1].org == k.0 && db.leads[k.1].notes != "" then Some(db.leads[k.1].notes)
    else if k in db.notes then Some(db.notes[k])
    else None
  }

  ghost predicate SameLead(a: Db, b: Db, t: map<string, string>, l: string)
    requires l in a.leads && l in b.leads
  {
    FinalLead(a.leads[l], t, l) == FinalLead(b.leads[l], t, l)
  }

  /** Both lead to the same final documents. */
  ghost predicate SameFinal(a: Db, b: Db, t: map<string, string>) {
    && a.leads.Keys == b.leads.Keys
    && (forall l :: l in a.leads ==> SameLead(a, b, t, l))
    && (forall c :: FinalContact(a, t, c) == FinalContact(b, t, c))
    && (forall k :: FinalNote(a, k) == FinalNote(b, k))
  }

  // ---------- one write keeps all of it ----------

  /** A lead may be rewritten so long as its final form and the way to its contact are kept. */
  ghost predicate SameWay(db: Db, t: map<string, string>, l: string, lead: Lead)
    requires l in db.leads
  {
    var was := db.leads[l];
    && lead.org == was.org && lead.name == was.name && lead.phone == was.phone && lead.agent == was.agent
    && lead.notes == was.notes && Date(lead) == Date(was) && Canonical(lead.status) == Canonical(was.status)
    && lead.nextFollowUp == was.nextFollowUp && lead.contact == was.contact && NoConflict(lead)
    && (Linked(lead).Some? ==> l in t && t[l] == Linked(lead).value && t[l] in db.contacts)
    && (Linked(lead).None? && l in t && t[l] in db.contacts ==> db.contacts[t[l]].source == Some(l))
  }

  lemma LeadWrite(db: Db, t: map<string, string>, mint: string -> string, l: string, lead: Lead)
    requires Inv(db, t, mint) && l in db.leads && SameWay(db, t, l, lead)
    ensures Inv(PutLead(db, l, lead), t, mint) && SameFinal(db, PutLead(db, l, lead), t)
  {
    hide Inv, SameWay, FinalContact, FinalNote, FinalLead;
    var after := PutLead(db, l, lead);
    LeadWriteInv(db, t, mint, l, lead);
    forall c ensures FinalContact(db, t, c) == FinalContact(after, t, c) {
      LeadWriteContact(db, t, l, lead, c);
    }
    forall k ensures FinalNote(db, k) == FinalNote(after, k) {
      LeadWriteNote(db, t, l, lead, k);
    }
    forall m | m in db.leads ensures SameLead(db, after, t, m) {
      LeadWriteLead(db, t, l, lead, m);
    }
  }

  lemma LeadWriteContact(db: Db, t: map<string, string>, l: string, lead: Lead, c: string)
    requires l in db.leads && SameWay(db, t, l, lead)
    ensures FinalContact(db, t, c) == FinalContact(PutLead(db, l, lead), t, c)
  {
    hide Owner, Canonical, NoConflict, Manual, Linked;
    var m := Owner(t, c);
    if m == Some(l) {
      assert Won(lead) == Won(db.leads[l]);
      assert Blank(lead) == Blank(db.leads[l]);
    }
  }

  lemma LeadWriteNote(db: Db, t: map<string, string>, l: string, lead: Lead, k: (string, string))
    requires l in db.leads && SameWay(db, t, l, lead)
    ensures FinalNote(db, k) == FinalNote(PutLead(db, l, lead), k)
  {
  }

  lemma LeadWriteLead(db: Db, t: map<string, string>, l: string, lead: Lead, m: string)
    requires l in db.leads && m in db.leads && SameWay(db, t, l, lead)
    ensures SameLead(db, PutLead(db, l, lead), t, m)
  {
    hide Canonical, NoConflict, Linked;
  }

  lemma LeadWriteInv(db: Db, t: map<string, string>, mint: string -> string, l: string, lead: Lead)
    requires Inv(db, t, mint) && l in db.leads && SameWay(db, t, l, lead)
    ensures Inv(PutLead(db, l, lead), t, mint)
  {
    var after := PutLead(db, l, lead);
    assert LeadFits(db, t, mint, l);
    forall m | m in after.leads ensures LeadFits(after, t, mint, m) {
      assert LeadFits(db, t, mint, m);
    }
    forall m, c | PointsBack(after, c, m) ensures m in t && t[m] == c {
      assert PointsBack(db, c, m);
    }
  }

  lemma ContactWrite(db: Db, t: map<string, string>, mint: string -> string, l: string)
    requires Inv(db, t, mint) && l in db.leads && l in t
    ensures var after := PutContact(db, t[l], db.leads[l], l);
            Inv(after, t, mint) && SameFinal(db, after, t)
  {
    hide Inv, FinalContact, FinalNote;
    var after := PutContact(db, t[l], db.leads[l], l);
    ContactWriteInv(db, t, mint, l);
    forall c ensures FinalContact(db, t, c) == FinalContact(after, t, c) {
      ContactWriteContact(db, t, mint, l, c);
    }
    forall k ensures FinalNote(db, k) == FinalNote(after, k) {
      SameLeadsSameNote(db, after, k);
    }
  }

  lemma SameLeadsSameNote(db: Db, after: Db, k: (string, string))
    requires db.leads == after.leads && db.notes == after.notes
    ensures FinalNote(db, k) == FinalNote(after, k)
  {
  }

  lemma ContactWriteInv(db: Db, t: map<string, string>, mint: string -> string, l: string)
    requires Inv(db, t, mint) && l in db.leads && l in t
    ensures Inv(PutContact(db, t[l], db.leads[l], l), t, mint)
  {
    hide Canonical, NoConflict, Won, Or;
    var after := PutContact(db, t[l], db.leads[l], l);
    assert LeadFits(db, t, mint, l);
    forall m | m in after.leads ensures LeadFits(after, t, mint, m) {
      assert LeadFits(db, t, mint, m);
    }
    forall m, c | PointsBack(after, c, m) ensures m in t && t[m] == c {
      if c != t[l] {
        assert PointsBack(db, c, m);
      }
    }
  }

  lemma ContactWriteContact(db: Db, t: map<string, string>, mint: string -> string, l: string, c: string)
    requires Inv(db, t, mint) && l in db.leads && l in t
    ensures FinalContact(db, t, c) == FinalContact(PutContact(db, t[l], db.leads[l], l), t, c)
  {
    hide LeadFits, Canonical, Blank, PointsBack;
    if c == t[l] {
      assert Owner(t, c) == Some(l);
    }
  }

  lemma NoteWrite(db: Db, t: map<string, string>, mint: string -> string, l: string, lead: Lead)
    requires Inv(db, t, mint) && l in db.leads && lead.org == db.leads[l].org && lead.notes == db.leads[l].notes
    ensures Inv(PutNote(db, l, lead), t, mint) && SameFinal(db, PutNote(db, l, lead), t)
  {
    hide Inv, FinalContact, FinalNote;
    var after := PutNote(db, l, lead);
    SameInv(db, after, t, mint);
    forall c ensures FinalContact(db, t, c) == FinalContact(after, t, c) {
      SameContact(db, after, t, c);
    }
    forall k ensures FinalNote(db, k) == FinalNote(after, k) {
      NoteWriteNote(db, l, lead, k);
    }
  }

  lemma NoteWriteNote(db: Db, l: string, lead: Lead, k: (string, string))
    requires l in db.leads && lead.org == db.leads[l].org && lead.notes == db.leads[l].notes
    ensures FinalNote(db, k) == FinalNote(PutNote(db, l, lead), k)
  {
  }

  lemma SameContact(db: Db, after: Db, t: map<string, string>, c: string)
    requires db.leads == after.leads && db.contacts == after.contacts
    ensures FinalContact(db, t, c) == FinalContact(after, t, c)
  {
  }

  lemma SameInv(db: Db, after: Db, t: map<string, string>, mint: string -> string)
    requires Inv(db, t, mint) && db.leads == after.leads && db.contacts == after.contacts
    ensures Inv(after, t, mint)
  {
    hide Canonical, NoConflict, Won, Or;
    forall m | m in after.leads ensures LeadFits(after, t, mint, m) {
      assert LeadFits(db, t, mint, m);
    }
    forall m, c | PointsBack(after, c, m) ensures m in t && t[m] == c {
      assert PointsBack(db, c, m);
    }
  }

  // ---------- the writes of a run, one after the other ----------

  lemma SameFinalTransitive(a: Db, b: Db, c: Db, t: map<string, string>)
    requires SameFinal(a, b, t) && SameFinal(b, c, t)
    ensures SameFinal(a, c, t)
  {
    hide FinalLead, FinalContact, FinalNote;
    forall l | l in a.leads ensures SameLead(a, c, t, l) {
      assert SameLead(a, b, t, l) && SameLead(b, c, t, l);
    }
  }

  lemma SameFinalReflexive(a: Db, t: map<string, string>)
    ensures SameFinal(a, a, t)
  {
  }

  /** The open lead whose only link is the one reopening removes, to a contact that does not yet name its source:
      stopped right after the lead is written, the contact is lost to the next run. */
  predicate Offends(db: Db, l: string) {
    l in db.leads &&
    var lead := db.leads[l];
    !Won(lead) && lead.contact.None? && lead.convertedContact.Some? &&
    lead.convertedContact.value in db.contacts && db.contacts[lead.convertedContact.value].source != Some(l)
  }

  lemma StatusStep(db: Db, t: map<string, string>, mint: string -> string, l: string)
    requires Inv(db, t, mint) && l in db.leads
    ensures Inv(SetStatus(db, l), t, mint) && SameFinal(db, SetStatus(db, l), t)
  {
    assert LeadFits(db, t, mint, l);
    hide Inv, SameFinal;
    LeadWrite(db, t, mint, l, db.leads[l].(status := Some(Canonical(db.leads[l].status))));
  }

  lemma ConvertedSameWay(db: Db, t: map<string, string>, mint: string -> string, l: string)
    requires l in db.leads && LeadFits(db, t, mint, l) && l in t && t[l] in db.contacts && Won(db.leads[l])
    ensures SameWay(db, t, l, Converted(db.leads[l], t[l]))
  {
  }

  lemma ReopenedSameWay(db: Db, t: map<string, string>, mint: string -> string, l: string)
    requires l in db.leads && LeadFits(db, t, mint, l) && !Won(db.leads[l]) && !Offends(db, l)
    ensures SameWay(db, t, l, Reopened(db.leads[l]))
  {
  }

  lemma FitsOf(db: Db, t: map<string, string>, mint: string -> string, l: string)
    requires Inv(db, t, mint) && l in db.leads
    ensures LeadFits(db, t, mint, l)
  {
  }

  /** The first two writes for a won lead, in their order. */
  lemma WonSteps(db: Db, t: map<string, string>, mint: string -> string, l: string, k: nat)
    requires Inv(db, t, mint) && l in db.leads && Won(db.leads[l]) && k <= 2
    ensures Inv(LeadWrites(db, l, k, mint), t, mint) && SameFinal(db, LeadWrites(db, l, k, mint), t)
  {
    hide Inv, SameFinal, SameWay, Converted, Won, Patched, Blank;
    ContactFound(db, t, mint, l);
    FitsOf(db, t, mint, l);
    var lead := db.leads[l];
    SameFinalReflexive(db, t);
    var one := PutContact(db, t[l], lead, l);
    ContactWrite(db, t, mint, l);
    if k == 2 {
      FitsOf(one, t, mint, l);
      ConvertedSameWay(one, t, mint, l);
      LeadWrite(one, t, mint, l, Converted(lead, t[l]));
      SameFinalTransitive(db, one, PutLead(one, l, Converted(lead, t[l])), t);
    }
  }

  /** Reopening a lead whose contact has been written.  The order of the two does not show once both are done. */
  lemma OpenBoth(db: Db, t: map<string, string>, mint: string -> string, l: string)
    requires Inv(db, t, mint) && l in db.leads && !Won(db.leads[l])
    ensures Inv(LeadWrites(db, l, 2, mint), t, mint) && SameFinal(db, LeadWrites(db, l, 2, mint), t)
  {
    hide Inv, SameFinal, SameWay, Reopened, Won, Patched, Blank;
    ContactFound(db, t, mint, l);
    FitsOf(db, t, mint, l);
    var lead := db.leads[l];
    if l in t {
      var one := PutContact(db, t[l], lead, l);
      ContactWrite(db, t, mint, l);
      FitsOf(one, t, mint, l);
      NoOffence(db, l, t[l]);
      LinkIs(db, t, mint, l);
      ReopenedSameWay(one, t, mint, l);
      LeadWrite(one, t, mint, l, Reopened(lead));
      SameFinalTransitive(db, one, PutLead(one, l, Reopened(lead)), t);
      assert PutLead(one, l, Reopened(lead)) == PutContact(PutLead(db, l, Reopened(lead)), t[l], lead, l);
    } else {
      LinkIs(db, t, mint, l);
      ReopenedSameWay(db, t, mint, l);
      LeadWrite(db, t, mint, l, Reopened(lead));
    }
  }

  lemma LinkIs(db: Db, t: map<string, string>, mint: string -> string, l: string)
    requires l in db.leads && LeadFits(db, t, mint, l) && !Won(db.leads[l])
    ensures Linked(db.leads[l]).Some? ==> l in t && t[l] == Linked(db.leads[l]).value
    ensures l !in t ==> !Offends(db, l)
    ensures l in t ==> t[l] in db.contacts
    ensures l in t && db.leads[l].convertedContact.Some? ==> db.leads[l].convertedContact.value == t[l]
    ensures l in t && Offends(db, l) ==> db.contacts[t[l]].source == None
  {
  }

  lemma NoOffence(db: Db, l: string, c: string)
    requires l in db.leads
    ensures db.leads[l].convertedContact == Some(c) || db.leads[l].convertedContact == None ==>
              !Offends(PutContact(db, c, db.leads[l], l), l)
  {
  }

  /** All writes for a lead keep the final documents; so does the first alone, except for an offending lead. */
  lemma LeadSteps(db: Db, t: map<string, string>, mint: string -> string, l: string, k: nat)
    requires Inv(db, t, mint) && l in db.leads && k <= 3 && (k == 1 ==> !Offends(db, l))
    ensures Inv(LeadWrites(db, l, k, mint), t, mint) && SameFinal(db, LeadWrites(db, l, k, mint), t)
  {
    var lead := db.leads[l];
    if k == 1 && !Won(lead) {
      FitsOf(db, t, mint, l);
      ReopenedSameWay(db, t, mint, l);
      hide Inv, SameFinal, SameWay;
      LeadWrite(db, t, mint, l, Reopened(lead));
    } else {
      hide Inv, SameFinal, SameWay, FinalLead, FinalContact, FinalNote, LeadFits, Offends;
      SameFinalReflexive(db, t);
      if Won(lead) {
        WonSteps(db, t, mint, l, if k <= 2 then k else 2);
      } else {
        OpenBoth(db, t, mint, l);
      }
      if k == 3 {
        var both := LeadWrites(db, l, 2, mint);
        BothKeepsNotes(db, l, mint);
        NoteWrite(both, t, mint, l, lead);
        SameFinalTransitive(db, both, PutNote(both, l, lead), t);
      }
    }
  }

  lemma BothKeepsNotes(db: Db, l: string, mint: string -> string)
    requires l in db.leads
    ensures var both := LeadWrites(db, l, 2, mint);
            l in both.leads && both.leads[l].org == db.leads[l].org && both.leads[l].notes == db.leads[l].notes
  {
  }
}
