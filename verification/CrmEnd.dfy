/** What the migration leaves, document by document, in terms of the documents it started from. */
module CrmEnd {
  import opened Wrappers
  import opened CrmMigration
  import opened CrmResume
  import opened CrmRuns
  import opened CrmOutcome

  // ---------- the description ----------

  predicate IsWon(lead: Lead) {
    lead.status == Some("Won")
  }

  /** The lead is linked to the contact or, linked to none, named by it within its tenant. */
  ghost predicate Belongs(db: Db, c: string, l: string) {
    l in db.leads && c in db.contacts &&
    var lead, contact := db.leads[l], db.contacts[c];
    if lead.convertedContact.Some? then lead.convertedContact == Some(c)
    else if lead.contact.Some? then lead.contact == Some(c)
    else contact.org == lead.org && contact.source == Some(l)
  }

  ghost predicate HasContact(db: Db, l: string) {
    exists c :: Belongs(db, c, l)
  }

  /** A missing status becomes "New", the old "Qualified" becomes "Interested", another one stays. */
  predicate Renamed(status: Option<string>, after: Option<string>) {
    && (status == None || status == Some("") ==> after == Some("New"))
    && (status == Some("Qualified") ==> after == Some("Interested"))
    && (status.Some? && status.value !in {"", "Qualified"} ==> after == status)
  }

  /** Everything but status, conversion and follow-up stays; the follow-up is filled in; a won lead is converted to its
      contact, or to a new one, and an open lead is not converted. */
  ghost predicate LeadEnds(db: Db, end: Db, mint: string -> string, l: string) {
    l in db.leads && l in end.leads &&
    var lead, after := db.leads[l], end.leads[l];
    && after.org == lead.org && after.name == lead.name && after.phone == lead.phone && after.agent == lead.agent
    && after.notes == lead.notes && after.contact == lead.contact && after.nextFollowUp == lead.nextFollowUp
    && after.followUp == (if lead.followUp.Some? then lead.followUp else lead.nextFollowUp)
    && Renamed(lead.status, after.status)
    && (after.isConverted <==> IsWon(lead))
    && (!IsWon(lead) ==> after.convertedContact == None)
    && (IsWon(lead) ==>
      after.convertedContact.Some? &&
      if HasContact(db, l) then Belongs(db, after.convertedContact.value, l)
      else after.convertedContact.value == mint(l))
  }

  /** What a contact of a lead is after: as it was, named by the lead and active or a legacy one, with assignee and
      follow-up of the lead where it had none. */
  predicate ContactOfLead(contact: Contact, after: Contact, lead: Lead, l: string) {
    && after.org == contact.org && after.name == contact.name && after.phone == contact.phone
    && after.source == Some(l) && after.state == (if IsWon(lead) then Active else LegacyPreconversion)
    && after.owner == (if contact.owner.Some? then contact.owner else lead.agent)
    && after.followUp == (if contact.followUp.Some? then contact.followUp
                          else if lead.followUp.Some? then lead.followUp else lead.nextFollowUp)
  }

  /** What a contact of no lead is after: as it was, but active if it had neither source nor state. */
  predicate ContactOfNone(contact: Contact, after: Contact) {
    after == contact.(state := if contact.source == None && contact.state == Unset then Active else contact.state)
  }

  ghost predicate ContactEnds(db: Db, end: Db, c: string) {
    c in db.contacts && c in end.contacts &&
    (forall l :: Belongs(db, c, l) ==> ContactOfLead(db.contacts[c], end.contacts[c], db.leads[l], l)) &&
    ((forall l :: !Belongs(db, c, l)) ==> ContactOfNone(db.contacts[c], end.contacts[c]))
  }

  /** A contact made by the run: for a won lead without one, with its tenant, name, phone, agent and date. */
  ghost predicate MadeFor(db: Db, end: Db, mint: string -> string, c: string, l: string) {
    l in db.leads && c in end.contacts && IsWon(db.leads[l]) && !HasContact(db, l) && c == mint(l) &&
    var lead, after := db.leads[l], end.contacts[c];
    && after.org == lead.org && after.name == lead.name && after.phone == lead.phone && after.source == Some(l)
    && after.state == Active && after.owner == lead.agent
    && after.followUp == (if lead.followUp.Some? then lead.followUp else lead.nextFollowUp)
  }

  /** The notes of a lead are projected; other projected notes stay. */
  predicate NoteEnds(db: Db, end: Db, k: (string, string)) {
    if k.1 in db.leads && db.leads[k.1].org == k.0 && db.leads[k.1].notes != "" then
      k in end.notes && end.notes[k] == db.leads[k.1].notes
    else (k in end.notes <==> k in db.notes) && (k in db.notes ==> end.notes[k] == db.notes[k])
  }

  // ---------- when a run writes, and when it completes ----------

  predicate LinksTo(lead: Lead, c: string) {
    if lead.convertedContact.Some? then lead.convertedContact == Some(c) else lead.contact == Some(c)
  }

  ghost predicate StatusesKnown(db: Db) {
    forall l :: l in db.leads && db.leads[l].status.Some? ==> db.leads[l].status.value in {"", "Qualified"} + STATUSES
  }

  /** Links lead to a contact of the lead's tenant which names no other lead. */
  ghost predicate LinksSound(db: Db) {
    forall l, c :: l in db.leads && LinksTo(db.leads[l], c) ==>
      c in db.contacts && db.contacts[c].org == db.leads[l].org && db.contacts[c].source in {None, Some(l)}
  }

  ghost predicate LinksUnshared(db: Db) {
    forall l, m, c :: l in db.leads && m in db.leads && LinksTo(db.leads[l], c) && LinksTo(db.leads[m], c) ==> l == m
  }

  ghost predicate LinksSingle(db: Db) {
    forall l :: l in db.leads && db.leads[l].contact.Some? && db.leads[l].convertedContact.Some? ==>
      db.leads[l].contact == db.leads[l].convertedContact
  }

  lemma LinkRead(lead: Lead)
    ensures forall c :: LinksTo(lead, c) <==> Linked(lead) == Some(c)
  {
  }

  lemma StatusRead(lead: Lead)
    ensures Canonical(lead.status) in STATUSES <==>
            (lead.status.Some? ==> lead.status.value in {"", "Qualified"} + STATUSES)
  {
    assert "New" in STATUSES && "Interested" in STATUSES;
    assert "Qualified" !in STATUSES && "" !in STATUSES;
  }

  lemma StatusesRead(db: Db)
    ensures KnownStatuses(db) <==> StatusesKnown(db)
  {
    forall l | l in db.leads
      ensures Canonical(db.leads[l].status) in STATUSES <==>
              (db.leads[l].status.Some? ==> db.leads[l].status.value in {"", "Qualified"} + STATUSES)
    {
      StatusRead(db.leads[l]);
    }
    hide Canonical, STATUSES;
  }

  lemma ReferenceRead(db: Db, l: string)
    requires l in db.leads
    ensures ValidReference(db, l) <==>
            forall c :: LinksTo(db.leads[l], c) ==>
              c in db.contacts && db.contacts[c].org == db.leads[l].org && db.contacts[c].source in {None, Some(l)}
  {
    LinkRead(db.leads[l]);
    hide LinksTo, Linked;
  }

  lemma LinksRead(db: Db)
    ensures (forall l :: l in db.leads ==> ValidReference(db, l)) <==> LinksSound(db)
  {
    hide ValidReference, LinksTo;
    forall l | l in db.leads
      ensures ValidReference(db, l) <==>
              forall c :: LinksTo(db.leads[l], c) ==>
                c in db.contacts && db.contacts[c].org == db.leads[l].org && db.contacts[c].source in {None, Some(l)}
    {
      ReferenceRead(db, l);
    }
  }

  lemma SharedPair(db: Db, l: string, m: string, c: string)
    requires LinksSound(db) && l in db.leads && m in db.leads && LinksTo(db.leads[l], c) && LinksTo(db.leads[m], c)
    ensures SameLink(db.leads[l], db.leads[m]) && db.leads[l].org == db.leads[m].org
  {
    assert db.contacts[c].org == db.leads[l].org && db.contacts[c].org == db.leads[m].org by {
      hide LinksTo;
    }
    hide LinksSound;
  }

  lemma SharedContact(a: Lead, b: Lead) returns (c: string)
    requires SameLink(a, b)
    ensures LinksTo(a, c) && LinksTo(b, c)
  {
    c := Linked(a).value;
  }

  /** Sound links to one contact come from one tenant, so the tenant need not be asked for. */
  lemma SharedRead(db: Db)
    requires LinksSound(db)
    ensures Unambiguous(db) <==> LinksUnshared(db)
  {
    hide LinksTo, Linked, SameLink, LinksSound;
    forall l, m, c | l in db.leads && m in db.leads && LinksTo(db.leads[l], c) && LinksTo(db.leads[m], c)
      ensures SameLink(db.leads[l], db.leads[m]) && db.leads[l].org == db.leads[m].org
    {
      SharedPair(db, l, m, c);
    }
    forall l, m | l in db.leads && m in db.leads && SameLink(db.leads[l], db.leads[m])
      ensures exists c :: LinksTo(db.leads[l], c) && LinksTo(db.leads[m], c)
    {
      var c := SharedContact(db.leads[l], db.leads[m]);
    }
  }

  /** The preflight lets a run write exactly when every status is known, every link is sound, no contact is linked by
      two leads and no lead has two different links. */
  lemma PreflightIff(db: Db)
    ensures Preflight(db) <==> StatusesKnown(db) && LinksSound(db) && LinksUnshared(db) && LinksSingle(db)
  {
    hide ValidReference, KnownStatuses, StatusesKnown, LinksSound, LinksUnshared, Unambiguous;
    StatusesRead(db);
    LinksRead(db);
    if LinksSound(db) {
      SharedRead(db);
    }
    assert LinksSingle(db) <==> forall l :: l in db.leads ==> NoConflict(db.leads[l]);
  }

  /** The run stops at a lead exactly when it is won and has neither a contact nor a name and phone to make one from. */
  lemma StopsAtIff(db: Db, l: string)
    requires Preflight(db)
    ensures Unconvertible(db, l) <==>
            l in db.leads && IsWon(db.leads[l]) && !HasContact(db, l) &&
            (db.leads[l].name == None || db.leads[l].phone == None)
  {
    if l in db.leads {
      WonIs(db.leads[l]);
      assert ValidReference(db, l);
      var contact := ContactOf(db, l);
      if contact.Some? {
        assert Belongs(db, contact.value, l);
      }
      hide Won, IsWon, ContactOf;
      forall c | Belongs(db, c, l) ensures contact.Some? {
        if Linked(db.leads[l]).None? {
          assert PointsBack(db, c, l);
        } else {
          LinkedContact(db, l);
        }
      }
    }
  }

  lemma LinkedContact(db: Db, l: string)
    requires l in db.leads && Linked(db.leads[l]).Some?
    ensures ContactOf(db, l) == Linked(db.leads[l])
  {
  }

  // ---------- the end of a run fits it ----------

  lemma WonIs(lead: Lead)
    ensures Won(lead) <==> IsWon(lead)
    ensures Renamed(lead.status, Some(Canonical(lead.status)))
  {
  }

  /** The contact the run chooses for a lead is one that belongs to it. */
  lemma ContactBelongs(db: Db, mint: string -> string, l: string)
    requires Sound(db, mint) && l in db.leads
    ensures ContactOf(db, l).Some? <==> HasContact(db, l)
    ensures ContactOf(db, l).Some? ==> Belongs(db, ContactOf(db, l).value, l)
    ensures forall c :: Belongs(db, c, l) ==> ContactOf(db, l) == Some(c)
  {
    assert ValidReference(db, l);
    hide Unambiguous, KnownStatuses, NoConflict, Fresh;
    if Linked(db.leads[l]).None? {
      forall c ensures Belongs(db, c, l) <==> PointsBack(db, c, l) {
      }
      assert ContactOf(db, l).Some? ==> Belongs(db, ContactOf(db, l).value, l);
    } else {
      assert Belongs(db, Linked(db.leads[l]).value, l);
    }
  }

  lemma TargetsAre(db: Db, mint: string -> string, l: string)
    requires Sound(db, mint) && l in db.leads
    ensures var t := Targets(db, mint);
            && (l in t <==> HasContact(db, l) || IsWon(db.leads[l]))
            && (l in t && HasContact(db, l) ==> Belongs(db, t[l], l))
            && (l in t && !HasContact(db, l) ==> t[l] == mint(l) && mint(l) !in db.contacts)
            && (forall c :: Belongs(db, c, l) ==> l in t && t[l] == c)
  {
    ContactBelongs(db, mint, l);
    WonIs(db.leads[l]);
    hide Belongs, HasContact, ContactOf, Won, Preflight, SinglySourced;
  }

  lemma LeadFinal(db: Db, end: Db, t: map<string, string>, l: string)
    requires Settled(end, t) && SameFinal(db, end, t) && l in db.leads
    ensures l in end.leads && end.leads[l] == FinalLead(db.leads[l], t, l)
  {
    hide FinalLead, FinalContact, FinalNote;
    assert SameLead(db, end, t, l) && LeadSettled(end, t, l);
  }

  lemma LeadFits(db: Db, end: Db, mint: string -> string, l: string)
    requires Sound(db, mint) && l in db.leads
    requires Settled(end, Targets(db, mint)) && SameFinal(db, end, Targets(db, mint))
    ensures LeadEnds(db, end, mint, l)
  {
    LeadFinal(db, end, Targets(db, mint), l);
    TargetsAre(db, mint, l);
    WonIs(db.leads[l]);
    hide Sound, Settled, SameFinal, Targets, Belongs, HasContact, Won, Renamed;
  }

  lemma ContactFinal(db: Db, end: Db, t: map<string, string>, mint: string -> string, c: string)
    requires Inv(end, t, mint) && Settled(end, t) && SameFinal(db, end, t)
    ensures FinalContact(db, t, c) == if c in end.contacts then Some(end.contacts[c]) else None
  {
    SettledContact(end, t, mint, c);
    hide FinalContact, Inv, Settled;
  }

  lemma OwnerIs(db: Db, t: map<string, string>, mint: string -> string, c: string, l: string)
    requires Inv(db, t, mint) && l in t && t[l] == c
    ensures Owner(t, c) == Some(l)
  {
    hide CrmResume.LeadFits, PointsBack;
  }

  /** The contact of a lead, or made for one. */
  lemma OwnedContact(db: Db, end: Db, mint: string -> string, c: string, l: string)
    requires Sound(db, mint) && Inv(end, Targets(db, mint), mint)
    requires Settled(end, Targets(db, mint)) && SameFinal(db, end, Targets(db, mint))
    requires l in db.leads && l in Targets(db, mint) && Targets(db, mint)[l] == c
    ensures c in end.contacts
    ensures c in db.contacts ==> ContactOfLead(db.contacts[c], end.contacts[c], db.leads[l], l)
    ensures c !in db.contacts ==> MadeFor(db, end, mint, c, l)
  {
    var t := Targets(db, mint);
    SoundInv(db, mint);
    OwnerIs(db, t, mint, c, l);
    ContactFinal(db, end, t, mint, c);
    TargetsAre(db, mint, l);
    WonIs(db.leads[l]);
    assert Belongs(db, c, l) ==> c in db.contacts;
    hide Sound, Settled, SameFinal, Targets, Inv, Belongs, HasContact, Won, Owner;
  }

  lemma UnownedContact(db: Db, end: Db, mint: string -> string, c: string)
    requires Sound(db, mint) && Inv(end, Targets(db, mint), mint)
    requires Settled(end, Targets(db, mint)) && SameFinal(db, end, Targets(db, mint))
    requires forall l :: l in Targets(db, mint) ==> Targets(db, mint)[l] != c
    ensures c in end.contacts <==> c in db.contacts
    ensures c in db.contacts ==> ContactOfNone(db.contacts[c], end.contacts[c])
  {
    ContactFinal(db, end, Targets(db, mint), mint, c);
    hide Sound, Settled, SameFinal, Targets, Inv;
  }

  lemma ContactFits(db: Db, end: Db, mint: string -> string, c: string)
    requires Sound(db, mint) && Inv(end, Targets(db, mint), mint)
    requires Settled(end, Targets(db, mint)) && SameFinal(db, end, Targets(db, mint))
    ensures c in db.contacts ==> ContactEnds(db, end, c)
    ensures c in end.contacts && c !in db.contacts ==> exists l :: MadeFor(db, end, mint, c, l)
  {
    var t := Targets(db, mint);
    hide Sound, Settled, SameFinal, Inv, ContactOfLead, ContactOfNone, MadeFor, Belongs;
    if l :| l in t && t[l] == c {
      OwnedContact(db, end, mint, c, l);
      TargetsAre(db, mint, l);
      forall m | m in db.leads && c in db.contacts && Belongs(db, c, m)
        ensures ContactOfLead(db.contacts[c], end.contacts[c], db.leads[m], m) {
        TargetsAre(db, mint, m);
        OwnedContact(db, end, mint, c, m);
      }
      OwnedBelongs(db, mint, c, l);
      forall m | m !in db.leads ensures !Belongs(db, c, m) {
        BelongsNot(db, c, m);
      }
    } else {
      UnownedContact(db, end, mint, c);
      forall m ensures !Belongs(db, c, m) {
        if m in db.leads {
          TargetsAre(db, mint, m);
        } else {
          BelongsNot(db, c, m);
        }
      }
    }
  }

  lemma BelongsNot(db: Db, c: string, l: string)
    requires l !in db.leads
    ensures !Belongs(db, c, l)
  {
  }

  lemma OwnedBelongs(db: Db, mint: string -> string, c: string, l: string)
    requires Sound(db, mint) && l in Targets(db, mint) && Targets(db, mint)[l] == c
    ensures l in db.leads && (c in db.contacts ==> Belongs(db, c, l))
  {
    TargetsAre(db, mint, l);
    hide Sound, Belongs, HasContact;
  }

  lemma NoteFits(db: Db, end: Db, t: map<string, string>, k: (string, string))
    requires Settled(end, t) && SameFinal(db, end, t)
    ensures NoteEnds(db, end, k)
  {
    SettledAll(end, t);
    SettledNote(end, t, k);
    assert FinalNote(db, k) == FinalNote(end, k);
    hide Settled, SameFinal;
  }

  /** What a run ends with, read off the documents it starts from. */
  lemma RunEnds(db: Db, order: seq<string>, people: seq<string>, mint: string -> string)
    requires Sound(db, mint) && AllConvertible(db) && Covers(order, db) && Lists(people, db)
    ensures var end := RunAll(db, order, people, mint);
            && end.leads.Keys == db.leads.Keys
            && (forall l :: l in db.leads ==> LeadEnds(db, end, mint, l))
            && (forall c :: c in db.contacts ==> ContactEnds(db, end, c))
            && (forall c :: c in end.contacts && c !in db.contacts ==> exists l :: MadeFor(db, end, mint, c, l))
            && (forall l :: l in db.leads && IsWon(db.leads[l]) && !HasContact(db, l) ==>
              MadeFor(db, end, mint, mint(l), l))
            && (forall k :: NoteEnds(db, end, k))
  {
    var t, end := Targets(db, mint), RunAll(db, order, people, mint);
    SoundInv(db, mint);
    RunReaches(db, t, order, people, mint);
    assert end.leads.Keys == db.leads.Keys;
    hide Sound, Settled, SameFinal, Inv, RunAll, Targets, LeadEnds, ContactEnds, MadeFor, NoteEnds, HasContact, IsWon;
    forall l | l in db.leads ensures LeadEnds(db, end, mint, l) {
      LeadFits(db, end, mint, l);
    }
    forall c ensures c in db.contacts ==> ContactEnds(db, end, c)
             ensures c in end.contacts && c !in db.contacts ==> exists l :: MadeFor(db, end, mint, c, l) {
      ContactFits(db, end, mint, c);
    }
    forall l | l in db.leads && IsWon(db.leads[l]) && !HasContact(db, l) ensures MadeFor(db, end, mint, mint(l), l) {
      TargetsAre(db, mint, l);
      OwnedContact(db, end, mint, mint(l), l);
    }
    forall k ensures NoteEnds(db, end, k) {
      NoteFits(db, end, t, k);
    }
  }
}
