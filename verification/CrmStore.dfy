/** The migration as it is carried out, one document at a time. */
module CrmStore {
  import opened Wrappers
  import opened CrmMigration
  import opened CrmResume
  import opened CrmRuns
  import opened CrmOutcome

  /** Done, refused by the preflight, or stopped at a won lead with no contact and no name or phone to make one. */
  datatype Outcome = Done | Refused | Stuck(lead: string)

  datatype Lookup = Found(contact: string) | NoContact | Missing | Foreign | Taken

  class Store {
    var leads: map<string, Lead>
    var contacts: map<string, Contact>
    var notes: map<(string, string), string>

    function Snapshot(): Db
      reads this
    {
      Db(leads, contacts, notes)
    }

    constructor (leads: map<string, Lead>, contacts: map<string, Contact>, notes: map<(string, string), string>)
      ensures Snapshot() == Db(leads, contacts, notes)
    {
      this.leads, this.contacts, this.notes := leads, contacts, notes;
    }

    /** The contact of a lead: the linked one, checked, else one that names the lead as its source. */
    method FindContact(l: string) returns (r: Lookup)
      requires l in leads
      ensures Linked(leads[l]).Some? ==> (r.Found? || r.Taken? || r.Foreign? || r.Missing?)
      ensures Linked(leads[l]).Some? ==> (r == Found(Linked(leads[l]).value) <==> ValidReference(Snapshot(), l))
      ensures Linked(leads[l]).Some? ==>
                var c := Linked(leads[l]).value;
                && (r.Missing? <==> c !in contacts)
                && (r.Foreign? <==> c in contacts && contacts[c].org != leads[l].org)
                && (r.Taken? <==> c in contacts && contacts[c].org == leads[l].org &&
                                  contacts[c].source.Some? && contacts[c].source.value != l)
      ensures Linked(leads[l]).None? ==> r.Found? || r.NoContact?
      ensures Linked(leads[l]).None? && r.Found? ==> PointsBack(Snapshot(), r.contact, l)
      ensures Linked(leads[l]).None? && r.NoContact? ==> forall c :: !PointsBack(Snapshot(), c, l)
    {
      var link := Linked(leads[l]);
      if link.Some? {
        var c := link.value;
        if c !in contacts {
          return Missing;
        } else if contacts[c].org != leads[l].org {
          return Foreign;
        } else if contacts[c].source.Some? && contacts[c].source != Some(l) {
          return Taken;
        }
        return Found(c);
      }
      if exists c :: c in contacts && contacts[c].org == leads[l].org && contacts[c].source == Some(l) {
        var c :| c in contacts && contacts[c].org == leads[l].org && contacts[c].source == Some(l);
        return Found(c);
      }
      return NoContact;
    }

    /** One lead: its contact, the lead itself and its note; false when it cannot be converted. */
    method ProcessLead(l: string, mint: string -> string, ghost t: map<string, string>) returns (ok: bool)
      requires Inv(Snapshot(), t, mint) && l in leads
      modifies this
      ensures ok <==> !Unconvertible(old(Snapshot()), l)
      ensures ok ==> Snapshot() == LeadWrites(old(Snapshot()), l, 3, mint)
      ensures !ok ==> Snapshot() == old(Snapshot())
    {
      var r := FindContact(l);
      LookupIs(Snapshot(), t, mint, l, r);
      hide Inv, PointsBack, ContactOf, Patched, Blank, Converted, Reopened, Won, Linked, ValidReference;
      var lead := leads[l];
      if Won(lead) {
        var c := mint(l);
        if r.NoContact? {
          if lead.name.None? || lead.phone.None? {
            return false;
          }
          contacts := contacts[c := Patched(Blank(lead), lead, l)];
        } else {
          c := r.contact;
          contacts := contacts[c := Patched(contacts[c], lead, l)];
        }
        leads := leads[l := Converted(lead, c)];
      } else {
        leads := leads[l := Reopened(lead)];
        if r.Found? {
          contacts := contacts[r.contact := Patched(contacts[r.contact], lead, l)];
        }
      }
      if lead.notes != "" {
        notes := notes[(lead.org, l) := lead.notes];
      }
      ok := true;
    }

    /** The two updates of unset and renamed statuses. */
    method SetStatuses(order: seq<string>)
      requires Covers(order, Snapshot())
      modifies `leads
      ensures Snapshot() == Statuses(old(Snapshot()), order, |order|)
    {
      hide Covers, Statuses, Canonical, SetStatus;
      var n := 0;
      StatusesStep(Snapshot(), order, 0);
      while n < |order|
        invariant 0 <= n <= |order|
        invariant Snapshot() == Statuses(old(Snapshot()), order, n)
      {
        StatusesStep(old(Snapshot()), order, n + 1);
        var l := order[n];
        StatusWritten(Snapshot(), l);
        var status := leads[l].status;
        if status.None? || status.value == "" || status.value == "Qualified" {
          leads := leads[l := leads[l].(status := Some(Canonical(status)))];
        }
        n := n + 1;
      }
    }

    /** Contacts with neither a source nor a state become active. */
    method SetManuals(people: seq<string>)
      modifies `contacts
      ensures Snapshot() == Manuals(old(Snapshot()), people, |people|)
    {
      var n := 0;
      while n < |people|
        invariant 0 <= n <= |people|
        invariant Snapshot() == Manuals(old(Snapshot()), people, n)
      {
        var c := people[n];
        if c in contacts {
          if contacts[c].source == None && contacts[c].state == Unset {
            contacts := contacts[c := contacts[c].(state := Active)];
          } else {
            assert contacts[c := Manual(contacts[c])] == contacts;
          }
        }
        n := n + 1;
      }
    }

    /** The migration: refused before any write, or completed, or stopped at a won lead that cannot be converted. */
    method Run(order: seq<string>, people: seq<string>, mint: string -> string) returns (outcome: Outcome)
      requires Covers(order, Snapshot()) && NoRepeats(order)
      requires SinglySourced(Snapshot()) && Fresh(Snapshot(), mint)
      modifies this
      ensures outcome == Refused <==> !Preflight(old(Snapshot()))
      ensures outcome == Refused ==> Snapshot() == old(Snapshot())
      ensures outcome == Done <==> Preflight(old(Snapshot())) && AllConvertible(old(Snapshot()))
      ensures outcome == Done ==> Snapshot() == RunAll(old(Snapshot()), order, people, mint)
      ensures outcome.Stuck? ==> Unconvertible(old(Snapshot()), outcome.lead)
    {
      hide *;
      if !Preflight(Snapshot()) {
        return Refused;
      }
      ghost var was, t := Snapshot(), Targets(Snapshot(), mint);
      SoundFrom(was, mint);
      SoundInv(was, mint);
      SetStatuses(order);
      ghost var one := Snapshot();
      StatusesKeep(was, t, order, |order|, mint);
      StatusesCovered(was, order);
      NoLeads(one, order, mint);
      var n := 0;
      while n < |order|
        invariant 0 <= n <= |order|
        invariant Snapshot() == Leads(one, order, n, mint)
        invariant forall i :: 0 <= i < n ==> !Unconvertible(was, order[i])
      {
        LeadsKeep(one, t, order, n, mint);
        LeadsStep(one, order, n + 1, mint);
        SnapshotLeads();
        StuckStays(was, one, t, order, n, mint);
        var ok := ProcessLead(order[n], mint, t);
        if !ok {
          StuckIs(was, order[n]);
          return Stuck(order[n]);
        }
        n := n + 1;
      }
      SetManuals(people);
      RunStages(was, order, people, mint);
      NoneStuck(was, order);
      outcome := Done;
    }

    lemma SnapshotLeads()
      ensures Snapshot() == Db(leads, contacts, notes)
    {
    }
  }

  lemma StatusWritten(db: Db, l: string)
    requires l in db.leads
    ensures var status := db.leads[l].status;
            SetStatus(db, l) == if status.None? || status.value == "" || status.value == "Qualified" then
              Db(db.leads[l := db.leads[l].(status := Some(Canonical(status)))], db.contacts, db.notes)
            else db
  {
    assert db.leads[l := db.leads[l]] == db.leads;
  }

  lemma SoundFrom(db: Db, mint: string -> string)
    requires Preflight(db) && SinglySourced(db) && Fresh(db, mint)
    ensures Sound(db, mint)
  {
  }

  lemma StuckIs(db: Db, l: string)
    requires Unconvertible(db, l)
    ensures !AllConvertible(db)
  {
  }

  lemma NoneStuck(db: Db, order: seq<string>)
    requires Covers(order, db) && forall i :: 0 <= i < |order| ==> !Unconvertible(db, order[i])
    ensures AllConvertible(db)
  {
    forall l ensures !Unconvertible(db, l) {
      if l in db.leads {
        var i := IndexOf(order, db, l);
        assert !Unconvertible(db, order[i]);
      }
    }
  }

  /** Whether a lead can be converted does not change before its turn. */
  lemma StuckStays(was: Db, one: Db, t: map<string, string>, order: seq<string>, n: nat, mint: string -> string)
    requires Inv(was, t, mint) && Covers(order, was) && n < |order| && NoRepeats(order)
    requires one == Statuses(was, order, |order|) && Inv(one, t, mint) && Covers(order, one)
    ensures Unconvertible(Leads(one, order, n, mint), order[n]) <==> Unconvertible(was, order[n])
  {
    hide *;
    FirstTime(order, n);
    CoversAt(order, one, n);
    StuckBeforeLeads(was, t, order, |order|, order[n], mint);
    StuckBefore(one, t, order, n, mint, order[n]);
  }

  lemma {:induction false} StuckBeforeLeads(
    db: Db, t: map<string, string>, order: seq<string>, n: nat, l: string, mint: string -> string)
    requires Inv(db, t, mint) && Covers(order, db) && n <= |order|
    ensures Unconvertible(Statuses(db, order, n), l) <==> Unconvertible(db, l)
  {
    hide *;
    StatusesStep(db, order, n);
    if n > 0 {
      StatusesKeep(db, t, order, n - 1, mint);
      StatusesKeep(db, t, order, n, mint);
      StuckBeforeLeads(db, t, order, n - 1, l, mint);
      StuckStatus(Statuses(db, order, n - 1), t, order[n - 1], l, mint);
    }
  }

  lemma StuckStatus(db: Db, t: map<string, string>, m: string, l: string, mint: string -> string)
    requires m in db.leads && Inv(db, t, mint) && Inv(SetStatus(db, m), t, mint)
    ensures Unconvertible(SetStatus(db, m), l) <==> Unconvertible(db, l)
  {
    hide Inv, ContactOf;
    if l in db.leads {
      ContactFound(db, t, mint, l);
      ContactFound(SetStatus(db, m), t, mint, l);
    }
  }

  lemma {:induction false} StuckBefore(
    db: Db, t: map<string, string>, order: seq<string>, n: nat, mint: string -> string, l: string)
    requires Inv(db, t, mint) && Covers(order, db) && n <= |order| && l in db.leads && l !in order[..n]
    ensures Unconvertible(Leads(db, order, n, mint), l) <==> Unconvertible(db, l)
  {
    hide *;
    if n > 0 {
      assert order[..n] == order[..n - 1] + [order[n - 1]];
      StuckBefore(db, t, order, n - 1, mint, l);
      LeadsKeep(db, t, order, n - 1, mint);
      LeadsStep(db, order, n, mint);
      StuckStep(Leads(db, order, n - 1, mint), t, mint, order[n - 1], l);
    } else {
      NoLeads(db, order, mint);
    }
  }

  lemma StuckStep(db: Db, t: map<string, string>, mint: string -> string, m: string, l: string)
    requires Inv(db, t, mint) && m in db.leads && l in db.leads && l != m
    ensures Unconvertible(LeadWrites(db, m, 3, mint), l) <==> Unconvertible(db, l)
  {
    OthersUntouched(db, t, mint, m, l);
    LeadSteps(db, t, mint, m, 3);
    ContactFound(db, t, mint, l);
    ContactFound(LeadWrites(db, m, 3, mint), t, mint, l);
    hide Inv, LeadWrites, ContactOf;
  }

  /** The checks of a lookup repeat the preflight, so they find nothing; a source is named by one contact only. */
  lemma LookupIs(db: Db, t: map<string, string>, mint: string -> string, l: string, r: Lookup)
    requires Inv(db, t, mint) && l in db.leads
    requires Linked(db.leads[l]).Some? ==> (r == Found(Linked(db.leads[l]).value) <==> ValidReference(db, l))
    requires Linked(db.leads[l]).None? ==> r.Found? || r.NoContact?
    requires Linked(db.leads[l]).None? && r.Found? ==> PointsBack(db, r.contact, l)
    requires Linked(db.leads[l]).None? && r.NoContact? ==> forall c :: !PointsBack(db, c, l)
    ensures r.Found? || r.NoContact?
    ensures ContactOf(db, l) == if r.Found? then Some(r.contact) else None
    ensures r.Found? ==> r.contact in db.contacts
    ensures Won(db.leads[l]) && r.NoContact? ==> mint(l) !in db.contacts
  {
    ContactFound(db, t, mint, l);
    FitsOf(db, t, mint, l);
    LinkIsWon(db, t, mint, l);
  }
}
