/** One contact per lead: the unique index on the source lead, built after the migration. */
module CrmSources {
  import opened Wrappers
  import opened CrmMigration
  import opened CrmResume
  import opened CrmRuns
  import opened CrmOutcome

  predicate SameKey(a: Contact, b: Contact) {
    a.source.Some? && a.org == b.org && a.source == b.source
  }

  /** The unique index on tenant and source: no two contacts of a tenant store the same source, a lead or not. */
  ghost predicate UniqueSources(db: Db) {
    forall c, d :: c in db.contacts && d in db.contacts && SameKey(db.contacts[c], db.contacts[d]) ==> c == d
  }

  /** No contact names a lead that is linked to another one. */
  ghost predicate LinksAgree(db: Db) {
    forall c, d, l :: PointsBack(db, c, l) && Linked(db.leads[l]) == Some(d) ==> c == d
  }

  /** No two contacts of a tenant name the same of its leads as their source. */
  ghost predicate NamedOnce(db: Db) {
    forall c, d, l :: PointsBack(db, c, l) && PointsBack(db, d, l) ==> c == d
  }

  /** The source of the contact is no lead of its tenant. */
  predicate Stray(db: Db, c: string) {
    c in db.contacts && db.contacts[c].source.Some? && !PointsBack(db, c, db.contacts[c].source.value)
  }

  ghost predicate StraysApart(db: Db) {
    forall c, d :: Stray(db, c) && Stray(db, d) && SameKey(db.contacts[c], db.contacts[d]) ==> c == d
  }

  /** A source is unique among the contacts that name a lead or among the strays. */
  lemma UniqueSplits(db: Db)
    ensures UniqueSources(db) <==> NamedOnce(db) && StraysApart(db)
    ensures SinglySourced(db) <==> NamedOnce(db) && LinksAgree(db)
  {
    if NamedOnce(db) && StraysApart(db) {
      forall c, d | c in db.contacts && d in db.contacts && SameKey(db.contacts[c], db.contacts[d]) ensures c == d {
        assert PointsBack(db, c, db.contacts[c].source.value) <==> PointsBack(db, d, db.contacts[c].source.value);
      }
    }
  }

  ghost predicate StraysKept(a: Db, b: Db) {
    && (forall c :: Stray(a, c) <==> Stray(b, c))
    && (forall c :: Stray(a, c) ==>
      a.contacts[c].org == b.contacts[c].org && a.contacts[c].source == b.contacts[c].source)
  }

  lemma KeptThrough(a: Db, b: Db, c: Db)
    requires StraysKept(a, b) && StraysKept(b, c)
    ensures StraysKept(a, c)
  {
    hide Stray;
  }

  lemma KeptApart(a: Db, b: Db)
    requires StraysKept(a, b)
    ensures StraysApart(a) <==> StraysApart(b)
  {
    hide Stray;
  }

  ghost predicate Startable(db: Db, mint: string -> string) {
    Preflight(db) && Fresh(db, mint)
  }

  ghost function TargetOf(db: Db, l: string, mint: string -> string): string
    requires l in db.leads
  {
    if ContactOf(db, l).Some? then ContactOf(db, l).value else mint(l)
  }

  /** All the writes for a lead, seen together. */
  lemma WritesTogether(db: Db, l: string, mint: string -> string)
    requires l in db.leads
    ensures var lead, c, after := db.leads[l], TargetOf(db, l, mint), LeadWrites(db, l, 3, mint);
            && after.leads == db.leads[l := if Won(lead) then Converted(lead, c) else Reopened(lead)]
            && after.contacts == if Won(lead) || ContactOf(db, l).Some? then
                 db.contacts[c := Patched(if c in db.contacts then db.contacts[c] else Blank(lead), lead, l)]
               else db.contacts
  {
    hide ContactOf, Patched, Blank, Converted, Reopened, Won;
  }

  /** The contact a lead's writes touch is no other lead's, by link or by source. */
  lemma TargetUnshared(db: Db, l: string, m: string, mint: string -> string)
    requires Startable(db, mint) && l in db.leads && m in db.leads && l != m
    requires Won(db.leads[l]) || ContactOf(db, l).Some?
    ensures Linked(db.leads[m]) != Some(TargetOf(db, l, mint)) && !PointsBack(db, TargetOf(db, l, mint), m)
  {
    assert ValidReference(db, l) && ValidReference(db, m);
    hide KnownStatuses, NoConflict, Won;
    var c := TargetOf(db, l, mint);
    assert ContactOf(db, l).None? ==> c !in db.contacts;
    assert SameLink(db.leads[l], db.leads[m]) <==>
           Linked(db.leads[l]).Some? && Linked(db.leads[l]) == Linked(db.leads[m]);
  }

  lemma TargetOwn(db: Db, l: string, mint: string -> string)
    requires Startable(db, mint) && l in db.leads
    ensures ContactOf(db, l).Some? ==>
              var c := TargetOf(db, l, mint);
              c in db.contacts && db.contacts[c].org == db.leads[l].org &&
              (db.contacts[c].source == None || db.contacts[c].source == Some(l))
  {
    assert ValidReference(db, l);
    hide KnownStatuses, Unambiguous, NoConflict;
  }

  /** A contact that names a lead as its source goes on naming it. */
  lemma BackKept(db: Db, l: string, mint: string -> string, c: string, m: string)
    requires Startable(db, mint) && l in db.leads && PointsBack(db, c, m)
    ensures PointsBack(LeadWrites(db, l, 3, mint), c, m)
  {
    WritesTogether(db, l, mint);
    TargetOwn(db, l, mint);
    if l != m && (Won(db.leads[l]) || ContactOf(db, l).Some?) {
      TargetUnshared(db, l, m, mint);
    }
    hide LeadWrites, Preflight, Fresh, ContactOf, Won, Blank;
  }

  /** A linked contact names its lead once the lead has been processed. */
  lemma LinkNamed(db: Db, l: string, mint: string -> string, d: string)
    requires Startable(db, mint) && l in db.leads && Linked(db.leads[l]) == Some(d)
    ensures PointsBack(LeadWrites(db, l, 3, mint), d, l)
  {
    WritesTogether(db, l, mint);
    TargetOwn(db, l, mint);
    hide LeadWrites, Preflight, Fresh, Won, Blank;
  }

  lemma OtherLead(db: Db, l: string, mint: string -> string, m: string)
    requires l in db.leads && m in db.leads && l != m
    ensures LeadWrites(db, l, 3, mint).leads[m] == db.leads[m]
  {
    WritesTogether(db, l, mint);
    hide LeadWrites, Converted, Reopened, Won;
  }

  /** The writes for a lead change the source of no contact but one without, which then names the lead. */
  predicate OwnerChange(db: Db, after: Db, l: string, d: string) {
    && (d in after.contacts && d !in db.contacts ==> PointsBack(after, d, l))
    && (d in db.contacts ==> d in after.contacts && after.contacts[d].org == db.contacts[d].org)
    && (d in db.contacts && after.contacts[d].source != db.contacts[d].source ==>
      db.contacts[d].source == None && PointsBack(after, d, l))
  }

  lemma WritesOwner(db: Db, l: string, mint: string -> string, d: string)
    requires Startable(db, mint) && l in db.leads
    ensures var after := LeadWrites(db, l, 3, mint);
            OwnerChange(db, after, l, d) && forall m :: m in db.leads ==> after.leads[m].org == db.leads[m].org
  {
    var lead, c := db.leads[l], TargetOf(db, l, mint);
    WritesTogether(db, l, mint);
    TargetOwn(db, l, mint);
    if Won(lead) {
      TargetFresh(db, l, mint);
    }
    SameOrg(if c in db.contacts then db.contacts[c] else Blank(lead), lead, l, c);
    hide LeadWrites, Startable, ContactOf, Won, TargetOf, Patched, Blank, Converted, Reopened;
  }

  lemma TargetFresh(db: Db, l: string, mint: string -> string)
    requires Startable(db, mint) && l in db.leads && Won(db.leads[l])
    ensures ContactOf(db, l).None? ==> TargetOf(db, l, mint) !in db.contacts
  {
  }

  lemma SameOrg(contact: Contact, lead: Lead, l: string, c: string)
    ensures Patched(contact, lead, l).org == contact.org && Patched(contact, lead, l).source == Some(l)
    ensures Blank(lead).org == Converted(lead, c).org == Reopened(lead).org == lead.org
  {
  }

  /** The writes for a lead touch no contact whose source is not that lead, and bring no such source. */
  lemma WritesStrays(db: Db, l: string, mint: string -> string)
    requires Startable(db, mint) && l in db.leads
    ensures StraysKept(db, LeadWrites(db, l, 3, mint))
  {
    var after := LeadWrites(db, l, 3, mint);
    hide LeadWrites, Startable, OwnerChange, Stray;
    forall d ensures Stray(db, d) <==> Stray(after, d)
      ensures Stray(db, d) ==>
                db.contacts[d].org == after.contacts[d].org && db.contacts[d].source == after.contacts[d].source {
      WritesOwner(db, l, mint, d);
      SameOwners(db, after, l, d);
    }
  }

  lemma SameOwners(db: Db, after: Db, l: string, d: string)
    requires l in db.leads && after.leads.Keys == db.leads.Keys
    requires forall m :: m in db.leads ==> after.leads[m].org == db.leads[m].org
    requires OwnerChange(db, after, l, d)
    ensures Stray(db, d) <==> Stray(after, d)
    ensures Stray(db, d) ==>
              db.contacts[d].org == after.contacts[d].org && db.contacts[d].source == after.contacts[d].source
  {
  }

  // ---------- a run can go on from every lead ----------

  lemma ReferenceKept(db: Db, l: string, mint: string -> string, m: string)
    requires Startable(db, mint) && l in db.leads && m in db.leads
    ensures var after := LeadWrites(db, l, 3, mint); ValidReference(after, m) && NoConflict(after.leads[m])
    ensures Canonical(LeadWrites(db, l, 3, mint).leads[m].status) in STATUSES
  {
    WritesTogether(db, l, mint);
    TargetOwn(db, l, mint);
    assert ValidReference(db, m) && NoConflict(db.leads[m]) && Canonical(db.leads[m].status) in STATUSES;
    assert ValidReference(db, l) && NoConflict(db.leads[l]);
    if l != m && (Won(db.leads[l]) || ContactOf(db, l).Some?) {
      TargetUnshared(db, l, m, mint);
    }
    hide LeadWrites, Unambiguous, KnownStatuses, Fresh, Blank, PointsBack;
  }

  /** A shared link would be one between tenants, and every reference stays in its tenant. */
  lemma NoSharedLink(db: Db, m: string, n: string)
    requires Preflight(db) && m in db.leads && n in db.leads && m != n
    ensures !SameLink(db.leads[m], db.leads[n])
  {
    var shared := SameLink(db.leads[m], db.leads[n]);
    assert ValidReference(db, m) && ValidReference(db, n);
    hide KnownStatuses, NoConflict;
  }

  lemma LinksKept(db: Db, l: string, mint: string -> string, m: string, n: string)
    requires Startable(db, mint) && l in db.leads && m in db.leads && n in db.leads && m != n && n != l
    ensures var leads := LeadWrites(db, l, 3, mint).leads; !SameLink(leads[m], leads[n])
  {
    WritesTogether(db, l, mint);
    assert NoConflict(db.leads[l]);
    NoSharedLink(db, m, n);
    if m == l && (Won(db.leads[l]) || ContactOf(db, l).Some?) {
      TargetUnshared(db, l, n, mint);
    }
    LinkIsTarget(db, l, mint);
    hide LeadWrites, Preflight, Fresh, ContactOf, Won, TargetOf;
  }

  /** After its writes a lead is linked to its target or, reopened, as it was or not at all. */
  lemma LinkIsTarget(db: Db, l: string, mint: string -> string)
    requires Startable(db, mint) && l in db.leads
    ensures var link := Linked(LeadWrites(db, l, 3, mint).leads[l]);
            if Won(db.leads[l]) then link == Some(TargetOf(db, l, mint))
            else link.None? || (ContactOf(db, l).Some? && link == Some(TargetOf(db, l, mint)))
  {
    WritesTogether(db, l, mint);
    assert NoConflict(db.leads[l]);
    hide LeadWrites, Fresh;
  }

  lemma ContactKept(db: Db, l: string, mint: string -> string, m: string)
    requires Startable(db, mint) && l in db.leads && m in db.leads && (l != m || Won(db.leads[l]))
    requires l == m || ContactOf(db, m).Some?
    ensures ContactOf(LeadWrites(db, l, 3, mint), m).Some?
  {
    var after := LeadWrites(db, l, 3, mint);
    if l == m {
      LinkIsTarget(db, l, mint);
    } else {
      OtherLead(db, l, mint, m);
      if Linked(db.leads[m]).None? {
        BackKept(db, l, mint, ContactOf(db, m).value, m);
      }
    }
    hide LeadWrites, Preflight, Fresh, Won, PointsBack;
  }

  lemma FreshKept(db: Db, l: string, mint: string -> string, m: string)
    requires Startable(db, mint) && l in db.leads && m in db.leads
    ensures var after := LeadWrites(db, l, 3, mint);
            Won(after.leads[m]) && ContactOf(after, m).None? ==> mint(m) !in after.contacts
  {
    var after := LeadWrites(db, l, 3, mint);
    WritesTogether(db, l, mint);
    StillWon(db.leads[l], TargetOf(db, l, mint));
    if (l != m || Won(db.leads[l])) && (l == m || ContactOf(db, m).Some?) {
      ContactKept(db, l, mint, m);
    }
    TargetOwn(db, l, mint);
    hide LeadWrites, Preflight, ContactOf, Won, Converted, Reopened, Patched, Blank;
    assert l != m ==> mint(l) != mint(m);
  }

  lemma StillWon(lead: Lead, c: string)
    ensures Won(lead) ==> Won(Converted(lead, c))
    ensures !Won(lead) ==> !Won(Reopened(lead))
  {
  }

  lemma StartableKept(db: Db, l: string, mint: string -> string)
    requires Startable(db, mint) && l in db.leads
    ensures Startable(LeadWrites(db, l, 3, mint), mint)
  {
    var after := LeadWrites(db, l, 3, mint);
    SameMints(db, after, mint);
    hide Startable, Linked, Canonical, ValidReference, NoConflict, SameLink, ContactOf, Won, LeadWrites;
    forall m | m in after.leads
      ensures ValidReference(after, m) && NoConflict(after.leads[m]) && Canonical(after.leads[m].status) in STATUSES {
      ReferenceKept(db, l, mint, m);
    }
    forall m, n | m in after.leads && n in after.leads && m != n ensures !SameLink(after.leads[m], after.leads[n]) {
      if n != l {
        LinksKept(db, l, mint, m, n);
      } else {
        LinksKept(db, l, mint, n, m);
        SameLinkBack(after.leads[m], after.leads[n]);
      }
    }
    forall m | m in after.leads && Won(after.leads[m]) && ContactOf(after, m).None? ensures mint(m) !in after.contacts {
      FreshKept(db, l, mint, m);
    }
    StartableFrom(after, mint);
  }

  lemma SameMints(db: Db, after: Db, mint: string -> string)
    requires Startable(db, mint) && after.leads.Keys == db.leads.Keys
    ensures forall l, m :: l in after.leads && m in after.leads && mint(l) == mint(m) ==> l == m
  {
  }

  lemma SameLinkBack(a: Lead, b: Lead)
    ensures SameLink(b, a) <==> SameLink(a, b)
  {
  }

  lemma StartableFrom(db: Db, mint: string -> string)
    requires Preflight(db)
    requires forall l :: l in db.leads && Won(db.leads[l]) && ContactOf(db, l).None? ==> mint(l) !in db.contacts
    requires forall l, m :: l in db.leads && m in db.leads && mint(l) == mint(m) ==> l == m
    ensures Startable(db, mint)
  {
  }

  // ---------- over a whole run ----------

  lemma StatusStartable(db: Db, l: string, mint: string -> string)
    requires Startable(db, mint) && l in db.leads
    ensures Startable(SetStatus(db, l), mint)
    ensures forall c, m :: PointsBack(SetStatus(db, l), c, m) <==> PointsBack(db, c, m)
    ensures forall m :: m in db.leads ==> Linked(SetStatus(db, l).leads[m]) == Linked(db.leads[m])
  {
    var after := SetStatus(db, l);
    assert forall c, m :: PointsBack(after, c, m) <==> PointsBack(db, c, m);
    SameMints(db, after, mint);
    hide PointsBack;
    forall m | m in db.leads
      ensures Linked(after.leads[m]) == Linked(db.leads[m]) && (ContactOf(after, m).None? <==> ContactOf(db, m).None?)
      ensures ValidReference(after, m) && NoConflict(after.leads[m]) && Canonical(after.leads[m].status) in STATUSES
      ensures Won(after.leads[m]) <==> Won(db.leads[m]) {
      assert ValidReference(db, m) && NoConflict(db.leads[m]) && Canonical(db.leads[m].status) in STATUSES;
    }
    forall m, n | m in after.leads && n in after.leads && m != n ensures !SameLink(after.leads[m], after.leads[n]) {
      NoSharedLink(db, m, n);
    }
    hide Linked, Canonical, ValidReference, NoConflict, SameLink, ContactOf, Won;
    StartableFrom(after, mint);
  }

  lemma {:induction false} StatusesStartable(db: Db, order: seq<string>, n: nat, mint: string -> string)
    requires Startable(db, mint) && Covers(order, db) && n <= |order|
    ensures var after := Statuses(db, order, n);
            && Startable(after, mint)
            && (forall c, m :: PointsBack(after, c, m) <==> PointsBack(db, c, m))
            && (forall m :: m in db.leads ==> Linked(after.leads[m]) == Linked(db.leads[m]))
  {
    hide *;
    StatusesStep(db, order, n);
    if n > 0 {
      StatusesStartable(db, order, n - 1, mint);
      StatusStartable(Statuses(db, order, n - 1), order[n - 1], mint);
    }
  }

  /** After some leads a contact that names one, or is linked by a processed one, names it. */
  lemma {:induction false} LeadsStartable(db: Db, order: seq<string>, n: nat, mint: string -> string, c: string,
    l: string)
    requires Startable(db, mint) && Covers(order, db) && n <= |order| && l in db.leads
    ensures var after := Leads(db, order, n, mint);
            && Startable(after, mint)
            && (PointsBack(db, c, l) ==> PointsBack(after, c, l))
            && (Linked(db.leads[l]) == Some(c) ==>
                 PointsBack(after, c, l) || (l !in order[..n] && after.leads[l] == db.leads[l]))
  {
    hide *;
    if n == 0 {
      NoLeads(db, order, mint);
      assert order[..0] == [];
    } else {
      LeadsStartable(db, order, n - 1, mint, c, l);
      LeadsStep(db, order, n, mint);
      assert order[..n] == order[..n - 1] + [order[n - 1]];
      var before, m := Leads(db, order, n - 1, mint), order[n - 1];
      StartableKept(before, m, mint);
      if PointsBack(before, c, l) {
        BackKept(before, m, mint, c, l);
      } else if Linked(db.leads[l]) == Some(c) {
        if l == m {
          LinkNamed(before, m, mint, c);
        } else {
          OtherLead(before, m, mint, l);
        }
      }
    }
  }

  lemma StatusStrays(db: Db, l: string)
    requires l in db.leads
    ensures StraysKept(db, SetStatus(db, l))
  {
  }

  lemma {:induction false} StatusesStrays(db: Db, order: seq<string>, n: nat)
    requires Covers(order, db) && n <= |order|
    ensures StraysKept(db, Statuses(db, order, n))
  {
    hide Stray;
    StatusesStep(db, order, n);
    if n > 0 {
      StatusesStrays(db, order, n - 1);
      StatusStrays(Statuses(db, order, n - 1), order[n - 1]);
      KeptThrough(db, Statuses(db, order, n - 1), Statuses(db, order, n));
    }
  }

  lemma {:induction false} LeadsStrays(db: Db, order: seq<string>, n: nat, mint: string -> string)
    requires Startable(db, mint) && Covers(order, db) && n <= |order|
    ensures StraysKept(db, Leads(db, order, n, mint)) && Startable(Leads(db, order, n, mint), mint)
  {
    hide Stray, Startable, Leads, LeadWrites;
    if n == 0 {
      NoLeads(db, order, mint);
    } else {
      LeadsStrays(db, order, n - 1, mint);
      LeadsStep(db, order, n, mint);
      WritesStrays(Leads(db, order, n - 1, mint), order[n - 1], mint);
      StartableKept(Leads(db, order, n - 1, mint), order[n - 1], mint);
      KeptThrough(db, Leads(db, order, n - 1, mint), Leads(db, order, n, mint));
    }
  }

  lemma {:induction false} ManualsStrays(db: Db, people: seq<string>, n: nat)
    requires n <= |people|
    ensures StraysKept(db, Manuals(db, people, n))
  {
    if n > 0 {
      ManualsStrays(db, people, n - 1);
    }
  }

  /** A run leaves every contact whose source is no lead of its tenant, and brings none. */
  lemma RunStrays(db: Db, order: seq<string>, people: seq<string>, mint: string -> string)
    requires Startable(db, mint) && Covers(order, db)
    ensures StraysKept(db, RunAll(db, order, people, mint))
  {
    hide *;
    RunStages(db, order, people, mint);
    var one := Statuses(db, order, |order|);
    var two := Leads(one, order, |order|, mint);
    StatusesStrays(db, order, |order|);
    StatusesStartable(db, order, |order|, mint);
    LeadsStrays(one, order, |order|, mint);
    ManualsStrays(two, people, |people|);
    KeptThrough(db, one, two);
    KeptThrough(db, two, Manuals(two, people, |people|));
  }

  lemma {:induction false} ManualsBack(db: Db, people: seq<string>, n: nat, c: string, l: string)
    requires n <= |people| && PointsBack(db, c, l)
    ensures PointsBack(Manuals(db, people, n), c, l)
  {
    if n > 0 {
      ManualsBack(db, people, n - 1, c, l);
    }
  }

  /** A contact that names a lead, or that the lead is linked to, names it at the end of a run. */
  lemma NamedAtTheEnd(db: Db, order: seq<string>, people: seq<string>, mint: string -> string, c: string, l: string)
    requires Startable(db, mint) && Covers(order, db) && l in db.leads
    requires PointsBack(db, c, l) || Linked(db.leads[l]) == Some(c)
    ensures PointsBack(RunAll(db, order, people, mint), c, l)
  {
    hide *;
    RunStages(db, order, people, mint);
    var one := Statuses(db, order, |order|);
    StatusesStartable(db, order, |order|, mint);
    LeadsStartable(one, order, |order|, mint, c, l);
    assert order[..|order|] == order;
    InOrder(order, db, l);
    ManualsBack(Leads(one, order, |order|, mint), people, |people|, c, l);
  }

  lemma InOrder(order: seq<string>, db: Db, l: string)
    requires Covers(order, db) && l in db.leads
    ensures l in order
  {
  }

  lemma InvNamed(db: Db, t: map<string, string>, mint: string -> string)
    requires Inv(db, t, mint)
    ensures NamedOnce(db)
  {
    hide LeadFits, PointsBack;
  }

  /** No two contacts of a tenant name the same lead after a run exactly when before it no second one named a lead or
      the contact of a lead. */
  lemma NamedOnceIff(db: Db, order: seq<string>, people: seq<string>, mint: string -> string)
    requires Startable(db, mint) && AllConvertible(db) && Covers(order, db) && Lists(people, db)
    ensures NamedOnce(RunAll(db, order, people, mint)) <==> SinglySourced(db)
  {
    var end := RunAll(db, order, people, mint);
    hide RunAll, Preflight, Fresh, PointsBack, Inv, Settled, SameFinal, AllConvertible;
    if SinglySourced(db) {
      SoundInv(db, mint);
      RunReaches(db, Targets(db, mint), order, people, mint);
      InvNamed(end, Targets(db, mint), mint);
    } else {
      var c, d, l :| PointsBack(db, c, l) && (PointsBack(db, d, l) || Linked(db.leads[l]) == Some(d)) && c != d;
      NamedAtTheEnd(db, order, people, mint, c, l);
      NamedAtTheEnd(db, order, people, mint, d, l);
    }
  }

  /** The unique index can be built after a run exactly when before it the sources were unique too and no contact named
      a lead that was linked to another one. */
  lemma UniqueSourcesIff(db: Db, order: seq<string>, people: seq<string>, mint: string -> string)
    requires Startable(db, mint) && AllConvertible(db) && Covers(order, db) && Lists(people, db)
    ensures UniqueSources(RunAll(db, order, people, mint)) <==> UniqueSources(db) && LinksAgree(db)
  {
    hide *;
    var end := RunAll(db, order, people, mint);
    NamedOnceIff(db, order, people, mint);
    RunStrays(db, order, people, mint);
    KeptApart(db, end);
    UniqueSplits(db);
    UniqueSplits(end);
  }

  /** After a run the index can be built and every lead is one-to-one with its contact, under the same condition. */
  lemma EstablishedIff(db: Db, order: seq<string>, people: seq<string>, mint: string -> string)
    requires Startable(db, mint) && AllConvertible(db) && Covers(order, db) && Lists(people, db)
    ensures var after := RunAll(db, order, people, mint);
            UniqueSources(after) && (forall l :: l in db.leads ==> OneToOne(after, l)) <==>
            UniqueSources(db) && LinksAgree(db)
  {
    UniqueSourcesIff(db, order, people, mint);
    UniqueSplits(db);
    hide UniqueSources, OneToOne, RunAll, Preflight, Fresh, AllConvertible, LinksAgree, NamedOnce;
    if UniqueSources(db) && LinksAgree(db) {
      Established(db, order, people, mint);
    }
  }

  // ---------- indexes that cannot be built ----------

  const NAMING: Contact := Contact("o", None, None, Some("l"), Active, None, None)

  /** Two contacts of a tenant store the same source, which need not be a lead any more. */
  lemma GoneSourceRefused(mint: string -> string)
    ensures var db := Db(map[], map["c" := NAMING, "d" := NAMING], map[]);
            && Startable(db, mint) && AllConvertible(db) && Covers([], db) && Lists(["c", "d"], db)
            && SinglySourced(db) && !UniqueSources(RunAll(db, [], ["c", "d"], mint))
  {
    var db := Db(map[], map["c" := NAMING, "d" := NAMING], map[]);
    assert "c" in db.contacts && "d" in db.contacts && SameKey(db.contacts["c"], db.contacts["d"]);
    assert "c" in ["c", "d"] && "d" in ["c", "d"];
    hide RunAll, LinksAgree;
    UniqueSourcesIff(db, [], ["c", "d"], mint);
  }

  const LINKED_LEAD: Lead := Lead("o", Some("New"), false, Some("c"), None, None, None, None, None, None, "")

  lemma LinkedStartable(mint: string -> string)
    ensures var db := Db(map["l" := LINKED_LEAD], map["c" := NAMING.(source := None), "d" := NAMING], map[]);
            && Startable(db, mint) && AllConvertible(db) && Covers(["l"], db) && Lists(["c", "d"], db)
  {
    assert Canonical(LINKED_LEAD.status) == "New" && !Won(LINKED_LEAD);
    assert "c" in ["c", "d"] && "d" in ["c", "d"] && "l" in ["l"];
    hide Canonical, Won;
  }

  /** An open lead is linked to one contact and named by another. */
  lemma SecondNamerRefused(mint: string -> string)
    ensures var db := Db(map["l" := LINKED_LEAD], map["c" := NAMING.(source := None), "d" := NAMING], map[]);
            && Startable(db, mint) && AllConvertible(db) && Covers(["l"], db) && Lists(["c", "d"], db)
            && UniqueSources(db) && !UniqueSources(RunAll(db, ["l"], ["c", "d"], mint))
  {
    var db := Db(map["l" := LINKED_LEAD], map["c" := NAMING.(source := None), "d" := NAMING], map[]);
    LinkedStartable(mint);
    assert PointsBack(db, "d", "l") && Linked(db.leads["l"]) == Some("c") && "c" != "d";
    hide RunAll, Startable, AllConvertible, Covers, Lists;
    UniqueSourcesIff(db, ["l"], ["c", "d"], mint);
  }
}
