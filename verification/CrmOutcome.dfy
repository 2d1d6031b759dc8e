/** The results about the migration: the one-to-one relation it establishes, and when it may be interrupted. */
module CrmOutcome {
  import opened Wrappers
  import opened CrmMigration
  import opened CrmResume
  import opened CrmRuns

  // ---------- from which states a run can start ----------

  /** No second contact of the tenant names the lead as its source. */
  ghost predicate SinglySourced(db: Db) {
    forall c, d, l :: PointsBack(db, c, l) && (PointsBack(db, d, l) || Linked(db.leads[l]) == Some(d)) ==> c == d
  }

  /** The ids handed out for new contacts: one per lead, none of them in use. */
  ghost predicate Fresh(db: Db, mint: string -> string) {
    && (forall l :: l in db.leads && Won(db.leads[l]) && ContactOf(db, l).None? ==> mint(l) !in db.contacts)
    && (forall l, m :: l in db.leads && m in db.leads && mint(l) == mint(m) ==> l == m)
  }

  ghost predicate Sound(db: Db, mint: string -> string) {
    Preflight(db) && SinglySourced(db) && Fresh(db, mint)
  }

  /** A won lead without a contact that lacks what making one needs. */
  ghost predicate Unconvertible(db: Db, l: string) {
    l in db.leads && Won(db.leads[l]) && ContactOf(db, l).None? && (db.leads[l].name.None? || db.leads[l].phone.None?)
  }

  /** No won lead stops the run, so `RunAll` is what the program does. */
  ghost predicate AllConvertible(db: Db) {
    forall l :: !Unconvertible(db, l)
  }

  ghost function Targets(db: Db, mint: string -> string): map<string, string> {
    map l | l in db.leads && (ContactOf(db, l).Some? || Won(db.leads[l])) ::
      if ContactOf(db, l).Some? then ContactOf(db, l).value else mint(l)
  }

  lemma ContactUnshared(db: Db, l: string, m: string)
    requires Preflight(db) && l in db.leads && m in db.leads && l != m && ContactOf(db, l).Some?
    ensures ContactOf(db, m) != ContactOf(db, l)
  {
    hide KnownStatuses, NoConflict, Won;
    assert ValidReference(db, l) && ValidReference(db, m);
  }

  lemma TargetsUnshared(db: Db, mint: string -> string, l: string, m: string)
    requires Sound(db, mint) && l in Targets(db, mint) && m in Targets(db, mint) && l != m
    ensures Targets(db, mint)[l] != Targets(db, mint)[m]
  {
    hide KnownStatuses, SinglySourced;
    ContactIn(db, l);
    ContactIn(db, m);
    if ContactOf(db, l).Some? {
      ContactUnshared(db, l, m);
    }
    hide Preflight, ContactOf;
  }

  lemma ContactIn(db: Db, l: string)
    requires Preflight(db) && l in db.leads
    ensures ContactOf(db, l).Some? ==> ContactOf(db, l).value in db.contacts
  {
    hide KnownStatuses, Unambiguous;
    assert ValidReference(db, l);
  }

  lemma TargetFits(db: Db, mint: string -> string, l: string)
    requires Sound(db, mint) && l in db.leads
    ensures LeadFits(db, Targets(db, mint), mint, l)
  {
    assert ValidReference(db, l) && Canonical(db.leads[l].status) in STATUSES && NoConflict(db.leads[l]);
    hide Preflight, SinglySourced, Canonical;
  }

  lemma TargetSource(db: Db, mint: string -> string, l: string, c: string)
    requires Sound(db, mint) && PointsBack(db, c, l)
    ensures l in Targets(db, mint) && Targets(db, mint)[l] == c
  {
    hide Preflight, Fresh, Won;
    assert ContactOf(db, l).Some?;
  }

  lemma SoundInv(db: Db, mint: string -> string)
    requires Sound(db, mint)
    ensures Inv(db, Targets(db, mint), mint)
  {
    hide Sound, LeadFits, PointsBack;
    var t := Targets(db, mint);
    forall l | l in db.leads ensures LeadFits(db, t, mint, l) {
      TargetFits(db, mint, l);
    }
    forall l, m | l in t && m in t && t[l] == t[m] ensures l == m {
      if l != m {
        TargetsUnshared(db, mint, l, m);
      }
    }
    forall l, c | PointsBack(db, c, l) ensures l in t && t[l] == c {
      TargetSource(db, mint, l, c);
    }
  }

  // ---------- the relation a run establishes ----------

  /** Won, converted, and the one active contact of the tenant pointing back go together; the contact of an open
      lead is a legacy one. */
  ghost predicate OneToOne(db: Db, l: string) {
    l in db.leads &&
    var lead := db.leads[l];
    && (lead.isConverted <==> lead.status == Some("Won"))
    && (lead.isConverted <==> exists c :: PointsBack(db, c, l) && db.contacts[c].state == Active)
    && (forall c :: PointsBack(db, c, l) ==>
          if lead.isConverted then lead.convertedContact == Some(c) && db.contacts[c].state == Active
          else db.contacts[c].state == LegacyPreconversion)
    && (!lead.isConverted ==> lead.convertedContact == None)
  }

  lemma SettledOneToOne(db: Db, t: map<string, string>, mint: string -> string, l: string)
    requires Inv(db, t, mint) && AllLeadsSettled(db, t) && l in db.leads
    ensures OneToOne(db, l)
  {
    assert LeadSettled(db, t, l) && LeadFits(db, t, mint, l);
    if Won(db.leads[l]) {
      assert PointsBack(db, t[l], l);
    }
  }

  /** After a run every lead is one-to-one with its contact and no contact is left unclassified. */
  lemma Established(db: Db, order: seq<string>, people: seq<string>, mint: string -> string)
    requires Sound(db, mint) && AllConvertible(db) && Covers(order, db) && Lists(people, db)
    ensures var after := RunAll(db, order, people, mint);
            && (forall l :: l in db.leads ==> OneToOne(after, l))
            && (forall c :: c in after.contacts && after.contacts[c].state == Unset ==>
              after.contacts[c].source != None)
  {
    hide Inv, AllLeadsSettled, OneToOne, SameFinal;
    SoundInv(db, mint);
    var t, after := Targets(db, mint), RunAll(db, order, people, mint);
    RunReaches(db, t, order, people, mint);
    forall l | l in db.leads ensures OneToOne(after, l) {
      SettledOneToOne(after, t, mint, l);
    }
  }

  // ---------- stopping and running again ----------

  lemma SameEnd(
    a: Db, b: Db, t: map<string, string>, mint: string -> string,
    orderA: seq<string>, peopleA: seq<string>, orderB: seq<string>, peopleB: seq<string>)
    requires Inv(a, t, mint) && Inv(b, t, mint) && SameFinal(a, b, t)
    requires Covers(orderA, a) && Lists(peopleA, a) && Covers(orderB, b) && Lists(peopleB, b)
    ensures RunAll(a, orderA, peopleA, mint) == RunAll(b, orderB, peopleB, mint)
  {
    hide *;
    var endA, endB := RunAll(a, orderA, peopleA, mint), RunAll(b, orderB, peopleB, mint);
    RunReaches(a, t, orderA, peopleA, mint);
    RunReaches(b, t, orderB, peopleB, mint);
    SameFinalTransitive(a, b, endB, t);
    SameFinalSymmetric(a, endA, t);
    SameFinalTransitive(endA, a, endB, t);
    SettledSame(endA, endB, t, mint);
  }

  lemma SameFinalSymmetric(a: Db, b: Db, t: map<string, string>)
    requires SameFinal(a, b, t)
    ensures SameFinal(b, a, t)
  {
    hide FinalLead, FinalContact, FinalNote;
    forall l | l in b.leads ensures SameLead(b, a, t, l) {
      assert SameLead(a, b, t, l);
    }
  }

  /** Run again from `stopped`, in any order of the leads and the contacts, the migration ends in `end`. */
  ghost predicate Resumes(stopped: Db, end: Db, mint: string -> string) {
    forall order, people :: Covers(order, stopped) && Lists(people, stopped) ==>
      RunAll(stopped, order, people, mint) == end
  }

  lemma {:induction false} OffenceBeforeLeads(db: Db, order: seq<string>, n: nat, l: string)
    requires Covers(order, db) && n <= |order|
    ensures Offends(Statuses(db, order, n), l) <==> Offends(db, l)
  {
    hide *;
    StatusesStep(db, order, n);
    if n > 0 {
      OffenceBeforeLeads(db, order, n - 1, l);
      OffenceStatus(Statuses(db, order, n - 1), order[n - 1], l);
    }
  }

  lemma StatusesStep(db: Db, order: seq<string>, n: nat)
    requires Covers(order, db) && n <= |order|
    ensures n == 0 ==> Statuses(db, order, n) == db
    ensures n > 0 ==> order[n - 1] in Statuses(db, order, n - 1).leads
    ensures n > 0 ==> Statuses(db, order, n) == SetStatus(Statuses(db, order, n - 1), order[n - 1])
  {
  }

  lemma OffenceStatus(db: Db, m: string, l: string)
    requires m in db.leads
    ensures Offends(SetStatus(db, m), l) <==> Offends(db, l)
  {
  }

  /** Processing the leads before it changes nothing about an offence. */
  lemma {:induction false} OffenceStays(
    db: Db, t: map<string, string>, order: seq<string>, n: nat, mint: string -> string, l: string)
    requires Inv(db, t, mint) && Covers(order, db) && n <= |order| && l in db.leads && l !in order[..n]
    ensures Offends(Leads(db, order, n, mint), l) <==> Offends(db, l)
  {
    hide *;
    if n > 0 {
      assert order[..n] == order[..n - 1] + [order[n - 1]];
      OffenceStays(db, t, order, n - 1, mint, l);
      LeadsKeep(db, t, order, n - 1, mint);
      LeadsStep(db, order, n, mint);
      OffenceStep(Leads(db, order, n - 1, mint), t, mint, order[n - 1], l);
    } else {
      NoLeads(db, order, mint);
    }
  }

  lemma NoLeads(db: Db, order: seq<string>, mint: string -> string)
    requires Covers(order, db)
    ensures Leads(db, order, 0, mint) == db
  {
  }

  lemma OffenceStep(db: Db, t: map<string, string>, mint: string -> string, m: string, l: string)
    requires Inv(db, t, mint) && m in db.leads && l in db.leads && l != m
    ensures Offends(LeadWrites(db, m, 3, mint), l) <==> Offends(db, l)
  {
    OthersUntouched(db, t, mint, m, l);
    FitsOf(db, t, mint, l);
    hide Inv, LeadWrites;
  }

  /** The state at every stop has the final documents of the start, but for an offending lead just reopened. */
  lemma StopKeeps(
    db: Db, t: map<string, string>, stop: Stop, order: seq<string>, people: seq<string>, mint: string -> string)
    requires Inv(db, t, mint) && Covers(order, db) && Possible(stop, order, people) && NoRepeats(order)
    requires stop.AtLead? && stop.k == 1 ==> !Offends(db, order[stop.n])
    ensures Inv(StateAt(db, stop, order, people, mint), t, mint)
    ensures SameFinal(db, StateAt(db, stop, order, people, mint), t)
  {
    hide Inv, SameFinal, AllLeadsSettled, Offends, Leads, Statuses, Manuals, LeadWrites, Covers, NoRepeats;
    if stop.AtStatus? {
      StatusesKeep(db, t, order, stop.n, mint);
    } else {
      var one := Statuses(db, order, |order|);
      StatusesKeep(db, t, order, |order|, mint);
      StatusesCovered(db, order);
      var n := if stop.AtLead? then stop.n else |order|;
      var two := Leads(one, order, n, mint);
      LeadsKeep(one, t, order, n, mint);
      SameFinalTransitive(db, one, two, t);
      if stop.AtLead? {
        var l := order[n];
        CoversAt(order, one, n);
        FirstTime(order, n);
        OffenceBeforeLeads(db, order, |order|, l);
        OffenceStays(one, t, order, n, mint, l);
        LeadSteps(two, t, mint, l, stop.k);
        SameFinalTransitive(db, two, LeadWrites(two, l, stop.k, mint), t);
      } else {
        AfterLeads(one, t, order, mint);
        ManualsKeep(two, t, people, stop.n, mint);
        SameFinalTransitive(db, two, Manuals(two, people, stop.n), t);
      }
    }
  }

  lemma StatusesCovered(db: Db, order: seq<string>)
    requires Covers(order, db)
    ensures Covers(order, Statuses(db, order, |order|))
  {
  }

  lemma FirstTime(order: seq<string>, n: nat)
    requires NoRepeats(order) && n < |order|
    ensures order[n] !in order[..n]
  {
  }

  lemma InvPreflight(db: Db, t: map<string, string>, mint: string -> string)
    requires Inv(db, t, mint)
    ensures Preflight(db)
  {
    forall l | l in db.leads
      ensures ValidReference(db, l) && NoConflict(db.leads[l]) && Canonical(db.leads[l].status) in STATUSES {
      assert LeadFits(db, t, mint, l);
    }
    forall l, m | l in db.leads && m in db.leads && l != m ensures !SameLink(db.leads[l], db.leads[m]) {
      FitsOf(db, t, mint, l);
      FitsOf(db, t, mint, m);
    }
  }

  // ---------- the one stop that loses a contact ----------

  function Without(t: map<string, string>, l: string): map<string, string> {
    t - {l}
  }

  lemma LostFits(db: Db, t: map<string, string>, mint: string -> string, l: string, m: string)
    requires Inv(db, t, mint) && Offends(db, l) && m in db.leads
    ensures LeadFits(PutLead(db, l, Reopened(db.leads[l])), Without(t, l), mint, m)
  {
    FitsOf(db, t, mint, l);
    FitsOf(db, t, mint, m);
    hide Inv;
  }

  lemma LostInv(db: Db, t: map<string, string>, mint: string -> string, l: string)
    requires Inv(db, t, mint) && Offends(db, l)
    ensures Inv(PutLead(db, l, Reopened(db.leads[l])), Without(t, l), mint)
  {
    var after := PutLead(db, l, Reopened(db.leads[l]));
    var less := Without(t, l);
    FitsOf(db, t, mint, l);
    hide LeadFits;
    forall m | m in after.leads ensures LeadFits(after, less, mint, m) {
      LostFits(db, t, mint, l, m);
    }
    forall m, c | PointsBack(after, c, m) ensures m in less && less[m] == c {
      assert PointsBack(db, c, m);
      LinkIs(db, t, mint, l);
    }
  }

  lemma OffendedContact(db: Db, t: map<string, string>, mint: string -> string, l: string)
    requires Inv(db, t, mint) && Offends(db, l)
    ensures l in t && t[l] in db.contacts && db.contacts[t[l]].source == None
    ensures Owner(t, t[l]) == Some(l) && Owner(Without(t, l), t[l]) == None
    ensures FinalContact(db, t, t[l]).Some? && FinalContact(db, t, t[l]).value.source == Some(l)
  {
    FitsOf(db, t, mint, l);
    LinkIs(db, t, mint, l);
    hide LeadFits;
  }

  /** Run again after an offending lead was reopened, the migration leaves its contact without a source. */
  lemma LostContact(
    db: Db, t: map<string, string>, mint: string -> string, l: string, order: seq<string>, people: seq<string>)
    requires Inv(db, t, mint) && Offends(db, l)
    requires var stopped := PutLead(db, l, Reopened(db.leads[l])); Covers(order, stopped) && Lists(people, stopped)
    ensures var end := RunAll(PutLead(db, l, Reopened(db.leads[l])), order, people, mint);
            l in t && t[l] in end.contacts && end.contacts[t[l]].source == None
  {
    var stopped, less := PutLead(db, l, Reopened(db.leads[l])), Without(t, l);
    OffendedContact(db, t, mint, l);
    LostInv(db, t, mint, l);
    hide Inv, Settled, SameFinal, Reopened, Offends, Without;
    var end := RunAll(stopped, order, people, mint);
    RunReaches(stopped, less, order, people, mint);
    FinalOf(stopped, end, less, mint, t[l]);
  }

  lemma FinalOf(a: Db, end: Db, t: map<string, string>, mint: string -> string, c: string)
    requires SameFinal(a, end, t) && Inv(end, t, mint) && Settled(end, t)
    ensures FinalContact(a, t, c) == if c in end.contacts then Some(end.contacts[c]) else None
  {
    SettledContact(end, t, mint, c);
    hide Inv, Settled, FinalContact, FinalNote, FinalLead;
  }

  ghost function Listed(s: set<string>): (r: seq<string>)
    ensures forall c :: c in s ==> c in r
  {
    if s == {} then [] else var c :| c in s; [c] + Listed(s - {c})
  }

  /** Every stop can be run again to the same end exactly when no lead offends: an open lead whose only link is
      `convertedContactId`, to a contact that does not name it as its source. */
  lemma ResumeIff(db: Db, order: seq<string>, people: seq<string>, mint: string -> string)
    requires Sound(db, mint) && AllConvertible(db) && Covers(order, db) && NoRepeats(order) && Lists(people, db)
    ensures (forall stop :: Possible(stop, order, people) ==>
               Resumes(StateAt(db, stop, order, people, mint), RunAll(db, order, people, mint), mint)) <==>
            (forall l :: l in db.leads ==> !Offends(db, l))
  {
    hide *;
    SoundInv(db, mint);
    if forall l :: l in db.leads ==> !Offends(db, l) {
      forall stop | Possible(stop, order, people)
        ensures Resumes(StateAt(db, stop, order, people, mint), RunAll(db, order, people, mint), mint) {
        StopLead(stop, order, people, db);
        StopResumes(db, Targets(db, mint), stop, order, people, mint);
      }
    } else {
      var l :| l in db.leads && Offends(db, l);
      var stop := OffendingStop(db, Targets(db, mint), order, people, mint, l);
    }
  }

  lemma StopLead(stop: Stop, order: seq<string>, people: seq<string>, db: Db)
    requires Possible(stop, order, people) && Covers(order, db)
    ensures stop.AtLead? ==> stop.n < |order| && order[stop.n] in db.leads
  {
  }

  lemma StopResumes(
    db: Db, t: map<string, string>, stop: Stop, order: seq<string>, people: seq<string>, mint: string -> string)
    requires Inv(db, t, mint) && Covers(order, db) && Possible(stop, order, people) && NoRepeats(order)
             && Lists(people, db)
    requires stop.AtLead? && stop.k == 1 ==> !Offends(db, order[stop.n])
    ensures Resumes(StateAt(db, stop, order, people, mint), RunAll(db, order, people, mint), mint)
  {
    hide Inv, SameFinal, Covers, Lists, RunAll, StateAt, NoRepeats, Offends, Possible;
    var s := StateAt(db, stop, order, people, mint);
    StopKeeps(db, t, stop, order, people, mint);
    SameFinalSymmetric(db, s, t);
    forall again, those | Covers(again, s) && Lists(those, s)
      ensures RunAll(s, again, those, mint) == RunAll(db, order, people, mint) {
      SameEnd(s, db, t, mint, again, those, order, people);
    }
  }

  lemma OffendingStop(
    db: Db, t: map<string, string>, order: seq<string>, people: seq<string>, mint: string -> string, l: string)
    returns (stop: Stop)
    requires Inv(db, t, mint) && Covers(order, db) && NoRepeats(order) && Lists(people, db) && l in db.leads
             && Offends(db, l)
    ensures Possible(stop, order, people)
    ensures !Resumes(StateAt(db, stop, order, people, mint), RunAll(db, order, people, mint), mint)
  {
    hide Inv, SameFinal, Settled, Covers, Lists, RunAll, NoRepeats, Offends, FinalContact, Statuses, Leads, Owner;
    var n := IndexOf(order, db, l);
    stop := AtLead(n, 1);
    var one := Statuses(db, order, |order|);
    StatusesKeep(db, t, order, |order|, mint);
    StatusesCovered(db, order);
    var two := Leads(one, order, n, mint);
    LeadsKeep(one, t, order, n, mint);
    FirstTime(order, n);
    OffenceBeforeLeads(db, order, |order|, l);
    OffenceStays(one, t, order, n, mint, l);
    var stopped := PutLead(two, l, Reopened(two.leads[l]));
    OffenceOpen(two, l);
    assert StateAt(db, stop, order, people, mint) == stopped;
    SameCover(order, db, stopped);
    var those := Listed(stopped.contacts.Keys);
    assert Lists(those, stopped) by { ListedLists(stopped); }
    LostContact(two, t, mint, l, order, those);
    var end := RunAll(db, order, people, mint);
    RunReaches(db, t, order, people, mint);
    FinalOf(db, end, t, mint, t[l]);
    OffendedContact(db, t, mint, l);
    assert RunAll(stopped, order, those, mint) != end;
  }

  lemma ListedLists(db: Db)
    ensures Lists(Listed(db.contacts.Keys), db)
  {
  }

  lemma OffenceOpen(db: Db, l: string)
    requires Offends(db, l)
    ensures l in db.leads && !Won(db.leads[l])
  {
  }

  lemma SameCover(order: seq<string>, a: Db, b: Db)
    requires Covers(order, a) && a.leads.Keys == b.leads.Keys
    ensures Covers(order, b)
  {
  }

  lemma IndexOf(order: seq<string>, db: Db, l: string) returns (n: nat)
    requires Covers(order, db) && l in db.leads
    ensures n < |order| && order[n] == l
  {
    n :| 0 <= n < |order| && order[n] == l;
  }

  /** Wherever a run stops, the next one passes the preflight again. */
  lemma PreflightAtStops(db: Db, stop: Stop, order: seq<string>, people: seq<string>, mint: string -> string)
    requires Sound(db, mint) && Covers(order, db) && NoRepeats(order) && Possible(stop, order, people)
    ensures Preflight(StateAt(db, stop, order, people, mint))
  {
    hide *;
    var s, t := StateAt(db, stop, order, people, mint), Targets(db, mint);
    SoundInv(db, mint);
    StopLead(stop, order, people, db);
    if stop.AtLead? && stop.k == 1 && Offends(db, order[stop.n]) {
      OffendingState(db, t, stop, order, people, mint);
      InvPreflight(s, Without(t, order[stop.n]), mint);
    } else {
      StopKeeps(db, t, stop, order, people, mint);
      InvPreflight(s, t, mint);
    }
  }

  lemma OffendingState(
    db: Db, t: map<string, string>, stop: Stop, order: seq<string>, people: seq<string>, mint: string -> string)
    requires Inv(db, t, mint) && Covers(order, db) && NoRepeats(order) && Possible(stop, order, people)
    requires stop.AtLead? && stop.k == 1 && Offends(db, order[stop.n])
    ensures Inv(StateAt(db, stop, order, people, mint), Without(t, order[stop.n]), mint)
  {
    hide Inv, SameFinal, Covers, NoRepeats, Offends, Statuses, Leads, Without;
    var n, l := stop.n, order[stop.n];
    var one := Statuses(db, order, |order|);
    StatusesKeep(db, t, order, |order|, mint);
    StatusesCovered(db, order);
    var two := Leads(one, order, n, mint);
    LeadsKeep(one, t, order, n, mint);
    FirstTime(order, n);
    CoversAt(order, one, n);
    OffenceBeforeLeads(db, order, |order|, l);
    OffenceStays(one, t, order, n, mint, l);
    OffenceOpen(two, l);
    LostInv(two, t, mint, l);
  }

  // ---------- an interruption that loses a contact ----------

  /** An open lead linked to its contact by `convertedContactId` alone. */
  const LOOSE_LEAD := Lead("o", Some("New"), true, None, Some("c"), None, None, None, None, None, "")

  const LOOSE_CONTACT := Contact("o", None, None, None, Unset, None, None)

  lemma LooseSound(mint: string -> string)
    ensures var db := Db(map["l" := LOOSE_LEAD], map["c" := LOOSE_CONTACT], map[]);
            && Sound(db, mint) && AllConvertible(db) && Offends(db, "l")
            && Covers(["l"], db) && NoRepeats(["l"]) && Lists(["c"], db)
  {
    var db := Db(map["l" := LOOSE_LEAD], map["c" := LOOSE_CONTACT], map[]);
    assert forall c, l :: !PointsBack(db, c, l);
    hide PointsBack;
    assert Canonical(LOOSE_LEAD.status) == "New" && !Won(LOOSE_LEAD);
    assert "l" in ["l"] && "c" in ["c"];
  }

  /** Some stop of the migration of this one lead cannot be made good by running it again. */
  lemma InterruptionLoses(mint: string -> string)
    ensures var db := Db(map["l" := LOOSE_LEAD], map["c" := LOOSE_CONTACT], map[]);
            && Covers(["l"], db)
            && exists stop :: Possible(stop, ["l"], ["c"]) &&
                              !Resumes(StateAt(db, stop, ["l"], ["c"], mint), RunAll(db, ["l"], ["c"], mint), mint)
  {
    hide *;
    LooseSound(mint);
    ResumeIff(Db(map["l" := LOOSE_LEAD], map["c" := LOOSE_CONTACT], map[]), ["l"], ["c"], mint);
  }
}
