/** The resumable migration of leads and contacts to one contact per won lead: the documents and the writes. */
module CrmMigration {
  import opened Wrappers

  /**
   * `contact` and `convertedContact` hold ids; a missing name, phone, agent or date is `None`, and
   * `notes` is trimmed.
   */
  datatype Lead = Lead(
    org: string, status: Option<string>, isConverted: bool, contact: Option<string>, convertedContact: Option<string>,
    name: Option<string>, phone: Option<string>, agent: Option<string>,
    followUp: Option<int>, nextFollowUp: Option<int>, notes: string)

  datatype State = Unset | Active | LegacyPreconversion

  datatype Contact = Contact(
    org: string, name: Option<string>, phone: Option<string>, source: Option<string>, state: State,
    owner: Option<string>, followUp: Option<int>)

  /** The stored documents by id; a projected note is keyed by its tenant and lead. */
  datatype Db = Db(leads: map<string, Lead>, contacts: map<string, Contact>, notes: map<(string, string), string>)

  // ---------- reading a lead ----------

  const STATUSES: set<string> := {
    "New", "Contacted", "FollowUpScheduled", "NoResponse", "Interested", "ViewingScheduled", "ViewingCompleted",
    "Negotiation", "OfferMade", "Won", "Lost", "OnHold", "NotQualified", "ReEngaged" }

  function Canonical(status: Option<string>): string {
    if status.None? || status.value == "" then "New"
    else if status.value == "Qualified" then "Interested"
    else status.value
  }

  predicate Won(lead: Lead) {
    Canonical(lead.status) == "Won"
  }

  function Or<T>(first: Option<T>, second: Option<T>): Option<T> {
    if first.Some? then first else second
  }

  function Linked(lead: Lead): Option<string> {
    Or(lead.convertedContact, lead.contact)
  }

  function Date(lead: Lead): Option<int> {
    Or(lead.followUp, lead.nextFollowUp)
  }

  // ---------- the preflight ----------

  predicate KnownStatuses(db: Db) {
    forall l :: l in db.leads ==> Canonical(db.leads[l].status) in STATUSES
  }

  predicate SameLink(a: Lead, b: Lead) {
    Linked(a).Some? && Linked(a) == Linked(b)
  }

  predicate Unambiguous(db: Db) {
    forall l, m :: l in db.leads && m in db.leads && l != m && SameLink(db.leads[l], db.leads[m]) ==>
                     db.leads[l].org != db.leads[m].org
  }

  predicate ValidReference(db: Db, l: string)
    requires l in db.leads
  {
    Linked(db.leads[l]).Some? ==>
      var c := Linked(db.leads[l]).value;
      c in db.contacts && db.contacts[c].org == db.leads[l].org &&
      (db.contacts[c].source == None || db.contacts[c].source == Some(l))
  }

  predicate NoConflict(lead: Lead) {
    lead.contact.Some? && lead.convertedContact.Some? ==> lead.contact == lead.convertedContact
  }

  predicate Preflight(db: Db) {
    KnownStatuses(db) && Unambiguous(db) &&
    forall l :: l in db.leads ==> ValidReference(db, l) && NoConflict(db.leads[l])
  }

  // ---------- the contact of a lead ----------

  /** A contact of the lead's tenant that names it as its source. */
  predicate PointsBack(db: Db, c: string, l: string) {
    c in db.contacts && l in db.leads && db.contacts[c].org == db.leads[l].org && db.contacts[c].source == Some(l)
  }

  /** The linked contact, else the one recovered through its source. */
  ghost function ContactOf(db: Db, l: string): (contact: Option<string>)
    requires l in db.leads
    ensures Linked(db.leads[l]).None? && contact.Some? ==> PointsBack(db, contact.value, l)
    ensures Linked(db.leads[l]).None? && contact.None? ==> forall c :: !PointsBack(db, c, l)
  {
    if Linked(db.leads[l]).Some? then Linked(db.leads[l])
    else if exists c :: PointsBack(db, c, l) then var c :| PointsBack(db, c, l); Some(c)
    else None
  }

  // ---------- the writes ----------

  /** The fields of a contact the migration sets for its lead; what the contact already holds wins. */
  function Patched(contact: Contact, lead: Lead, l: string): Contact {
    contact.(state := if Won(lead) then Active else LegacyPreconversion, source := Some(l),
             owner := Or(contact.owner, lead.agent), followUp := Or(contact.followUp, Date(lead)))
  }

  /** What a contact made for a won lead starts from. */
  function Blank(lead: Lead): Contact {
    Contact(lead.org, lead.name, lead.phone, None, Unset, None, None)
  }

  function PutLead(db: Db, l: string, lead: Lead): Db {
    db.(leads := db.leads[l := lead])
  }

  function PutContact(db: Db, c: string, lead: Lead, l: string): Db {
    db.(contacts := db.contacts[c := Patched(if c in db.contacts then db.contacts[c] else Blank(lead), lead, l)])
  }

  function PutNote(db: Db, l: string, lead: Lead): Db {
    if lead.notes == "" then db else db.(notes := db.notes[(lead.org, l) := lead.notes])
  }

  function SetStatus(db: Db, l: string): Db
    requires l in db.leads
  {
    PutLead(db, l, db.leads[l].(status := Some(Canonical(db.leads[l].status))))
  }

  function Converted(lead: Lead, c: string): Lead {
    lead.(status := Some("Won"), isConverted := true, convertedContact := Some(c), followUp := Date(lead))
  }

  function Reopened(lead: Lead): Lead {
    lead.(status := Some(Canonical(lead.status)), isConverted := false, convertedContact := None,
      followUp := Date(lead))
  }

  /** A contact with neither a source lead nor a state becomes an active one. */
  function Manual(contact: Contact): Contact {
    if contact.source == None && contact.state == Unset then contact.(state := Active) else contact
  }

  function SetManual(db: Db, c: string): Db {
    if c in db.contacts then db.(contacts := db.contacts[c := Manual(db.contacts[c])]) else db
  }

  /** The first `k` of the three writes for one lead: a won lead's contact goes before it, an open lead's after. */
  ghost function LeadWrites(db: Db, l: string, k: nat, mint: string -> string): (r: Db)
    requires l in db.leads && k <= 3
    ensures r.leads.Keys == db.leads.Keys
  {
    hide Patched, Converted, Reopened, Won, Canonical, Blank, Linked, PointsBack;
    var lead, contact := db.leads[l], ContactOf(db, l);
    var c := if contact.Some? then contact.value else mint(l);
    if k == 0 then db
    else if k == 1 then if Won(lead) then PutContact(db, c, lead, l) else PutLead(db, l, Reopened(lead))
    else
      var both := if Won(lead) then PutLead(PutContact(db, c, lead, l), l, Converted(lead, c))
                  else if contact.Some? then PutContact(PutLead(db, l, Reopened(lead)), c, lead, l)
                  else PutLead(db, l, Reopened(lead));
      if k == 2 then both else PutNote(both, l, lead)
  }

  // ---------- a whole run ----------

  predicate Covers(order: seq<string>, db: Db) {
    (forall l :: l in db.leads ==> l in order) && (forall i :: 0 <= i < |order| ==> order[i] in db.leads)
  }

  ghost function Statuses(db: Db, order: seq<string>, n: nat): (r: Db)
    requires Covers(order, db) && n <= |order|
    ensures r.leads.Keys == db.leads.Keys
  {
    if n == 0 then db else SetStatus(Statuses(db, order, n - 1), order[n - 1])
  }

  ghost function Leads(db: Db, order: seq<string>, n: nat, mint: string -> string): (r: Db)
    requires Covers(order, db) && n <= |order|
    ensures r.leads.Keys == db.leads.Keys
  {
    if n == 0 then db else LeadWrites(Leads(db, order, n - 1, mint), order[n - 1], 3, mint)
  }

  ghost function Manuals(db: Db, people: seq<string>, n: nat): (r: Db)
    requires n <= |people|
    ensures r.leads.Keys == db.leads.Keys
  {
    if n == 0 then db else SetManual(Manuals(db, people, n - 1), people[n - 1])
  }

  /** Where a run may stop: among the status updates, after some writes for one lead, or among the manual contacts. */
  datatype Stop = AtStatus(n: nat) | AtLead(n: nat, k: nat) | AtManual(n: nat)

  predicate Possible(stop: Stop, order: seq<string>, people: seq<string>) {
    match stop
    case AtStatus(n) => n <= |order|
    case AtLead(n, k) => n < |order| && k <= 3
    case AtManual(n) => n <= |people|
  }

  ghost function StateAt(db: Db, stop: Stop, order: seq<string>, people: seq<string>, mint: string -> string): (r: Db)
    requires Covers(order, db) && Possible(stop, order, people)
    ensures r.leads.Keys == db.leads.Keys
  {
    match stop
    case AtStatus(n) => Statuses(db, order, n)
    case AtLead(n, k) => LeadWrites(Leads(Statuses(db, order, |order|), order, n, mint), order[n], k, mint)
    case AtManual(n) => Manuals(Leads(Statuses(db, order, |order|), order, |order|, mint), people, n)
  }

  /** Every write of a run. */
  ghost function RunAll(db: Db, order: seq<string>, people: seq<string>, mint: string -> string): Db
    requires Covers(order, db)
  {
    StateAt(db, AtManual(|people|), order, people, mint)
  }
}
