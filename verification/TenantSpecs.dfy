/** The table of tenant relations that the audit checks. */
module TenantSpecs {
  import opened TenantRelations
  import opened TenantRepair

  /** Every document of the collection belongs to an existing organization. */
  function Owned(collection: string): Spec {
    Spec(collection, "organizationId", "organizations", true, false, false,
         if collection == "users" then IsNot("userRole", "super-admin") else All, HardBlocker)
  }

  /** A reference that must not be touched. */
  function Required(collection: string, field: string, target: string): Spec {
    Spec(collection, field, target, false, false, false, All, HardBlocker)
  }

  /** A required list of references. */
  function RequiredEach(collection: string, field: string, target: string): Spec {
    Spec(collection, field, target, false, true, false, All, HardBlocker)
  }

  /** A required reference of the documents whose mark has the value. */
  function RequiredWhen(collection: string, field: string, target: string, mark: string, value: string): Spec {
    Spec(collection, field, target, false, false, false, Is(mark, value), HardBlocker)
  }

  /** A reference that may be unset; `taskAware` ones are required of generated follow-up tasks. */
  function Optional(collection: string, field: string, target: string, taskAware: bool): Spec {
    Spec(collection, field, target, false, false, taskAware, All, Unset)
  }

  function OwnershipSpecs(): seq<Spec> {
    [
      Owned("users"),
      Owned("properties"),
      Owned("leads"),
      Owned("contacts"),
      Owned("activities"),
      Owned("viewings"),
      Owned("tasks"),
      Owned("agencyreviews"),
      Owned("reviewinvitations"),
      Owned("websitesubmissions"),
      Owned("financetransactions"),
      Owned("financebudgets"),
      Owned("financeinvoices"),
      Owned("financecommissions"),
      Owned("financevendors"),
      Owned("websitepages"),
      Owned("websiterevisions"),
      Owned("domainrecords"),
      Owned("subdomainaliases"),
      Owned("notifications"),
      Owned("websiteassets"),
      Owned("websitepreviewtokens"),
      Owned("websiteuploadintents")
    ]
  }

  function CrmSpecs(): seq<Spec> {
    [
      RequiredEach("leads", "propertyInterest", "properties"),
      Required("leads", "contactId", "contacts"),
      Required("leads", "convertedContactId", "contacts"),
      Required("leads", "assignedAgent", "users"),
      RequiredEach("contacts", "propertyInterest", "properties"),
      Required("contacts", "sourceLeadId", "leads"),
      Required("contacts", "assignedTo", "users")
    ]
  }

  function ActivitySpecs(): seq<Spec> {
    [
      Required("activities", "leadId", "leads"),
      Required("activities", "propertyId", "properties"),
      Required("activities", "contactId", "contacts"),
      Required("activities", "agentId", "users")
    ]
  }

  function WorkSpecs(): seq<Spec> {
    [
      Optional("tasks", "linkedLead", "leads", true),
      Optional("tasks", "linkedProperty", "properties", false),
      Optional("tasks", "assignedAgent", "users", true),
      Optional("viewings", "leadId", "leads", false),
      Required("viewings", "propertyId", "properties"),
      Required("viewings", "agentId", "users")
    ]
  }

  function ReviewSpecs(): seq<Spec> {
    [
      Required("reviewinvitations", "propertyId", "properties"),
      Required("reviewinvitations", "createdBy", "users"),
      Required("agencyreviews", "propertyId", "properties"),
      Required("agencyreviews", "invitationId", "reviewinvitations"),
      Required("agencyreviews", "moderatedBy", "users")
    ]
  }

  function SubmissionSpecs(): seq<Spec> {
    [
      Required("websitesubmissions", "propertyId", "properties"),
      Required("websitesubmissions", "movedToCrmBy", "users"),
      RequiredWhen("websitesubmissions", "linkedEntityId", "leads", "linkedEntityType", "Lead"),
      RequiredWhen("websitesubmissions", "linkedEntityId", "viewings", "linkedEntityType", "Viewing"),
      RequiredWhen("websitesubmissions", "linkedEntityId", "agencyreviews", "linkedEntityType", "AgencyReview"),
      Required("websitesubmissions", "deletedBy", "users")
    ]
  }

  function FinanceSpecs(): seq<Spec> {
    [
      Required("financetransactions", "vendorId", "financevendors"),
      Required("financetransactions", "propertyId", "properties"),
      Required("financetransactions", "leadId", "leads"),
      RequiredWhen("financetransactions", "sourceId", "financeinvoices", "sourceType", "invoice_payment"),
      RequiredWhen("financetransactions", "sourceId", "financecommissions", "sourceType", "commission_payout"),
      Required("financeinvoices", "propertyId", "properties"),
      Required("financeinvoices", "leadId", "leads"),
      Required("financecommissions", "agentId", "users"),
      Required("financecommissions", "propertyId", "properties"),
      Required("financecommissions", "leadId", "leads"),
      Required("financecommissions", "payoutTransactionId", "financetransactions")
    ]
  }

  function WebsiteSpecs(): seq<Spec> {
    [
      Required("websitepages", "updatedBy", "users"),
      Required("websiterevisions", "pageId", "websitepages"),
      Required("websiterevisions", "createdBy", "users")
    ]
  }

  function NotificationSpecs(): seq<Spec> {
    [
      Required("notifications", "userId", "users"),
      Required("notifications", "leadId", "leads")
    ]
  }

  function AllSpecs(): seq<Spec> {
    OwnershipSpecs() + CrmSpecs() + ActivitySpecs() + WorkSpecs() + ReviewSpecs() + SubmissionSpecs() + FinanceSpecs() +
    WebsiteSpecs() + NotificationSpecs()
  }

  // ---------- what the repairs rest on ----------

  /** No repair, or the repair of a single reference of a task or a viewing. */
  predicate Mendable(spec: Spec) {
    spec.repair == Unset ==> !spec.owner && !spec.list && (spec.collection == "tasks" || spec.collection == "viewings")
  }

  predicate AllMendable(specs: seq<Spec>) {
    forall n :: 0 <= n < |specs| ==> Mendable(specs[n])
  }

  lemma OwnershipMendable()
    ensures AllMendable(OwnershipSpecs())
    ensures |OwnershipSpecs()| > 6
    ensures OwnershipSpecs()[5] == Owned("viewings") && OwnershipSpecs()[6] == Owned("tasks")
  {
  }

  lemma RecordsMendable()
    ensures AllMendable(CrmSpecs()) && AllMendable(ActivitySpecs()) && AllMendable(WorkSpecs())
            && AllMendable(ReviewSpecs())
  {
  }

  lemma OthersMendable()
    ensures AllMendable(SubmissionSpecs()) && AllMendable(FinanceSpecs()) && AllMendable(WebsiteSpecs())
    ensures AllMendable(NotificationSpecs())
  {
  }

  /** Tasks and viewings must have a tenant, and only single references of theirs are ever unset. */
  lemma TableRepaired()
    ensures Repaired(AllSpecs())
  {
    hide OwnershipSpecs, CrmSpecs, ActivitySpecs, WorkSpecs, ReviewSpecs, SubmissionSpecs, FinanceSpecs, WebsiteSpecs;
    hide NotificationSpecs;
    OwnershipMendable();
    RecordsMendable();
    OthersMendable();
    var specs := AllSpecs();
    assert specs[5] == Owned("viewings") && specs[6] == Owned("tasks");
    assert OwnedSomewhere(specs, "viewings") && OwnedSomewhere(specs, "tasks");
    assert AllMendable(specs);
  }

  /** For the table in use: applying leaves nothing to find exactly when no blocker was found. */
  lemma TableCleanIff(db: Database)
    requires AllUnique(db)
    ensures Findings(Applied(db, AllSpecs()), AllSpecs()) == [] <==> NoBlocker(Findings(db, AllSpecs()))
  {
    hide *;
    TableRepaired();
    CleanIff(db, AllSpecs());
  }
}
