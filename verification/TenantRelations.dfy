/** The tenant-relation audit: which references cross a tenant boundary or dangle, and the repairs it applies. */
module TenantRelations {
  import opened Wrappers

  /** A document: its tenant, its discriminating text fields, its references and its lists of references. */
  datatype Doc = Doc(
    id: string, org: Option<string>, marks: map<string, string>, refs: map<string, string>,
    lists: map<string, seq<string>>)

  type Database = map<string, seq<Doc>>

  datatype Repair = Unset | HardBlocker

  /** Which documents a relation is checked on: all, those whose mark has the value, or those whose mark has not. */
  datatype Match = All | Is(mark: string, value: string) | IsNot(mark: string, value: string)

  /** One relation to check.  An ownership relation goes from the tenant id itself to the organizations. */
  datatype Spec = Spec(
    collection: string, field: string, target: string, owner: bool, list: bool, taskAware: bool, only: Match,
    repair: Repair)

  datatype Finding = Finding(collection: string, id: string, org: string, field: string, ref: string, repair: Repair)

  const MISSING_TARGET := "__missing_target__"

  // ---------- the audit ----------

  predicate Selected(spec: Spec, doc: Doc) {
    match spec.only
    case All => true
    case Is(mark, value) => mark in doc.marks && doc.marks[mark] == value
    case IsNot(mark, value) => !(mark in doc.marks && doc.marks[mark] == value)
  }

  predicate HasOwner(doc: Doc) {
    doc.org.Some? && doc.org.value != ""
  }

  /** The references to look up; a list with an empty entry is passed over whole. */
  function References(spec: Spec, doc: Doc): seq<string> {
    if !Selected(spec, doc) then []
    else if spec.owner then if HasOwner(doc) then [doc.org.value] else []
    else if spec.list then if spec.field in doc.lists && "" !in doc.lists[spec.field] then doc.lists[spec.field] else []
    else if spec.field in doc.refs && doc.refs[spec.field] != "" then [doc.refs[spec.field]]
    else []
  }

  predicate Keyed(spec: Spec, doc: Doc, ref: string) {
    if spec.owner then doc.org == Some(ref) else doc.id == ref
  }

  /** The tenant of the first document the reference leads to. */
  function TargetOrg(docs: seq<Doc>, spec: Spec, ref: string): string {
    if docs == [] then MISSING_TARGET
    else if Keyed(spec, docs[0], ref) then if docs[0].org.Some? then docs[0].org.value else MISSING_TARGET
    else TargetOrg(docs[1..], spec, ref)
  }

  function Docs(db: Database, collection: string): seq<Doc> {
    if collection in db then db[collection] else []
  }

  predicate Crosses(db: Database, spec: Spec, doc: Doc, ref: string) {
    Some(TargetOrg(Docs(db, spec.target), spec, ref)) != doc.org
  }

  /** Generated follow-up tasks need their lead and assignee, so those are never unset. */
  function RepairOf(spec: Spec, doc: Doc): Repair {
    if spec.taskAware && spec.collection == "tasks" && "taskType" in doc.marks
      && doc.marks["taskType"] == "lead_follow_up"
    then HardBlocker else spec.repair
  }

  function OrgText(doc: Doc): string {
    if doc.org.Some? then doc.org.value else ""
  }

  function Found(spec: Spec, doc: Doc, ref: string): Finding {
    Finding(spec.collection, doc.id, OrgText(doc), spec.field, ref, RepairOf(spec, doc))
  }

  function Crossing(db: Database, spec: Spec, doc: Doc, refs: seq<string>): seq<Finding> {
    if refs == [] then []
    else
      var before := Crossing(db, spec, doc, refs[..|refs| - 1]);
      var ref := refs[|refs| - 1];
      if Crosses(db, spec, doc, ref) then before + [Found(spec, doc, ref)] else before
  }

  function Unowned(spec: Spec, docs: seq<Doc>): seq<Finding> {
    if docs == [] then []
    else
      var before, doc := Unowned(spec, docs[..|docs| - 1]), docs[|docs| - 1];
      if spec.owner && Selected(spec, doc) && !HasOwner(doc) then
        before + [Finding(spec.collection, doc.id, OrgText(doc), "organizationId", "", HardBlocker)]
      else before
  }

  function Related(db: Database, spec: Spec, docs: seq<Doc>): seq<Finding> {
    if docs == [] then []
    else
      var doc := docs[|docs| - 1];
      Related(db, spec, docs[..|docs| - 1]) + Crossing(db, spec, doc, References(spec, doc))
  }

  function SpecFindings(db: Database, spec: Spec): seq<Finding> {
    Unowned(spec, Docs(db, spec.collection)) + Related(db, spec, Docs(db, spec.collection))
  }

  function Findings(db: Database, specs: seq<Spec>): seq<Finding> {
    if specs == [] then [] else Findings(db, specs[..|specs| - 1]) + SpecFindings(db, specs[|specs| - 1])
  }

  /** The audit, pushing its findings in the order of the relations and the documents. */
  method CollectFindings(db: Database, specs: seq<Spec>) returns (findings: seq<Finding>)
    ensures findings == Findings(db, specs)
  {
    hide Unowned, Related;
    findings := [];
    var n := 0;
    while n < |specs|
      invariant 0 <= n <= |specs|
      invariant findings == Findings(db, specs[..n])
    {
      assert specs[..n + 1][..n] == specs[..n];
      var more := CollectSpec(db, specs[n]);
      findings := findings + more;
      n := n + 1;
    }
    assert specs[..|specs|] == specs;
  }

  /** One relation: the documents without a tenant, then the references; a collection may not exist. */
  method CollectSpec(db: Database, spec: Spec) returns (findings: seq<Finding>)
    ensures findings == SpecFindings(db, spec)
  {
    if spec.collection !in db {
      return [];
    }
    hide Unowned, Related;
    var unowned := CollectUnowned(spec, db[spec.collection]);
    var related := CollectRelated(db, spec, db[spec.collection]);
    return unowned + related;
  }

  method CollectUnowned(spec: Spec, docs: seq<Doc>) returns (findings: seq<Finding>)
    ensures findings == Unowned(spec, docs)
  {
    findings := [];
    var i := 0;
    while i < |docs|
      invariant 0 <= i <= |docs|
      invariant findings == Unowned(spec, docs[..i])
    {
      assert docs[..i + 1][..i] == docs[..i];
      if spec.owner && Selected(spec, docs[i]) && !HasOwner(docs[i]) {
        findings := findings
          + [Finding(spec.collection, docs[i].id, OrgText(docs[i]), "organizationId", "", HardBlocker)];
      }
      i := i + 1;
    }
    assert docs[..|docs|] == docs;
  }

  method CollectRelated(db: Database, spec: Spec, docs: seq<Doc>) returns (findings: seq<Finding>)
    ensures findings == Related(db, spec, docs)
  {
    hide References, Crossing;
    findings := [];
    var i := 0;
    while i < |docs|
      invariant 0 <= i <= |docs|
      invariant findings == Related(db, spec, docs[..i])
    {
      assert docs[..i + 1][..i] == docs[..i];
      var more := CollectCrossing(db, spec, docs[i]);
      findings := findings + more;
      i := i + 1;
    }
    assert docs[..|docs|] == docs;
  }

  /** The findings of one relation on one document. */
  method CollectCrossing(db: Database, spec: Spec, doc: Doc) returns (findings: seq<Finding>)
    ensures findings == Crossing(db, spec, doc, References(spec, doc))
  {
    var refs := References(spec, doc);
    findings := [];
    var j := 0;
    while j < |refs|
      invariant 0 <= j <= |refs|
      invariant findings == Crossing(db, spec, doc, refs[..j])
    {
      assert refs[..j + 1][..j] == refs[..j];
      if Crosses(db, spec, doc, refs[j]) {
        findings := findings + [Found(spec, doc, refs[j])];
      }
      j := j + 1;
    }
    assert refs[..|refs|] == refs;
  }

  // ---------- what is found, stated without the order ----------

  /** The document, at `i` of its collection, is flagged by this relation. */
  predicate Flagged(db: Database, spec: Spec, i: nat, f: Finding) {
    i < |Docs(db, spec.collection)| &&
    var doc := Docs(db, spec.collection)[i];
    (spec.owner && Selected(spec, doc) && !HasOwner(doc) &&
     f == Finding(spec.collection, doc.id, OrgText(doc), "organizationId", "", HardBlocker)) ||
    (f.ref in References(spec, doc) && Crosses(db, spec, doc, f.ref) && f == Found(spec, doc, f.ref))
  }

  lemma {:induction false} CrossingIff(db: Database, spec: Spec, doc: Doc, refs: seq<string>, f: Finding)
    ensures f in Crossing(db, spec, doc, refs) <==>
            f.ref in refs && Crosses(db, spec, doc, f.ref) && f == Found(spec, doc, f.ref)
  {
    if refs != [] {
      CrossingIff(db, spec, doc, refs[..|refs| - 1], f);
      assert refs == refs[..|refs| - 1] + [refs[|refs| - 1]];
    }
  }

  lemma {:induction false} UnownedIff(spec: Spec, docs: seq<Doc>, f: Finding)
    ensures f in Unowned(spec, docs) <==>
            exists i :: 0 <= i < |docs| && spec.owner && Selected(spec, docs[i]) && !HasOwner(docs[i]) &&
                        f == Finding(spec.collection, docs[i].id, OrgText(docs[i]), "organizationId", "", HardBlocker)
  {
    if docs != [] {
      UnownedIff(spec, docs[..|docs| - 1], f);
    }
  }

  lemma {:induction false} RelatedIff(db: Database, spec: Spec, docs: seq<Doc>, f: Finding)
    ensures f in Related(db, spec, docs) <==>
            exists i :: 0 <= i < |docs| && f.ref in References(spec, docs[i]) && Crosses(db, spec, docs[i], f.ref) &&
                        f == Found(spec, docs[i], f.ref)
  {
    if docs != [] {
      RelatedIff(db, spec, docs[..|docs| - 1], f);
      CrossingIff(db, spec, docs[|docs| - 1], References(spec, docs[|docs| - 1]), f);
    }
  }

  lemma SpecFindingsIff(db: Database, spec: Spec, f: Finding)
    ensures f in SpecFindings(db, spec) <==> exists i: nat :: Flagged(db, spec, i, f)
  {
    var docs := Docs(db, spec.collection);
    hide References, Crosses, Found, Selected, HasOwner, OrgText, Unowned, Related;
    UnownedIff(spec, docs, f);
    RelatedIff(db, spec, docs, f);
    if f in Unowned(spec, docs) {
      var i :| 0 <= i < |docs| && spec.owner && Selected(spec, docs[i]) && !HasOwner(docs[i]) &&
               f == Finding(spec.collection, docs[i].id, OrgText(docs[i]), "organizationId", "", HardBlocker);
      assert Flagged(db, spec, i, f);
    } else if f in Related(db, spec, docs) {
      var i :| 0 <= i < |docs| && f.ref in References(spec, docs[i]) && Crosses(db, spec, docs[i], f.ref) &&
               f == Found(spec, docs[i], f.ref);
      assert Flagged(db, spec, i, f);
    }
  }

  /** A finding is exactly a flagged document: nothing is missed, nothing else is reported. */
  lemma {:induction false} FindingsIff(db: Database, specs: seq<Spec>, f: Finding)
    ensures f in Findings(db, specs) <==> exists n: nat, i: nat :: n < |specs| && Flagged(db, specs[n], i, f)
  {
    hide Flagged, SpecFindings;
    if specs != [] {
      var last := |specs| - 1;
      FindingsIff(db, specs[..last], f);
      SpecFindingsIff(db, specs[last], f);
      assert forall n: nat, i: nat :: n < last ==> Flagged(db, specs[..last][n], i, f) == Flagged(db, specs[n], i, f);
    }
  }

  // ---------- what is found, in terms of the documents alone ----------

  /** The relation is checked on the document. */
  predicate Concerns(spec: Spec, doc: Doc) {
    (spec.only.Is? ==> spec.only.mark in doc.marks && doc.marks[spec.only.mark] == spec.only.value) &&
    (spec.only.IsNot? ==> spec.only.mark !in doc.marks || doc.marks[spec.only.mark] != spec.only.value)
  }

  /** The document holds the reference: its own tenant, an entry of a list without empty ones, or a field. */
  predicate Refers(spec: Spec, doc: Doc, ref: string) {
    ref != "" &&
    if spec.owner then doc.org == Some(ref)
    else if spec.list then spec.field in doc.lists && ref in doc.lists[spec.field] && "" !in doc.lists[spec.field]
    else spec.field in doc.refs && doc.refs[spec.field] == ref
  }

  /** Document `k` is the first one the reference leads to: an organization by its tenant id, another document by
      its id. */
  predicate Target(docs: seq<Doc>, spec: Spec, ref: string, k: nat) {
    k < |docs| && (if spec.owner then docs[k].org == Some(ref) else docs[k].id == ref) &&
    forall j: nat :: j < k ==> if spec.owner then docs[j].org != Some(ref) else docs[j].id != ref
  }

  /** The reference leads to a document of this tenant. */
  ghost predicate LeadsInto(db: Database, spec: Spec, ref: string, org: Option<string>) {
    spec.target in db && exists k: nat :: Target(db[spec.target], spec, ref, k) && db[spec.target][k].org == org != None
  }

  /** The reference leads nowhere, or to a document without a tenant. */
  ghost predicate LeadsNowhere(db: Database, spec: Spec, ref: string) {
    spec.target in db ==> forall k: nat :: Target(db[spec.target], spec, ref, k) ==> db[spec.target][k].org == None
  }

  /** A reference to be reported: it does not lead into the document's own tenant.  A tenant with the very name that
      stands for a missing target is taken for the tenant of every missing one. */
  ghost predicate Strays(db: Database, spec: Spec, doc: Doc, ref: string) {
    !LeadsInto(db, spec, ref, doc.org) && !(doc.org == Some("__missing_target__") && LeadsNowhere(db, spec, ref))
  }

  /** The finding of a reference; those of generated follow-up tasks to their lead and assignee are blockers. */
  predicate Reports(spec: Spec, doc: Doc, f: Finding) {
    && f.collection == spec.collection && f.id == doc.id && f.field == spec.field
    && f.org == (if doc.org.Some? then doc.org.value else "")
    && (f.repair == HardBlocker <==>
      spec.repair == HardBlocker || (spec.taskAware && spec.collection == "tasks" && "taskType" in doc.marks &&
                                     doc.marks["taskType"] == "lead_follow_up"))
  }

  /** The finding of a document without a tenant. */
  predicate ReportsOwnerless(spec: Spec, doc: Doc, f: Finding) {
    spec.owner && (doc.org == None || doc.org == Some("")) &&
    f == Finding(spec.collection, doc.id, "", "organizationId", "", HardBlocker)
  }

  ghost predicate ReportedAt(db: Database, spec: Spec, i: nat, f: Finding) {
    spec.collection in db && i < |db[spec.collection]| &&
    var doc := db[spec.collection][i];
    Concerns(spec, doc) &&
    (ReportsOwnerless(spec, doc, f) ||
     (Refers(spec, doc, f.ref) && Strays(db, spec, doc, f.ref) && Reports(spec, doc, f)))
  }

  lemma TargetRest(docs: seq<Doc>, spec: Spec, ref: string, k: nat)
    requires docs != [] && !Keyed(spec, docs[0], ref)
    ensures Target(docs, spec, ref, k + 1) <==> Target(docs[1..], spec, ref, k)
  {
    if Target(docs[1..], spec, ref, k) {
      forall j: nat | j < k + 1 ensures if spec.owner then docs[j].org != Some(ref) else docs[j].id != ref {
        if j > 0 {
          assert docs[1..][j - 1] == docs[j];
        }
      }
    }
    if Target(docs, spec, ref, k + 1) {
      assert forall j: nat :: j < k ==> docs[1..][j] == docs[j + 1];
    }
  }

  /** The tenant found is that of the first document the reference leads to. */
  lemma {:induction false} TargetOrgIs(docs: seq<Doc>, spec: Spec, ref: string)
    ensures forall k: nat :: Target(docs, spec, ref, k) ==>
              TargetOrg(docs, spec, ref) == if docs[k].org.Some? then docs[k].org.value else "__missing_target__"
    ensures (forall k: nat :: !Target(docs, spec, ref, k)) ==> TargetOrg(docs, spec, ref) == "__missing_target__"
  {
    if docs != [] && !Keyed(spec, docs[0], ref) {
      TargetOrgIs(docs[1..], spec, ref);
      forall k: nat ensures Target(docs, spec, ref, k + 1) <==> Target(docs[1..], spec, ref, k) {
        TargetRest(docs, spec, ref, k);
      }
      assert !Target(docs, spec, ref, 0);
      forall k: nat | Target(docs, spec, ref, k)
        ensures TargetOrg(docs, spec, ref) == if docs[k].org.Some? then docs[k].org.value else "__missing_target__" {
        var m: nat := k - 1;
        assert Target(docs, spec, ref, m + 1);
      }
    } else if docs != [] {
      assert Target(docs, spec, ref, 0);
    }
  }

  lemma TargetOnce(docs: seq<Doc>, spec: Spec, ref: string, k: nat, m: nat)
    requires Target(docs, spec, ref, k) && Target(docs, spec, ref, m)
    ensures k == m < |docs|
  {
  }

  lemma CrossesIff(db: Database, spec: Spec, doc: Doc, ref: string)
    ensures Crosses(db, spec, doc, ref) <==> Strays(db, spec, doc, ref)
  {
    var docs := Docs(db, spec.target);
    TargetOrgIs(docs, spec, ref);
    hide Target, TargetOrg;
    if k: nat :| Target(docs, spec, ref, k) {
      forall m: nat | Target(docs, spec, ref, m) ensures m == k < |docs| {
        TargetOnce(docs, spec, ref, k, m);
      }
      assert spec.target in db;
    }
  }

  lemma ReferencesIff(spec: Spec, doc: Doc, ref: string)
    ensures ref in References(spec, doc) <==> Concerns(spec, doc) && Refers(spec, doc, ref)
  {
  }

  lemma FoundIff(spec: Spec, doc: Doc, f: Finding)
    ensures f == Found(spec, doc, f.ref) <==> Reports(spec, doc, f)
  {
  }

  lemma ReportedAtIff(db: Database, spec: Spec, i: nat, f: Finding)
    ensures Flagged(db, spec, i, f) <==> ReportedAt(db, spec, i, f)
  {
    if i < |Docs(db, spec.collection)| {
      var doc := Docs(db, spec.collection)[i];
      CrossesIff(db, spec, doc, f.ref);
      ReferencesIff(spec, doc, f.ref);
      FoundIff(spec, doc, f);
    }
    hide Crosses, Strays, References, Refers, Found, Reports;
  }

  /** What the audit reports, read off the documents: exactly the checked documents without a tenant and the checked
      references that do not lead into the tenant of their document. */
  lemma ReportedIff(db: Database, specs: seq<Spec>, f: Finding)
    ensures f in Findings(db, specs) <==> exists n: nat, i: nat :: n < |specs| && ReportedAt(db, specs[n], i, f)
  {
    hide Flagged, ReportedAt, Findings;
    FindingsIff(db, specs, f);
    forall n: nat, i: nat | n < |specs| ensures Flagged(db, specs[n], i, f) <==> ReportedAt(db, specs[n], i, f) {
      ReportedAtIff(db, specs[n], i, f);
    }
  }

  /** A document of the tenant "__missing_target__" refers to no document at all, and nothing is reported. */
  lemma SentinelOverlooked()
    ensures var doc := Doc("d", Some("__missing_target__"), map[], map["leadId" := "gone"], map[]);
            var spec := Spec("viewings", "leadId", "leads", false, false, false, All, Unset);
            && !LeadsInto(map["viewings" := [doc]], spec, "gone", doc.org)
            && Findings(map["viewings" := [doc]], [spec]) == []
  {
    var doc := Doc("d", Some("__missing_target__"), map[], map["leadId" := "gone"], map[]);
    var spec := Spec("viewings", "leadId", "leads", false, false, false, All, Unset);
    var db := map["viewings" := [doc]];
    hide Findings;
    forall f ensures f !in Findings(db, [spec]) {
      ReportedIff(db, [spec], f);
      forall i: nat ensures !ReportedAt(db, spec, i, f) {
        assert i == 0 ==> db["viewings"][i] == doc;
      }
    }
    NonemptyHas(Findings(db, [spec]));
  }

  lemma NonemptyHas(fs: seq<Finding>)
    ensures fs != [] ==> exists f :: f in fs
  {
    if fs != [] {
      assert fs[0] in fs;
    }
  }
}
