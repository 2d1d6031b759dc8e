/** Applying the audit: refused with a blocker, else every repairable reference is unset. */
module TenantRepair {
  import opened Wrappers
  import opened TenantRelations

  // ---------- the repairs as functions ----------

  predicate Hits(doc: Doc, f: Finding) {
    doc.id == f.id && doc.org == Some(f.org) && f.field in doc.refs && doc.refs[f.field] == f.ref
  }

  /** The first document the update of a finding matches, or the number of documents. */
  function HitAt(docs: seq<Doc>, f: Finding): (i: nat)
    ensures i <= |docs|
    ensures i < |docs| ==> Hits(docs[i], f)
    ensures forall k :: 0 <= k < i ==> !Hits(docs[k], f)
  {
    if docs == [] || Hits(docs[0], f) then 0 else 1 + HitAt(docs[1..], f)
  }

  function Unreferenced(doc: Doc, field: string): Doc {
    doc.(refs := doc.refs - {field})
  }

  function RepairOne(db: Database, f: Finding): Database {
    var docs := Docs(db, f.collection);
    var i := HitAt(docs, f);
    if i < |docs| then db[f.collection := docs[i := Unreferenced(docs[i], f.field)]] else db
  }

  function RepairAll(db: Database, fs: seq<Finding>, n: nat): Database
    requires n <= |fs|
  {
    if n == 0 then db else RepairOne(RepairAll(db, fs, n - 1), fs[n - 1])
  }

  function Repairable(fs: seq<Finding>): (r: seq<Finding>)
    ensures forall f :: f in r <==> f in fs && f.repair == Unset
  {
    if fs == [] then []
    else
      var before, f := Repairable(fs[..|fs| - 1]), fs[|fs| - 1];
      if f.repair == Unset then before + [f] else before
  }

  predicate NoBlocker(fs: seq<Finding>) {
    forall f :: f in fs ==> f.repair == Unset
  }

  function Applied(db: Database, specs: seq<Spec>): Database {
    var fs := Findings(db, specs);
    if NoBlocker(fs) then RepairAll(db, Repairable(fs), |Repairable(fs)|) else db
  }

  // ---------- the run ----------

  class AuditRun {
    var db: Database

    constructor (db: Database)
      ensures this.db == db
    {
      this.db := db;
    }

    /** The update for one finding; true when a document was modified. */
    method UnsetOne(f: Finding) returns (modified: bool)
      modifies this
      ensures db == RepairOne(old(db), f)
      ensures modified <==> db != old(db)
    {
      RepairShows(db, f);
      if f.collection !in db {
        return false;
      }
      var docs := db[f.collection];
      var i := HitAt(docs, f);
      if i == |docs| {
        return false;
      }
      db := db[f.collection := docs[i := Unreferenced(docs[i], f.field)]];
      return true;
    }

    /** Audits, and on apply repairs.  With a blocker nothing is written. */
    method Run(specs: seq<Spec>, apply: bool) returns (refused: bool, repaired: nat)
      modifies this
      ensures refused <==> apply && !NoBlocker(Findings(old(db), specs))
      ensures db == if apply then Applied(old(db), specs) else old(db)
      ensures repaired == 0 <==> db == old(db)
    {
      hide *;
      refused, repaired := false, 0;
      var findings := CollectFindings(db, specs);
      AppliedIs(db, specs);
      if !apply {
        return;
      }
      if !NoBlocker(findings) {
        return true, 0;
      }
      LessReflexive(db);
      var repairable := Repairable(findings);
      NoRepairs(db, repairable);
      var n := 0;
      while n < |repairable|
        invariant 0 <= n <= |repairable|
        invariant db == RepairAll(old(db), repairable, n)
        invariant repaired == 0 <==> db == old(db)
        invariant Less(db, old(db))
      {
        var f := repairable[n];
        NextRepair(old(db), repairable, n);
        RepairLess(db, f);
        LessTransitive(RepairOne(db, f), db, old(db));
        LessAntisymmetric(RepairOne(db, f), db, old(db));
        var modified := UnsetOne(f);
        if modified {
          repaired := repaired + 1;
        }
        n := n + 1;
      }
    }
  }

  // ---------- repairs only take references away ----------

  predicate Shrunk(after: Doc, doc: Doc) {
    after.id == doc.id && after.org == doc.org && after.marks == doc.marks && after.lists == doc.lists &&
    forall field :: field in after.refs ==> field in doc.refs && after.refs[field] == doc.refs[field]
  }

  ghost predicate Less(after: Database, db: Database) {
    after.Keys == db.Keys &&
    forall c, i :: c in db && 0 <= i ==> LessAt(after, db, c, i)
  }

  predicate LessAt(after: Database, db: Database, c: string, i: int)
    requires c in db && c in after
  {
    |after[c]| == |db[c]| && (0 <= i < |db[c]| ==> Shrunk(after[c][i], db[c][i]))
  }

  lemma LessReflexive(db: Database)
    ensures Less(db, db)
  {
  }

  lemma LessOf(after: Database, db: Database, c: string, i: int)
    requires Less(after, db) && c in db && 0 <= i
    ensures c in after && LessAt(after, db, c, i)
  {
  }

  lemma LessTransitive(a: Database, b: Database, c: Database)
    requires Less(a, b) && Less(b, c)
    ensures Less(a, c)
  {
    hide Less;
    LessKeys(a, b);
    LessKeys(b, c);
    forall k, i | k in c && 0 <= i ensures LessAt(a, c, k, i) {
      LessOf(a, b, k, i);
      LessOf(b, c, k, i);
    }
    assert Less(a, c) by { LessIntro(a, c); }
  }

  lemma LessKeys(a: Database, b: Database)
    requires Less(a, b)
    ensures a.Keys == b.Keys
  {
  }

  lemma LessIntro(a: Database, b: Database)
    requires a.Keys == b.Keys && forall c, i :: c in b && 0 <= i ==> LessAt(a, b, c, i)
    ensures Less(a, b)
  {
  }

  lemma RepairLess(db: Database, f: Finding)
    ensures Less(RepairOne(db, f), db)
  {
    hide HitAt, Hits;
    forall c, i | c in db && 0 <= i ensures LessAt(RepairOne(db, f), db, c, i) {
    }
  }

  /** A repair that finds its document changes it. */
  lemma RepairShows(db: Database, f: Finding)
    ensures HitAt(Docs(db, f.collection), f) < |Docs(db, f.collection)| <==> RepairOne(db, f) != db
  {
    var docs := Docs(db, f.collection);
    var i := HitAt(docs, f);
    if i < |docs| {
      assert f.field in docs[i].refs && f.field !in Unreferenced(docs[i], f.field).refs;
      assert RepairOne(db, f)[f.collection][i] != db[f.collection][i];
    }
  }

  /** Once something is taken away it does not come back. */
  lemma LessAntisymmetric(a: Database, b: Database, c: Database)
    requires Less(a, b) && Less(b, c)
    ensures a == c ==> a == b
  {
    if a == c {
      forall k | k in c ensures a[k] == b[k] {
        LessOf(a, b, k, 0);
        LessOf(b, c, k, 0);
        forall i | 0 <= i < |c[k]| ensures a[k][i] == b[k][i] {
          LessOf(a, b, k, i);
          LessOf(b, c, k, i);
          assert a[k][i].refs == b[k][i].refs;
        }
      }
      LessKeys(a, b);
    }
  }

  // ---------- a smaller database has no new finding ----------

  lemma {:induction false} TargetSame(after: seq<Doc>, docs: seq<Doc>, spec: Spec, ref: string)
    requires |after| == |docs| && forall i :: 0 <= i < |docs| ==>
             after[i].id == docs[i].id && after[i].org == docs[i].org
    ensures TargetOrg(after, spec, ref) == TargetOrg(docs, spec, ref)
  {
    if docs != [] && !Keyed(spec, docs[0], ref) {
      TargetSame(after[1..], docs[1..], spec, ref);
    }
  }

  lemma LessDocs(after: Database, db: Database, c: string)
    requires Less(after, db)
    ensures |Docs(after, c)| == |Docs(db, c)|
    ensures forall i :: 0 <= i < |Docs(db, c)| ==> Shrunk(Docs(after, c)[i], Docs(db, c)[i])
  {
    if c in db {
      LessOf(after, db, c, 0);
      forall i | 0 <= i < |db[c]| ensures Shrunk(after[c][i], db[c][i]) {
        LessOf(after, db, c, i);
      }
    }
  }

  lemma FlaggedBefore(after: Database, db: Database, spec: Spec, i: nat, f: Finding)
    requires Less(after, db) && Flagged(after, spec, i, f)
    ensures Flagged(db, spec, i, f)
  {
    LessDocs(after, db, spec.collection);
    LessDocs(after, db, spec.target);
    TargetSame(Docs(after, spec.target), Docs(db, spec.target), spec, f.ref);
  }

  /** Taking references away introduces no finding. */
  lemma NoNewFinding(after: Database, db: Database, specs: seq<Spec>, f: Finding)
    requires Less(after, db) && f in Findings(after, specs)
    ensures f in Findings(db, specs)
  {
    hide Flagged, Less, Findings;
    FindingsIff(after, specs, f);
    FindingsIff(db, specs, f);
    var n: nat, i: nat :| n < |specs| && Flagged(after, specs[n], i, f);
    FlaggedBefore(after, db, specs[n], i, f);
  }

  // ---------- every repair removes its finding ----------

  predicate UniqueIds(docs: seq<Doc>) {
    forall i, j :: 0 <= i < j < |docs| ==> docs[i].id != docs[j].id
  }

  lemma RepairRemoves(db: Database, f: Finding, i: nat)
    requires i < |Docs(db, f.collection)| && UniqueIds(Docs(db, f.collection))
    ensures i < |Docs(RepairOne(db, f), f.collection)| && !Hits(Docs(RepairOne(db, f), f.collection)[i], f)
  {
  }

  lemma {:induction false} RepairAllLess(db: Database, fs: seq<Finding>, n: nat, m: nat)
    requires n <= m <= |fs|
    ensures Less(RepairAll(db, fs, m), RepairAll(db, fs, n))
  {
    hide Less, RepairOne;
    if n == m {
      LessReflexive(RepairAll(db, fs, m));
    } else {
      RepairAllLess(db, fs, n, m - 1);
      RepairLess(RepairAll(db, fs, m - 1), fs[m - 1]);
      LessTransitive(RepairAll(db, fs, m), RepairAll(db, fs, m - 1), RepairAll(db, fs, n));
    }
  }

  lemma StillUnique(after: Database, db: Database, c: string)
    requires Less(after, db) && UniqueIds(Docs(db, c))
    ensures UniqueIds(Docs(after, c))
  {
    LessDocs(after, db, c);
    var docs := Docs(after, c);
    forall i, j | 0 <= i < j < |docs| ensures docs[i].id != docs[j].id {
      assert Shrunk(docs[i], Docs(db, c)[i]) && Shrunk(docs[j], Docs(db, c)[j]);
    }
  }

  lemma StillNoHit(after: Database, db: Database, f: Finding, i: nat)
    requires Less(after, db) && i < |Docs(db, f.collection)| && !Hits(Docs(db, f.collection)[i], f)
    ensures i < |Docs(after, f.collection)| && !Hits(Docs(after, f.collection)[i], f)
  {
    LessDocs(after, db, f.collection);
    assert Shrunk(Docs(after, f.collection)[i], Docs(db, f.collection)[i]);
  }

  /** After all repairs no document holds the reference of any of the findings. */
  lemma AllRemoved(db: Database, fs: seq<Finding>, k: nat, i: nat)
    requires k < |fs| && UniqueIds(Docs(db, fs[k].collection)) && i < |Docs(db, fs[k].collection)|
    ensures i < |Docs(RepairAll(db, fs, |fs|), fs[k].collection)|
    ensures !Hits(Docs(RepairAll(db, fs, |fs|), fs[k].collection)[i], fs[k])
  {
    hide Less, Hits, UniqueIds, RepairOne;
    var f, before, next := fs[k], RepairAll(db, fs, k), RepairAll(db, fs, k + 1);
    RepairAllLess(db, fs, 0, k);
    LessDocs(before, db, f.collection);
    StillUnique(before, db, f.collection);
    RepairRemoves(before, f, i);
    RepairAllLess(db, fs, k + 1, |fs|);
    StillNoHit(RepairAll(db, fs, |fs|), next, f, i);
  }

  // ---------- the main result ----------

  /** The repairable relations are single references, from collections all of whose documents must have a tenant. */
  predicate Repaired(specs: seq<Spec>) {
    forall n :: 0 <= n < |specs| && specs[n].repair == Unset ==>
      !specs[n].owner && !specs[n].list && OwnedSomewhere(specs, specs[n].collection)
  }

  predicate OwnedSomewhere(specs: seq<Spec>, c: string) {
    exists m :: 0 <= m < |specs| && specs[m].owner && specs[m].only == All && specs[m].collection == c
  }

  ghost predicate AllUnique(db: Database) {
    forall c :: UniqueIds(Docs(db, c))
  }

  /** Without blockers, a document of a repairable relation has a tenant. */
  lemma HasTenant(db: Database, specs: seq<Spec>, n: nat, i: nat)
    requires Repaired(specs) && NoBlocker(Findings(db, specs)) && n < |specs| && specs[n].repair == Unset
    requires i < |Docs(db, specs[n].collection)|
    ensures HasOwner(Docs(db, specs[n].collection)[i])
  {
    hide Findings, Crosses, References;
    assert OwnedSomewhere(specs, specs[n].collection);
    var m :| 0 <= m < |specs| && specs[m].owner && specs[m].only == All && specs[m].collection == specs[n].collection;
    var doc := Docs(db, specs[n].collection)[i];
    var f := Finding(specs[m].collection, doc.id, OrgText(doc), "organizationId", "", HardBlocker);
    FindingsIff(db, specs, f);
    assert !HasOwner(doc) ==> Flagged(db, specs[m], i, f);
  }

  /** The finding that would be left was repaired. */
  lemma NothingLeft(db: Database, specs: seq<Spec>, n: nat, i: nat, f: Finding)
    requires Repaired(specs) && AllUnique(db) && NoBlocker(Findings(db, specs)) && n < |specs|
    ensures !Flagged(Applied(db, specs), specs[n], i, f)
  {
    hide Findings, Crosses, NoBlocker, Repaired, AllUnique, RepairAll, TargetOrg;
    var fs := Repairable(Findings(db, specs));
    var after := Applied(db, specs);
    assert after == RepairAll(db, fs, |fs|);
    NoRepairs(db, fs);
    if Flagged(after, specs[n], i, f) {
      RepairAllLess(db, fs, 0, |fs|);
      FlaggedBefore(after, db, specs[n], i, f);
      FindingsIff(db, specs, f);
      BlockerFree(Findings(db, specs), f);
      LeftHits(db, after, specs, n, i, f);
      var k :| 0 <= k < |fs| && fs[k] == f;
      UniqueAt(db, f.collection);
      AllRemoved(db, fs, k, i);
      assert false;
    }
  }

  lemma AppliedIs(db: Database, specs: seq<Spec>)
    ensures var fs := Findings(db, specs);
            Applied(db, specs) == if NoBlocker(fs) then RepairAll(db, Repairable(fs), |Repairable(fs)|) else db
  {
  }

  lemma NextRepair(db: Database, fs: seq<Finding>, n: nat)
    requires n < |fs|
    ensures RepairAll(db, fs, n + 1) == RepairOne(RepairAll(db, fs, n), fs[n])
  {
  }

  lemma NoRepairs(db: Database, fs: seq<Finding>)
    ensures RepairAll(db, fs, 0) == db
  {
  }

  lemma BlockerFree(fs: seq<Finding>, f: Finding)
    requires NoBlocker(fs) && f in fs
    ensures f.repair == Unset
  {
  }

  lemma UniqueAt(db: Database, c: string)
    requires AllUnique(db)
    ensures UniqueIds(Docs(db, c))
  {
  }

  /** A flagged reference to be unset is one its update would still find. */
  lemma LeftHits(db: Database, after: Database, specs: seq<Spec>, n: nat, i: nat, f: Finding)
    requires Repaired(specs) && NoBlocker(Findings(db, specs)) && n < |specs| && Less(after, db)
    requires Flagged(after, specs[n], i, f) && f.repair == Unset && Flagged(db, specs[n], i, f)
    ensures f.collection == specs[n].collection && i < |Docs(db, f.collection)| && i < |Docs(after, f.collection)|
    ensures Hits(Docs(after, f.collection)[i], f)
  {
    hide Findings, Crosses, Less;
    LessDocs(after, db, f.collection);
    assert specs[n].repair == Unset;
    HasTenant(db, specs, n, i);
    assert Shrunk(Docs(after, f.collection)[i], Docs(db, f.collection)[i]);
  }

  /** A fresh audit after applying finds nothing exactly when the first one found no blocker. */
  lemma CleanIff(db: Database, specs: seq<Spec>)
    requires Repaired(specs) && AllUnique(db)
    ensures Findings(Applied(db, specs), specs) == [] <==> NoBlocker(Findings(db, specs))
  {
    hide Findings, Flagged, Repaired, AllUnique, RepairAll;
    var after := Applied(db, specs);
    if NoBlocker(Findings(db, specs)) {
      var left := Findings(after, specs);
      if left != [] {
        FindingsIff(after, specs, left[0]);
        var n: nat, i: nat :| n < |specs| && Flagged(after, specs[n], i, left[0]);
        NothingLeft(db, specs, n, i, left[0]);
        assert false;
      }
    }
  }

  /** However far the repairs have come, they have introduced no finding. */
  lemma NoFindingIntroduced(db: Database, specs: seq<Spec>, fs: seq<Finding>, n: nat, f: Finding)
    requires n <= |fs| && f in Findings(RepairAll(db, fs, n), specs)
    ensures f in Findings(db, specs)
  {
    hide Less, Findings;
    RepairAllLess(db, fs, 0, n);
    NoRepairs(db, fs);
    NoNewFinding(RepairAll(db, fs, n), db, specs, f);
  }

  /** After an apply that was not refused every reference that is looked up leads to a document of its own tenant. */
  lemma AppliedLeadsInto(db: Database, specs: seq<Spec>, n: nat, i: nat, ref: string)
    requires Repaired(specs) && AllUnique(db) && NoBlocker(Findings(db, specs)) && n < |specs|
    requires var after := Applied(db, specs);
             && specs[n].collection in after && i < |after[specs[n].collection]|
             && var doc := after[specs[n].collection][i];
                Concerns(specs[n], doc) && Refers(specs[n], doc, ref) && doc.org != Some(MISSING_TARGET)
    ensures var after := Applied(db, specs);
            LeadsInto(after, specs[n], ref, after[specs[n].collection][i].org)
  {
    var after := Applied(db, specs);
    var spec, doc: Doc := specs[n], after[specs[n].collection][i];
    CleanIff(db, specs);
    hide Applied, Findings, Repaired, AllUnique, NoBlocker, LeadsInto, LeadsNowhere, Concerns, Refers;
    var f := Found(spec, doc, ref);
    FoundIff(spec, doc, f);
    ReportedIff(after, specs, f);
    assert Strays(after, spec, doc, ref) ==> ReportedAt(after, spec, i, f);
  }

  /** And every document whose tenant is checked has one. */
  lemma AppliedOwned(db: Database, specs: seq<Spec>, n: nat, i: nat)
    requires Repaired(specs) && AllUnique(db) && NoBlocker(Findings(db, specs)) && n < |specs| && specs[n].owner
    requires var after := Applied(db, specs);
             && specs[n].collection in after && i < |after[specs[n].collection]|
             && Concerns(specs[n], after[specs[n].collection][i])
    ensures var org := Applied(db, specs)[specs[n].collection][i].org; org != None && org != Some("")
  {
    var after := Applied(db, specs);
    var spec, doc: Doc := specs[n], after[specs[n].collection][i];
    CleanIff(db, specs);
    hide Applied, Findings, Repaired, AllUnique, NoBlocker, Strays, Concerns, Refers;
    var f := Finding(spec.collection, doc.id, "", "organizationId", "", HardBlocker);
    ReportedIff(after, specs, f);
    assert ReportsOwnerless(spec, doc, f) ==> ReportedAt(after, spec, i, f);
  }

  // ---------- what applying leaves alone ----------

  /** The finding is about this field of the document. */
  predicate Names(f: Finding, c: string, doc: Doc, field: string) {
    f.collection == c && f.id == doc.id && Some(f.org) == doc.org && f.field == field &&
    field in doc.refs && doc.refs[field] == f.ref
  }

  lemma RepairOneAt(db: Database, f: Finding, c: string, i: nat, field: string)
    requires c in db && i < |db[c]| && UniqueIds(db[c])
    ensures c in RepairOne(db, f) && i < |RepairOne(db, f)[c]|
    ensures var doc, after := db[c][i], RepairOne(db, f)[c][i];
            && Shrunk(after, doc)
            && (field in after.refs <==> field in doc.refs && !Names(f, c, doc, field))
  {
    var docs := Docs(db, f.collection);
    var k := HitAt(docs, f);
    hide HitAt;
  }

  lemma NamesSame(f: Finding, c: string, doc: Doc, after: Doc, field: string)
    requires Shrunk(after, doc) && field in after.refs
    ensures Names(f, c, after, field) <==> Names(f, c, doc, field)
  {
  }

  lemma {:induction false} RepairAllAt(db: Database, fs: seq<Finding>, n: nat, c: string, i: nat, field: string)
    requires n <= |fs| && c in db && i < |db[c]| && UniqueIds(db[c])
    ensures c in RepairAll(db, fs, n) && i < |RepairAll(db, fs, n)[c]|
    ensures var doc, after := db[c][i], RepairAll(db, fs, n)[c][i];
            && Shrunk(after, doc)
            && (field in after.refs <==>
              field in doc.refs && forall k: nat :: k < n ==> !Names(fs[k], c, doc, field))
  {
    hide RepairOne, Names;
    if n > 0 {
      var before := RepairAll(db, fs, n - 1);
      RepairAllAt(db, fs, n - 1, c, i, field);
      RepairAllLess(db, fs, 0, n - 1);
      NoRepairs(db, fs);
      StillUnique(before, db, c);
      hide Less, UniqueIds;
      RepairOneAt(before, fs[n - 1], c, i, field);
      if field in before[c][i].refs {
        NamesSame(fs[n - 1], c, db[c][i], before[c][i], field);
      }
    }
  }

  /** Applying changes nothing but the fields reported for it: a document keeps its id, tenant, marks and lists, and of
      its references exactly those no finding to be unset is about. */
  lemma AppliedKeeps(db: Database, specs: seq<Spec>, c: string, i: nat, field: string)
    requires AllUnique(db) && NoBlocker(Findings(db, specs)) && c in db && i < |db[c]|
    ensures var after := Applied(db, specs);
            && after.Keys == db.Keys && |after[c]| == |db[c]|
            && after[c][i].id == db[c][i].id && after[c][i].org == db[c][i].org
            && after[c][i].marks == db[c][i].marks && after[c][i].lists == db[c][i].lists
            && (field in after[c][i].refs <==>
              field in db[c][i].refs &&
              forall f :: f in Findings(db, specs) && f.repair == Unset ==> !Names(f, c, db[c][i], field))
            && (field in after[c][i].refs ==> after[c][i].refs[field] == db[c][i].refs[field])
  {
    var fs := Repairable(Findings(db, specs));
    AppliedIs(db, specs);
    UniqueAt(db, c);
    RepairAllAt(db, fs, |fs|, c, i, field);
    RepairAllLess(db, fs, 0, |fs|);
    NoRepairs(db, fs);
    LessKeys(RepairAll(db, fs, |fs|), db);
    LessDocs(RepairAll(db, fs, |fs|), db, c);
    hide Applied, Findings, RepairAll, Less, AllUnique, UniqueIds, Names, NoBlocker;
    forall f | f in fs ensures exists k: nat :: k < |fs| && fs[k] == f {
      var k :| 0 <= k < |fs| && fs[k] == f;
    }
  }
}
