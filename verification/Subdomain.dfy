/** Subdomains: the normaliser, the generator of a free name, and the plan that gives every organisation one. */
module Subdomain {
  import opened Wrappers
  import opened Identity

  // ---------- the normaliser ----------

  predicate IsAlnum(c: char) {
    'a' <= c <= 'z' || '0' <= c <= '9'
  }

  predicate IsSafe(c: char) {
    IsAlnum(c) || c == '-'
  }

  predicate AllSafe(s: string) {
    forall i :: 0 <= i < |s| ==> IsSafe(s[i])
  }

  /** Lower case, and a hyphen for every other character. */
  function Hyphenate(s: string): (r: string)
    ensures |r| == |s| && AllSafe(r)
  {
    seq(|s|, i requires 0 <= i < |s| => if IsSafe(LowerChar(s[i])) then LowerChar(s[i]) else '-')
  }

  predicate Doubled(s: string) {
    exists i :: 0 <= i < |s| - 1 && s[i] == '-' && s[i + 1] == '-'
  }

  /** `replace(/-+/g, '-')`. */
  function Collapse(s: string): string {
    if |s| < 2 then s
    else if s[0] == '-' && s[1] == '-' then Collapse(s[1..])
    else [s[0]] + Collapse(s[1..])
  }

  /** `replace(/^-|-$/g, '')`. */
  function StripEnds(s: string): string {
    var t := if s != "" && s[0] == '-' then s[1..] else s;
    if t != "" && t[|t| - 1] == '-' then t[..|t| - 1] else t
  }

  function Cut(s: string, n: nat): (r: string)
    ensures |r| <= n && r <= s && (|s| <= n ==> r == s)
  {
    if |s| <= n then s else s[..n]
  }

  function NormalizeSubdomain(value: string): string {
    Cut(StripEnds(Collapse(Hyphenate(value))), 48)
  }

  const RESERVED: set<string> := {
    "www", "api", "app", "admin", "super-admin", "support", "help", "billing", "mail",
    "cdn", "static", "assets", "status", "demo", "staging", "dev", "test", "login", "signup"
  }

  lemma {:induction false} CollapseFacts(s: string)
    requires AllSafe(s)
    ensures AllSafe(Collapse(s)) && !Doubled(Collapse(s))
    ensures s != "" ==> Collapse(s) != "" && Collapse(s)[0] == s[0]
    ensures !Doubled(s) ==> Collapse(s) == s
    decreases |s|
  {
    if |s| >= 2 {
      CollapseFacts(s[1..]);
      var tail := Collapse(s[1..]);
      assert Doubled(s[1..]) ==> Doubled(s) by {
        if Doubled(s[1..]) {
          var i :| 0 <= i < |s[1..]| - 1 && s[1..][i] == '-' && s[1..][i + 1] == '-';
          assert s[i + 1] == '-' && s[i + 2] == '-';
        }
      }
      if !(s[0] == '-' && s[1] == '-') {
        var r := [s[0]] + tail;
        forall i | 0 <= i < |r| - 1 ensures !(r[i] == '-' && r[i + 1] == '-') {
          if i > 0 {
            assert r[i] == tail[i - 1] && r[i + 1] == tail[i];
          }
        }
      } else {
        assert s[0] == '-' && s[0 + 1] == '-';
      }
    }
  }

  /** Safe characters, no doubled hyphen and no hyphen in front. */
  predicate Tidy(s: string) {
    AllSafe(s) && !Doubled(s) && (s == "" || s[0] != '-')
  }

  predicate EndsInHyphen(s: string) {
    s != "" && s[|s| - 1] == '-'
  }

  lemma TidyPrefix(s: string, p: string)
    requires Tidy(s) && p <= s
    ensures Tidy(p)
  {
    assert forall i :: 0 <= i < |p| ==> p[i] == s[i];
  }

  lemma StripFacts(s: string)
    requires AllSafe(s) && !Doubled(s)
    ensures Tidy(StripEnds(s)) && !EndsInHyphen(StripEnds(s))
    ensures (s == "" || s[0] != '-') && !EndsInHyphen(s) ==> StripEnds(s) == s
  {
    var t := if s != "" && s[0] == '-' then s[1..] else s;
    if s != "" && s[0] == '-' {
      assert forall i :: 0 <= i < |t| ==> t[i] == s[i + 1];
      if |s| > 1 {
        assert !(s[0] == '-' && s[0 + 1] == '-');
      }
    }
    if EndsInHyphen(t) && |t| > 1 {
      var k, last := |t| - 2, t[|t| - 1];
      assert !(t[k] == '-' && last == '-');
    }
  }

  lemma HyphenateSafe(s: string)
    requires AllSafe(s)
    ensures Hyphenate(s) == s
  {
  }

  /** A normalised name is tidy and at most 48 long; cutting may leave a hyphen at its end. */
  lemma NormalizedIsTidy(value: string)
    ensures var n := NormalizeSubdomain(value);
            Tidy(n) && |n| <= 48 && (EndsInHyphen(n) ==> |n| == 48)
  {
    var h := Hyphenate(value);
    CollapseFacts(h);
    StripFacts(Collapse(h));
    TidyPrefix(StripEnds(Collapse(h)), NormalizeSubdomain(value));
  }

  /** The normaliser leaves a tidy name alone exactly when it is at most 48 long and does not end in a hyphen. */
  lemma FixedIff(s: string)
    requires AllSafe(s)
    ensures NormalizeSubdomain(s) == s <==> Tidy(s) && |s| <= 48 && !EndsInHyphen(s)
  {
    HyphenateSafe(s);
    CollapseFacts(s);
    NormalizedIsTidy(s);
    if Tidy(s) {
      StripFacts(s);
      assert |StripEnds(s)| == if EndsInHyphen(s) then |s| - 1 else |s|;
    }
  }

  /** Normalising twice may differ from normalising once, exactly when the cut exposes a hyphen; from the
      second time on nothing changes. */
  lemma NormalizeTwice(value: string)
    ensures var once := NormalizeSubdomain(value);
            var twice := NormalizeSubdomain(once);
            && (twice == once <==> !EndsInHyphen(once))
            && NormalizeSubdomain(twice) == twice
  {
    var once := NormalizeSubdomain(value);
    NormalizedIsTidy(value);
    FixedIff(once);
    HyphenateSafe(once);
    CollapseFacts(once);
    StripFacts(once);
    var twice := NormalizeSubdomain(once);
    assert |StripEnds(once)| <= |once|;
    assert twice == StripEnds(once);
    FixedIff(twice);
  }

  // ---------- the generator ----------

  /** The letters and digits of an organisation id, in lower case: `replace(/[^a-z0-9]/gi, '').toLowerCase()`. */
  function AlnumOf(s: string): (r: string)
    ensures forall i :: 0 <= i < |r| ==> IsAlnum(r[i])
  {
    if s == "" then ""
    else if IsAlnum(LowerChar(s[0])) then [LowerChar(s[0])] + AlnumOf(s[1..])
    else AlnumOf(s[1..])
  }

  function LastTen(s: string): (r: string)
    ensures |r| <= 10 && forall c :: c in r ==> c in s
  {
    if |s| <= 10 then s else s[|s| - 10..]
  }

  function Seed(agencyName: string): string {
    var normalized := NormalizeSubdomain(if agencyName == "" then "agency" else agencyName);
    Cut(if normalized == "" then "agency" else normalized, 40)
  }

  function SafeSeed(agencyName: string): string {
    var seed := Seed(agencyName);
    if seed in RESERVED then "agency-" + seed else seed
  }

  function Suffix(organizationId: string): string {
    var suffix := LastTen(AlnumOf(organizationId));
    if suffix == "" then "tenant" else suffix
  }

  function StripTrailing(s: string): string {
    if EndsInHyphen(s) then StripTrailing(s[..|s| - 1]) else s
  }

  function Base(organizationId: string, agencyName: string): string {
    StripTrailing(Cut(SafeSeed(agencyName) + "-" + Suffix(organizationId), 63))
  }

  function Decimal(n: nat): string {
    if n < 10 then [n as char + '0'] else Decimal(n / 10) + [(n % 10) as char + '0']
  }

  /** The base itself, then the base with `-2`, `-3` and so on behind it. */
  function Candidate(base: string, attempt: nat): string {
    if attempt < 2 then base
    else
      var suffix := "-" + Decimal(attempt);
      Cut(base, if |suffix| <= 63 then 63 - |suffix| else 0) + suffix
  }

  predicate Free(occupied: set<string>, name: string) {
    name !in occupied && name !in RESERVED
  }

  method GeneratedSubdomain(organizationId: string, agencyName: string, occupied: set<string>)
    returns (r: Option<string>)
    ensures r == Generate(Base(organizationId, agencyName), occupied, 1)
  {
    var normalizedAgency := NormalizeSubdomain(if agencyName == "" then "agency" else agencyName);
    var seed := Cut(if normalizedAgency == "" then "agency" else normalizedAgency, 40);
    var safeSeed := if seed in RESERVED then "agency-" + seed else seed;
    var suffix := LastTen(AlnumOf(organizationId));
    var stableSuffix := if suffix == "" then "tenant" else suffix;
    var base := StripTrailing(Cut(safeSeed + "-" + stableSuffix, 63));
    hide Cut, StripTrailing, NormalizeSubdomain, AlnumOf, RESERVED;
    if Free(occupied, base) {
      return Some(base);
    }
    var attempt := 2;
    while attempt <= 999
      invariant 2 <= attempt <= 1000
      invariant Generate(base, occupied, 1) == Generate(base, occupied, attempt)
    {
      var candidate := Candidate(base, attempt);
      if Free(occupied, candidate) {
        return Some(candidate);
      }
      attempt := attempt + 1;
    }
    return None;
  }

  /** The first free candidate from an attempt on, up to attempt 999. */
  function Generate(base: string, occupied: set<string>, attempt: nat): Option<string>
    decreases 1000 - attempt
  {
    if attempt > 999 then None
    else if Free(occupied, Candidate(base, attempt)) then Some(Candidate(base, attempt))
    else Generate(base, occupied, attempt + 1)
  }

  /** The generator's answer is the first free candidate, and it has none only when all 999 are taken. */
  lemma {:induction false} GenerateFinds(base: string, occupied: set<string>, attempt: nat)
    requires attempt <= 1000
    ensures var r := Generate(base, occupied, attempt);
            if r.None? then forall k :: attempt <= k <= 999 ==> !Free(occupied, Candidate(base, k))
            else Free(occupied, r.value) &&
                 exists k :: attempt <= k <= 999 && r.value == Candidate(base, k) &&
                             forall j :: attempt <= j < k ==> !Free(occupied, Candidate(base, j))
    decreases 1000 - attempt
  {
    hide Candidate, Free;
    if attempt <= 999 && !Free(occupied, Candidate(base, attempt)) {
      GenerateFinds(base, occupied, attempt + 1);
    } else if attempt <= 999 {
      assert Generate(base, occupied, attempt).value == Candidate(base, attempt);
    }
  }

  // ---------- 999 different candidates ----------

  function DecimalValue(s: string): int {
    if s == "" then 0 else DecimalValue(s[..|s| - 1]) * 10 + (s[|s| - 1] as int - '0' as int)
  }

  lemma {:induction false} DecimalRoundTrip(n: nat)
    ensures Decimal(n) != "" && DecimalValue(Decimal(n)) == n
    ensures forall i :: 0 <= i < |Decimal(n)| ==> '0' <= Decimal(n)[i] <= '9'
    ensures n < 1000 ==> |Decimal(n)| <= 3
  {
    if n >= 10 {
      DecimalRoundTrip(n / 10);
      assert Decimal(n)[..|Decimal(n)| - 1] == Decimal(n / 10);
      if n < 1000 {
        assert n / 10 < 100;
        ShortDecimal(n / 10);
      }
    } else {
      assert Decimal(n)[..0] == "";
      assert DecimalValue("") == 0;
    }
  }

  lemma ShortDecimal(n: nat)
    requires n < 100
    ensures |Decimal(n)| <= 2
  {
    if n >= 10 {
      assert Decimal(n) == Decimal(n / 10) + [(n % 10) as char + '0'];
    }
  }

  /** Seeds are 40 long at most, or a reserved word behind `agency-`, so no candidate is ever cut. */
  lemma BaseIsShort(organizationId: string, agencyName: string)
    ensures |Base(organizationId, agencyName)| <= 51
    ensures Base(organizationId, agencyName) == SafeSeed(agencyName) + "-" + Suffix(organizationId)
  {
    var seed, suffix := SafeSeed(agencyName), Suffix(organizationId);
    ReservedShort(Seed(agencyName));
    var whole := seed + "-" + suffix;
    SuffixAlnum(organizationId);
    assert whole[|whole| - 1] == suffix[|suffix| - 1];
    assert !EndsInHyphen(whole);
    hide SafeSeed, Suffix;
  }

  lemma ReservedShort(seed: string)
    ensures seed in RESERVED ==> |seed| <= 11
  {
  }

  lemma SuffixAlnum(organizationId: string)
    ensures var s := Suffix(organizationId); s != "" && |s| <= 10 && forall i :: 0 <= i < |s| ==> IsAlnum(s[i])
  {
    var all := AlnumOf(organizationId);
    var s := LastTen(all);
    if s != "" {
      forall i | 0 <= i < |s| ensures IsAlnum(s[i]) {
        assert s[i] in s;
        var k :| 0 <= k < |all| && all[k] == s[i];
      }
    }
  }

  lemma CandidatesDiffer(base: string, a: nat, b: nat)
    requires |base| <= 51 && 1 <= a < b <= 999
    ensures Candidate(base, a) != Candidate(base, b)
  {
    DecimalRoundTrip(a);
    DecimalRoundTrip(b);
    var x, y := Candidate(base, a), Candidate(base, b);
    assert y == base + ("-" + Decimal(b));
    if a >= 2 {
      assert x == base + ("-" + Decimal(a));
      assert x[|base| + 1..] == Decimal(a) && y[|base| + 1..] == Decimal(b);
    }
  }

  function Candidates(base: string, n: nat): set<string> {
    if n == 0 then {} else Candidates(base, n - 1) + {Candidate(base, n)}
  }

  lemma {:induction false} CandidatesCount(base: string, n: nat)
    requires |base| <= 51 && n <= 999
    ensures |Candidates(base, n)| == n
    ensures forall s :: s in Candidates(base, n) <==> exists k :: 1 <= k <= n && s == Candidate(base, k)
  {
    hide Candidate;
    if n > 0 {
      CandidatesCount(base, n - 1);
      forall k | 1 <= k < n ensures Candidate(base, k) != Candidate(base, n) {
        CandidatesDiffer(base, k, n);
      }
      assert Candidate(base, n) !in Candidates(base, n - 1);
    }
  }

  lemma NotAllTaken(base: string, occupied: set<string>)
    requires |base| <= 51 && |occupied + RESERVED| < 999
    ensures exists k :: 1 <= k <= 999 && Free(occupied, Candidate(base, k))
  {
    CandidatesCount(base, 999);
    hide Candidate, RESERVED;
    if forall k :: 1 <= k <= 999 ==> !Free(occupied, Candidate(base, k)) {
      SubsetSize(Candidates(base, 999), occupied + RESERVED);
    }
  }

  /** With fewer than 999 names taken or reserved the generator always finds one. */
  lemma AlwaysFindsOne(organizationId: string, agencyName: string, occupied: set<string>)
    requires |occupied + RESERVED| < 999
    ensures Generate(Base(organizationId, agencyName), occupied, 1).Some?
  {
    BaseIsShort(organizationId, agencyName);
    hide Base, RESERVED, Candidate, Generate, Free;
    var base := Base(organizationId, agencyName);
    GenerateFinds(base, occupied, 1);
    NotAllTaken(base, occupied);
  }

  // ---------- the plan ----------

  datatype Org = Org(organizationId: string, agencyName: string, subDomain: string)

  /** A change the migration writes: the row and its new name. */
  datatype Change = Change(row: nat, next: string)

  predicate Acceptable(name: string) {
    |name| >= 2 && name !in RESERVED
  }

  function Previous(row: Org): string {
    NormalizeSubdomain(Trim(row.subDomain))
  }

  predicate Keeps(row: Org, occupied: set<string>) {
    Acceptable(Previous(row)) && Previous(row) !in occupied
  }

  /** A row keeps its normalised name if that is acceptable and free, and is given a generated one otherwise. */
  function NameFor(row: Org, occupied: set<string>): Option<string> {
    if Keeps(row, occupied) then Some(Previous(row))
    else Generate(Base(row.organizationId, row.agencyName), occupied, 1)
  }

  /** The names of the first `n` rows, each chosen with the aliases and the earlier names taken; nothing if the
      generator fails. */
  function PlanNames(rows: seq<Org>, aliases: set<string>, n: nat): (r: Option<seq<string>>)
    requires n <= |rows|
    ensures r.Some? ==> |r.value| == n
  {
    if n == 0 then Some([])
    else match PlanNames(rows, aliases, n - 1)
      case None => None
      case Some(names) =>
        match NameFor(rows[n - 1], aliases + Elements(names))
        case None => None
        case Some(name) => Some(names + [name])
  }

  /** The normalised nonempty aliases. */
  function AliasNames(aliases: seq<string>): set<string> {
    set a | a in aliases && NormalizeSubdomain(a) != "" :: NormalizeSubdomain(a)
  }

  /** The names after the changes are written: the last change of a row, or its stored name, trimmed. */
  function Written(row: Org, i: nat, changes: seq<Change>): string {
    if changes == [] then Trim(row.subDomain)
    else if changes[|changes| - 1].row == i then changes[|changes| - 1].next
    else Written(row, i, changes[..|changes| - 1])
  }

  /** The changes for the first `n` rows: a kept name that differs from the stored one, and every generated name. */
  function PlanChanges(rows: seq<Org>, aliases: set<string>, n: nat): seq<Change>
    requires n <= |rows|
  {
    if n == 0 then []
    else
      var before, row := PlanChanges(rows, aliases, n - 1), rows[n - 1];
      match PlanNames(rows, aliases, n - 1)
      case None => before
      case Some(names) =>
        var occupied := aliases + Elements(names);
        match NameFor(row, occupied)
        case None => before
        case Some(name) =>
          if Keeps(row, occupied) && Trim(row.subDomain) == name then before else before + [Change(n - 1, name)]
  }

  lemma PlanFront(rows: seq<Org>, aliases: set<string>, n: nat)
    requires 0 < n <= |rows| && PlanNames(rows, aliases, n).Some?
    ensures PlanNames(rows, aliases, n - 1).Some?
  {
    hide NameFor;
  }

  lemma PlanStep(rows: seq<Org>, aliases: set<string>, n: nat, names: seq<string>)
    requires n < |rows| && PlanNames(rows, aliases, n) == Some(names)
    ensures var row, occupied := rows[n], aliases + Elements(names);
            var name := NameFor(row, occupied);
            && PlanNames(rows, aliases, n + 1) == (if name.Some? then Some(names + [name.value]) else None)
            && (name.Some? ==>
                 var before := PlanChanges(rows, aliases, n);
                 PlanChanges(rows, aliases, n + 1) ==
                 if Keeps(row, occupied) && Trim(row.subDomain) == name.value then before
                 else before + [Change(n, name.value)])
  {
    hide NameFor, Keeps, Trim;
  }

  lemma PlanNothing(rows: seq<Org>, aliases: set<string>)
    ensures PlanNames(rows, aliases, 0) == Some([]) && PlanChanges(rows, aliases, 0) == []
    ensures aliases + Elements([]) == aliases
  {
    hide NameFor, Keeps, Trim;
  }

  /** The planning loop. */
  method Plan(rows: seq<Org>, aliases: seq<string>) returns (names: Option<seq<string>>, changes: seq<Change>)
    ensures names == PlanNames(rows, AliasNames(aliases), |rows|)
    ensures names.Some? ==> changes == PlanChanges(rows, AliasNames(aliases), |rows|)
  {
    ghost var known := AliasNames(aliases);
    PlanNothing(rows, known);
    hide *;
    var occupied := AliasNames(aliases);
    var planned: seq<string> := [];
    changes := [];
    var i := 0;
    while i < |rows|
      invariant 0 <= i <= |rows| && PlanNames(rows, known, i) == Some(planned)
      invariant occupied == known + Elements(planned)
      invariant changes == PlanChanges(rows, known, i)
    {
      var row := rows[i];
      PlanStep(rows, known, i, planned);
      ChosenName(row, occupied);
      ElementsAppend(planned);
      var previous, normalized := Trim(row.subDomain), Previous(row);
      var next := normalized;
      if Acceptable(normalized) && normalized !in occupied {
        if previous != normalized {
          changes := changes + [Change(i, next)];
        }
      } else {
        var generated := GeneratedSubdomain(row.organizationId, row.agencyName, occupied);
        if generated.None? {
          PlanStuck(rows, known, i + 1, |rows|);
          return None, changes;
        }
        next := generated.value;
        changes := changes + [Change(i, next)];
      }
      occupied := occupied + {next};
      planned := planned + [next];
      i := i + 1;
    }
    names := Some(planned);
  }

  lemma ElementsAppend(names: seq<string>)
    ensures forall name :: Elements(names + [name]) == Elements(names) + {name}
  {
  }

  lemma ChosenName(row: Org, occupied: set<string>)
    ensures Keeps(row, occupied) <==> Acceptable(Previous(row)) && Previous(row) !in occupied
    ensures NameFor(row, occupied) ==
            if Keeps(row, occupied) then Some(Previous(row))
            else Generate(Base(row.organizationId, row.agencyName), occupied, 1)
  {
    hide Acceptable, Previous, Generate, Base;
  }

  lemma {:induction false} PlanStuck(rows: seq<Org>, aliases: set<string>, k: nat, n: nat)
    requires k <= n <= |rows| && PlanNames(rows, aliases, k).None?
    ensures PlanNames(rows, aliases, n).None?
    decreases n
  {
    hide NameFor;
    if k < n {
      PlanStuck(rows, aliases, k, n - 1);
    }
  }

  lemma {:induction false} WrittenNone(row: Org, i: nat, changes: seq<Change>)
    requires forall k :: 0 <= k < |changes| ==> changes[k].row != i
    ensures Written(row, i, changes) == Trim(row.subDomain)
    decreases |changes|
  {
    hide Trim;
    if changes != [] {
      WrittenNone(row, i, changes[..|changes| - 1]);
    }
  }

  lemma WrittenAppend(row: Org, i: nat, changes: seq<Change>, change: Change)
    ensures Written(row, i, changes + [change]) ==
            if change.row == i then change.next else Written(row, i, changes)
  {
    hide Trim;
    assert (changes + [change])[..|changes|] == changes;
  }

  lemma {:induction false} ChangesInRange(rows: seq<Org>, aliases: set<string>, n: nat)
    requires n <= |rows| && PlanNames(rows, aliases, n).Some?
    ensures forall k :: 0 <= k < |PlanChanges(rows, aliases, n)| ==> PlanChanges(rows, aliases, n)[k].row < n
  {
    hide NameFor, Keeps, Trim;
    if n > 0 {
      ChangesInRange(rows, aliases, n - 1);
    }
  }

  /** Writing the changes gives every row its planned name. */
  lemma {:induction false} ChangesGiveNames(rows: seq<Org>, aliases: set<string>, n: nat, i: nat)
    requires i < n <= |rows| && PlanNames(rows, aliases, n).Some?
    ensures Written(rows[i], i, PlanChanges(rows, aliases, n)) == PlanNames(rows, aliases, n).value[i]
    decreases n
  {
    hide *;
    PlanFront(rows, aliases, n);
    var names, before := PlanNames(rows, aliases, n - 1).value, PlanChanges(rows, aliases, n - 1);
    PlanStep(rows, aliases, n - 1, names);
    var name := NameFor(rows[n - 1], aliases + Elements(names));
    if name.Some? {
      WrittenAppend(rows[i], i, before, Change(n - 1, name.value));
    }
    if i < n - 1 {
      ChangesGiveNames(rows, aliases, n - 1, i);
    } else {
      ChangesInRange(rows, aliases, n - 1);
      WrittenNone(rows[i], i, before);
    }
  }

  // ---------- what the plan guarantees ----------

  lemma NameIsFree(row: Org, occupied: set<string>)
    requires NameFor(row, occupied).Some?
    ensures var name := NameFor(row, occupied).value;
            Free(occupied, name) && |name| >= 2 && AllSafe(name) && (name[0] != '-')
  {
    if Keeps(row, occupied) {
      NormalizedIsTidy(Trim(row.subDomain));
    } else {
      var base := Base(row.organizationId, row.agencyName);
      GenerateFinds(base, occupied, 1);
      BaseIsSafe(row.organizationId, row.agencyName);
      BaseIsShort(row.organizationId, row.agencyName);
      hide Base, Candidate, Free, Generate;
      var name := NameFor(row, occupied).value;
      var k :| 1 <= k <= 999 && name == Candidate(base, k);
      CandidateIsSafe(base, k);
    }
  }

  lemma JoinDoubled(a: string, b: string)
    requires b != "" && b[0] != '-'
    ensures Doubled(a + "-" + b) <==> Doubled(a) || EndsInHyphen(a) || Doubled(b)
  {
    var s, n := a + "-" + b, |a|;
    if Doubled(a) {
      var i :| 0 <= i < n - 1 && a[i] == '-' && a[i + 1] == '-';
      assert s[i] == '-' && s[i + 1] == '-';
    }
    if EndsInHyphen(a) {
      assert s[n - 1] == '-' && s[n - 1 + 1] == '-';
    }
    if Doubled(b) {
      var i :| 0 <= i < |b| - 1 && b[i] == '-' && b[i + 1] == '-';
      assert s[n + 1 + i] == '-' && s[n + 1 + i + 1] == '-';
    }
    if !Doubled(a) && !EndsInHyphen(a) && !Doubled(b) {
      forall i | 0 <= i < |s| - 1 ensures !(s[i] == '-' && s[i + 1] == '-') {
        if i < n - 1 {
          assert s[i] == a[i] && s[i + 1] == a[i + 1];
        } else if i > n {
          assert s[i] == b[i - n - 1] && s[i + 1] == b[i - n - 1 + 1];
        }
      }
    }
  }

  lemma NoHyphenNotDoubled(s: string)
    requires forall i :: 0 <= i < |s| ==> s[i] != '-'
    ensures !Doubled(s)
  {
  }

  lemma SeedTidy(agencyName: string)
    ensures Tidy(Seed(agencyName)) && Seed(agencyName) != ""
  {
    var name := if agencyName == "" then "agency" else agencyName;
    NormalizedIsTidy(name);
    NoHyphenNotDoubled("agency");
    var normalized := NormalizeSubdomain(name);
    hide NormalizeSubdomain;
    TidyPrefix(if normalized == "" then "agency" else normalized, Seed(agencyName));
  }

  /** A seed is tidy; only the cut at 40 can leave a hyphen at its end. */
  lemma SafeSeedTidy(agencyName: string)
    ensures Tidy(SafeSeed(agencyName)) && SafeSeed(agencyName) != ""
  {
    SeedTidy(agencyName);
    var seed := Seed(agencyName);
    hide Seed, RESERVED;
    NoHyphenNotDoubled("agency");
    JoinDoubled("agency", seed);
    assert "agency-" + seed == "agency" + "-" + seed;
  }

  lemma BaseIsSafe(organizationId: string, agencyName: string)
    ensures var base := Base(organizationId, agencyName);
            AllSafe(base) && |base| >= 2 && base[0] != '-' && !EndsInHyphen(base)
  {
    BaseIsShort(organizationId, agencyName);
    SuffixAlnum(organizationId);
    SafeSeedTidy(agencyName);
    hide SafeSeed, Suffix, Base;
    var base, suffix := Base(organizationId, agencyName), Suffix(organizationId);
    assert base[|base| - 1] == suffix[|suffix| - 1];
  }

  lemma CandidateIsSafe(base: string, k: nat)
    requires AllSafe(base) && 2 <= |base| <= 51 && base[0] != '-' && k <= 999
    ensures var c := Candidate(base, k); AllSafe(c) && |c| >= 2 && c[0] != '-'
  {
    DecimalRoundTrip(k);
  }

  /** The planned names are pairwise different, not reserved, not aliases, and at least two characters long. */
  lemma {:induction false} PlannedNames(rows: seq<Org>, aliases: set<string>, n: nat)
    requires n <= |rows| && PlanNames(rows, aliases, n).Some?
    ensures var names := PlanNames(rows, aliases, n).value;
            NoRepeats(names) && forall i :: 0 <= i < n ==> GoodName(aliases, names[i])
  {
    if n > 0 {
      hide RESERVED, NameFor, Keeps, GoodName;
      PlannedNames(rows, aliases, n - 1);
      var before := PlanNames(rows, aliases, n - 1).value;
      PlanStep(rows, aliases, n - 1, before);
      NameIsGood(rows[n - 1], aliases, Elements(before));
      DistinctAppend(before, NameFor(rows[n - 1], aliases + Elements(before)).value);
      hide *;
    } else {
      hide RESERVED, NameFor, Keeps, GoodName;
    }
  }

  lemma DistinctAppend(names: seq<string>, name: string)
    requires NoRepeats(names) && name !in Elements(names)
    ensures NoRepeats(names + [name])
  {
    assert forall i :: 0 <= i < |names| ==> names[i] in Elements(names);
  }

  /** Free beside the aliases, long enough, and safe with no hyphen in front. */
  predicate GoodName(aliases: set<string>, name: string) {
    Free(aliases, name) && |name| >= 2 && AllSafe(name) && name[0] != '-'
  }

  lemma NameIsGood(row: Org, aliases: set<string>, earlier: set<string>)
    requires NameFor(row, aliases + earlier).Some?
    ensures var name := NameFor(row, aliases + earlier).value; GoodName(aliases, name) && name !in earlier
  {
    NameIsFree(row, aliases + earlier);
    hide NameFor, RESERVED, AllSafe;
  }

  lemma {:induction false} PlanPrefix(rows: seq<Org>, aliases: set<string>, i: nat, n: nat)
    requires i <= n <= |rows| && PlanNames(rows, aliases, n).Some?
    ensures PlanNames(rows, aliases, i).Some?
            && PlanNames(rows, aliases, n).value[..i] == PlanNames(rows, aliases, i).value
    decreases n
  {
    hide NameFor;
    if i < n {
      PlanPrefix(rows, aliases, i, n - 1);
    }
  }

  /** A row whose normalised name is acceptable, no alias and not planned for an earlier row keeps it. */
  lemma PlannedKept(rows: seq<Org>, aliases: set<string>, i: nat)
    requires i < |rows| && PlanNames(rows, aliases, |rows|).Some?
    ensures var names := PlanNames(rows, aliases, |rows|).value;
            Keeps(rows[i], aliases + Elements(names[..i])) ==> names[i] == Previous(rows[i])
  {
    PlanPrefix(rows, aliases, i, |rows|);
    PlanPrefix(rows, aliases, i + 1, |rows|);
    var names := PlanNames(rows, aliases, |rows|).value;
    hide NameFor, Keeps, Previous;
    PlanStep(rows, aliases, i, names[..i]);
    hide PlanNames, PlanChanges;
    KeptName(rows[i], aliases + Elements(names[..i]));
    assert names[i] == names[..i + 1][i];
  }

  lemma KeptName(row: Org, occupied: set<string>)
    ensures Keeps(row, occupied) ==> NameFor(row, occupied) == Some(Previous(row))
  {
  }

  /** The plan succeeds whenever aliases, reserved words and rows together number fewer than 999. */
  lemma {:induction false} PlanSucceeds(rows: seq<Org>, aliases: set<string>, n: nat)
    requires n <= |rows| && |aliases| + |RESERVED| + |rows| < 999
    ensures PlanNames(rows, aliases, n).Some?
  {
    hide RESERVED, Keeps, Base, Generate;
    if n > 0 {
      PlanSucceeds(rows, aliases, n - 1);
      var before := PlanNames(rows, aliases, n - 1).value;
      var occupied := aliases + Elements(before);
      ElementsSize(before);
      UnionSize(aliases, Elements(before));
      UnionSize(occupied, RESERVED);
      AlwaysFindsOne(rows[n - 1].organizationId, rows[n - 1].agencyName, occupied);
      NameForFound(rows[n - 1], occupied);
    }
  }

  lemma NameForFound(row: Org, occupied: set<string>)
    requires Generate(Base(row.organizationId, row.agencyName), occupied, 1).Some?
    ensures NameFor(row, occupied).Some?
  {
  }

  lemma UnionSize(a: set<string>, b: set<string>)
    ensures |a + b| <= |a| + |b|
  {
    assert a + b == a + (b - a);
    SubsetSize(b - a, b);
  }

  lemma {:induction false} ElementsSize(names: seq<string>)
    ensures |Elements(names)| <= |names|
  {
    if names == [] {
      assert Elements(names) == {};
    } else {
      ElementsSize(names[..|names| - 1]);
      assert Elements(names) == Elements(names[..|names| - 1]) + {names[|names| - 1]};
    }
  }

  // ---------- the check after the migration ----------

  /** What the migration's last check calls an invalid name. */
  predicate InvalidFormat(stored: string) {
    var value := Trim(stored);
    |value| < 2 || value in RESERVED || NormalizeSubdomain(value) != value
  }

  /** How long the generator's answer of this attempt is. */
  function AttemptLength(organizationId: string, agencyName: string, k: nat): nat {
    |SafeSeed(agencyName)| + 1 + |Suffix(organizationId)| + if k < 2 then 0 else 1 + |Decimal(k)|
  }

  lemma CandidateShape(organizationId: string, agencyName: string, k: nat)
    requires 1 <= k <= 999
    ensures var c := Candidate(Base(organizationId, agencyName), k);
            && |c| == AttemptLength(organizationId, agencyName, k)
            && AllSafe(c) && |c| >= 2 && c[0] != '-' && !EndsInHyphen(c)
            && (Doubled(c) <==> EndsInHyphen(SafeSeed(agencyName)))
  {
    var seed, suffix, digits := SafeSeed(agencyName), Suffix(organizationId), Decimal(k);
    BaseIsShort(organizationId, agencyName);
    BaseIsSafe(organizationId, agencyName);
    SafeSeedTidy(agencyName);
    SuffixAlnum(organizationId);
    DecimalRoundTrip(k);
    hide Base, SafeSeed, Suffix, Decimal;
    var base := Base(organizationId, agencyName);
    CandidateIsSafe(base, k);
    NoHyphenNotDoubled(suffix);
    NoHyphenNotDoubled(digits);
    JoinDoubled(seed, suffix);
    JoinDoubled(base, digits);
    if k >= 2 {
      var c := Candidate(base, k);
      assert c == base + "-" + digits && c[|c| - 1] == digits[|digits| - 1];
    }
  }

  /** The name of an attempt stays as it is under the normaliser exactly when it fits 48 characters and the seed was
      not cut at a hyphen. */
  lemma CandidatePassesIff(organizationId: string, agencyName: string, k: nat)
    requires 1 <= k <= 999
    ensures var c := Candidate(Base(organizationId, agencyName), k);
            NormalizeSubdomain(c) == c <==>
            !EndsInHyphen(SafeSeed(agencyName)) && AttemptLength(organizationId, agencyName, k) <= 48
  {
    CandidateShape(organizationId, agencyName, k);
    hide Base, Candidate, SafeSeed, AttemptLength;
    FixedIff(Candidate(Base(organizationId, agencyName), k));
  }

  /** The attempt at which the generator finds a free name. */
  function FirstFree(base: string, occupied: set<string>, attempt: nat): (k: Option<nat>)
    ensures k.Some? ==> attempt <= k.value <= 999
    decreases 1000 - attempt
  {
    if attempt > 999 then None
    else if Free(occupied, Candidate(base, attempt)) then Some(attempt)
    else FirstFree(base, occupied, attempt + 1)
  }

  lemma {:induction false} GenerateIsFirstFree(base: string, occupied: set<string>, attempt: nat)
    requires attempt <= 1000
    ensures var k := FirstFree(base, occupied, attempt);
            Generate(base, occupied, attempt) == if k.Some? then Some(Candidate(base, k.value)) else None
    decreases 1000 - attempt
  {
    hide Candidate, Free;
    if attempt <= 999 && !Free(occupied, Candidate(base, attempt)) {
      GenerateIsFirstFree(base, occupied, attempt + 1);
    }
  }

  /** Told from the row and the names taken when its turn comes: a kept name passes the last check unless the cut
      at 48 left it a hyphen, a generated one unless its seed was cut at a hyphen or it is longer than 48. */
  predicate WillPass(row: Org, occupied: set<string>) {
    if Keeps(row, occupied) then !EndsInHyphen(Previous(row))
    else
      var k := FirstFree(Base(row.organizationId, row.agencyName), occupied, 1);
      k.Some? && !EndsInHyphen(SafeSeed(row.agencyName)) &&
      AttemptLength(row.organizationId, row.agencyName, k.value) <= 48
  }

  lemma SafeIsTrimmed(s: string)
    requires AllSafe(s)
    ensures Trim(s) == s
  {
    TrimId(s);
  }

  lemma NamePassesIff(row: Org, occupied: set<string>)
    requires NameFor(row, occupied).Some?
    ensures InvalidFormat(NameFor(row, occupied).value) <==> !WillPass(row, occupied)
  {
    NameIsFree(row, occupied);
    var name := NameFor(row, occupied).value;
    hide RESERVED, Base;
    SafeIsTrimmed(name);
    hide Trim;
    if Keeps(row, occupied) {
      NormalizedIsTidy(Trim(row.subDomain));
      FixedIff(name);
    } else {
      GenerateIsFirstFree(Base(row.organizationId, row.agencyName), occupied, 1);
      var k := FirstFree(Base(row.organizationId, row.agencyName), occupied, 1).value;
      hide Candidate, NormalizeSubdomain, Generate, FirstFree, SafeSeed, AttemptLength;
      CandidatePassesIff(row.organizationId, row.agencyName, k);
    }
  }

  /** The check after the migration accepts a planned name exactly when its row will pass. */
  lemma PostCheckIff(rows: seq<Org>, aliases: set<string>, i: nat)
    requires i < |rows| && PlanNames(rows, aliases, |rows|).Some?
    ensures var names := PlanNames(rows, aliases, |rows|).value;
            !InvalidFormat(names[i]) <==> WillPass(rows[i], aliases + Elements(names[..i]))
  {
    PlanPrefix(rows, aliases, i, |rows|);
    PlanPrefix(rows, aliases, i + 1, |rows|);
    var names := PlanNames(rows, aliases, |rows|).value;
    hide NameFor, WillPass, InvalidFormat;
    PlanStep(rows, aliases, i, names[..i]);
    hide PlanNames, PlanChanges;
    assert names[i] == names[..i + 1][i];
    NamePassesIff(rows[i], aliases + Elements(names[..i]));
  }

  // ---------- one name for each way of failing ----------

  function Letters(n: nat): string {
    seq(n, _ => 'a')
  }

  lemma LettersTidy(n: nat)
    requires n > 0
    ensures Tidy(Letters(n)) && !EndsInHyphen(Letters(n))
    ensures Tidy(Letters(n) + "-b") && !EndsInHyphen(Letters(n) + "-b")
  {
    NoHyphenNotDoubled(Letters(n));
    NoHyphenNotDoubled("b");
    JoinDoubled(Letters(n), "b");
    assert Letters(n) + "-" + "b" == Letters(n) + "-b";
  }

  /** The plan for one organisation alone. */
  lemma PlanForOne(row: Org)
    requires NameFor(row, {}).Some?
    ensures PlanNames([row], {}, 1) == Some([NameFor(row, {}).value])
  {
    hide NameFor;
    PlanNothing([row], {});
    PlanStep([row], {}, 0, []);
    hide PlanNames, PlanChanges;
    assert [] + [NameFor(row, {}).value] == [NameFor(row, {}).value];
  }

  lemma BaseFree(organizationId: string, agencyName: string)
    requires |SafeSeed(agencyName)| >= 11
    ensures FirstFree(Base(organizationId, agencyName), {}, 1) == Some(1)
  {
    BaseIsShort(organizationId, agencyName);
    ReservedShort(Base(organizationId, agencyName));
    hide Base, SafeSeed, RESERVED;
  }

  lemma NothingKept(organizationId: string, agencyName: string, occupied: set<string>)
    ensures !Keeps(Org(organizationId, agencyName, ""), occupied)
  {
  }

  /** Without a usable stored name, one of these agency names gives a name the last check refuses. */
  lemma GeneratedFails(organizationId: string, agencyName: string)
    requires |SafeSeed(agencyName)| >= 11
    requires EndsInHyphen(SafeSeed(agencyName)) || AttemptLength(organizationId, agencyName, 1) > 48
    ensures var row := Org(organizationId, agencyName, "");
            PlanNames([row], {}, 1).Some? && InvalidFormat(PlanNames([row], {}, 1).value[0])
  {
    var row := Org(organizationId, agencyName, "");
    NothingKept(organizationId, agencyName, {});
    BaseFree(organizationId, agencyName);
    GenerateIsFirstFree(Base(organizationId, agencyName), {}, 1);
    hide Base, SafeSeed, FirstFree, Generate, InvalidFormat, AttemptLength, Keeps, RESERVED;
    NamePassesIff(row, {});
    PlanForOne(row);
  }

  lemma SeedOf(agencyName: string, seed: string)
    requires Tidy(agencyName) && |agencyName| <= 48 && !EndsInHyphen(agencyName)
    requires |agencyName| >= 40 && seed == agencyName[..40]
    ensures SafeSeed(agencyName) == seed
  {
    FixedIff(agencyName);
    hide NormalizeSubdomain, Tidy, EndsInHyphen;
    assert Seed(agencyName) == seed by {
      hide RESERVED;
    }
    ReservedShort(seed);
    hide RESERVED, Seed;
  }

  /** A name of forty letters is too long together with eight or more characters of the organisation's id. */
  lemma LongNameFails(organizationId: string)
    requires |Suffix(organizationId)| >= 8
    ensures var row := Org(organizationId, Letters(40), "");
            PlanNames([row], {}, 1).Some? && InvalidFormat(PlanNames([row], {}, 1).value[0])
  {
    LettersTidy(40);
    SeedOf(Letters(40), Letters(40));
    hide SafeSeed, Suffix;
    GeneratedFails(organizationId, Letters(40));
  }

  /** A name whose fortieth character is a hyphen gives a doubled hyphen, whatever the organisation's id. */
  lemma HyphenAtTheCutFails(organizationId: string)
    ensures var row := Org(organizationId, Letters(39) + "-b", "");
            PlanNames([row], {}, 1).Some? && InvalidFormat(PlanNames([row], {}, 1).value[0])
  {
    LettersTidy(39);
    var name := Letters(39) + "-b";
    SeedOf(name, name[..40]);
    hide SafeSeed, Suffix;
    GeneratedFails(organizationId, name);
  }

  /** A tidy stored name that is too long is cut, and taken as it is then. */
  lemma CutName(row: Org)
    requires Tidy(row.subDomain) && !EndsInHyphen(row.subDomain) && |row.subDomain| > 48
    ensures Previous(row) == row.subDomain[..48] && Keeps(row, {})
  {
    var name := row.subDomain;
    SafeIsTrimmed(name);
    HyphenateSafe(name);
    CollapseFacts(name);
    StripFacts(name);
    hide Trim, Hyphenate, Collapse, StripEnds, Tidy, EndsInHyphen, RESERVED;
    assert Previous(row) == name[..48];
    ReservedShort(name[..48]);
  }

  /** A stored name whose forty-eighth character is a hyphen is kept with that hyphen at its end. */
  lemma KeptHyphenFails(organizationId: string, agencyName: string)
    ensures var row := Org(organizationId, agencyName, Letters(47) + "-b");
            PlanNames([row], {}, 1).Some? && InvalidFormat(PlanNames([row], {}, 1).value[0])
  {
    LettersTidy(47);
    var row := Org(organizationId, agencyName, Letters(47) + "-b");
    CutName(row);
    KeptName(row, {});
    assert EndsInHyphen(row.subDomain[..48]);
    hide Previous, Keeps, NameFor, InvalidFormat, Letters, Tidy, EndsInHyphen;
    NamePassesIff(row, {});
    PlanForOne(row);
  }
}
