/** Subdomains read off the texts they come from: the words of a name, the names of the attempts, and which name each
    organisation gets. */
module SubdomainNames {
  import opened Wrappers
  import opened Identity
  import opened Subdomain

  // ---------- the words of a text ----------

  /** A letter or digit of ASCII. */
  predicate Kept(c: char) {
    'a' <= c <= 'z' || 'A' <= c <= 'Z' || '0' <= c <= '9'
  }

  /** The longest runs of letters and digits, in lower case. */
  function Words(s: string): (r: seq<string>)
    ensures s != "" && Kept(s[0]) ==> r != []
    ensures r == [] && s != "" ==> !Kept(s[|s| - 1])
    ensures AllSolid(r)
  {
    if s == "" then []
    else if !Kept(s[0]) then Words(s[1..])
    else
      var c, rest := LowerChar(s[0]), Words(s[1..]);
      if |s| > 1 && Kept(s[1]) then [[c] + rest[0]] + rest[1..] else [[c]] + rest
  }

  predicate AllSolid(words: seq<string>) {
    forall i :: 0 <= i < |words| ==> Solid(words[i])
  }

  predicate Solid(word: string) {
    word != "" && forall i :: 0 <= i < |word| ==> IsAlnum(word[i])
  }

  /** The words with single hyphens between them. */
  function Hyphened(words: seq<string>): string {
    if words == [] then "" else if |words| == 1 then words[0] else words[0] + "-" + Hyphened(words[1..])
  }

  function Joined(words: seq<string>): string {
    if words == [] then "" else words[0] + Joined(words[1..])
  }

  lemma CharRead(c: char)
    ensures IsAlnum(LowerChar(c)) <==> Kept(c)
    ensures Kept(c) ==> LowerChar(c) != '-' && IsSafe(LowerChar(c))
    ensures !Kept(c) ==> (if IsSafe(LowerChar(c)) then LowerChar(c) else '-') == '-'
  {
  }

  function Front(s: string): string {
    if s != "" && !Kept(s[0]) then "-" else ""
  }

  function Back(s: string): string {
    if Words(s) != [] && s != "" && !Kept(s[|s| - 1]) then "-" else ""
  }

  lemma HyphenateStep(s: string)
    requires s != ""
    ensures Hyphenate(s) == [if Kept(s[0]) then LowerChar(s[0]) else '-'] + Hyphenate(s[1..])
  {
    CharRead(s[0]);
    var h := Hyphenate(s);
    assert h[1..] == Hyphenate(s[1..]);
    assert h == [h[0]] + h[1..];
  }

  lemma CollapseStep(s: string)
    requires |s| >= 2
    ensures var h, c := Hyphenate(s), if Kept(s[0]) then LowerChar(s[0]) else '-';
            Collapse(h) == if !Kept(s[0]) && !Kept(s[1]) then Collapse(Hyphenate(s[1..]))
                           else [c] + Collapse(Hyphenate(s[1..]))
  {
    HyphenateStep(s);
    HyphenateStep(s[1..]);
    CharRead(s[0]);
    CharRead(s[1]);
    hide Hyphenate, Kept, LowerChar, IsAlnum;
    var h := Hyphenate(s);
    assert h[1..] == Hyphenate(s[1..]);
  }

  lemma HyphenedStep(word: string, rest: seq<string>)
    requires rest != []
    ensures Hyphened([word] + rest) == word + "-" + Hyphened(rest)
  {
    assert ([word] + rest)[1..] == rest;
  }

  lemma HyphenedGrows(c: char, rest: seq<string>)
    requires rest != []
    ensures Hyphened([[c] + rest[0]] + rest[1..]) == [c] + Hyphened(rest)
  {
    var words := [[c] + rest[0]] + rest[1..];
    assert words[1..] == rest[1..];
    if |rest| > 1 {
      assert [c] + rest[0] + "-" + Hyphened(rest[1..]) == [c] + (rest[0] + "-" + Hyphened(rest[1..]));
    }
  }

  /** Before the ends are stripped there is a hyphen in front of the words and behind them where the text has other
      characters there. */
  lemma {:induction false} CollapsedWords(s: string)
    ensures Collapse(Hyphenate(s)) == Front(s) + Hyphened(Words(s)) + Back(s)
  {
    if s == "" {
      assert Hyphenate(s) == "" && Words(s) == [];
    } else if |s| == 1 {
      HyphenateStep(s);
      assert s[1..] == "" && Hyphenate("") == "" && Words("") == [];
    } else {
      CollapsedWords(s[1..]);
      CollapsedMore(s);
    }
  }

  lemma EndsAre(s: string)
    requires |s| >= 2
    ensures Front(s) == (if Kept(s[0]) then "" else "-") && Front(s[1..]) == (if Kept(s[1]) then "" else "-")
    ensures Back(s[1..]) == if Words(s[1..]) == [] then "" else if Kept(s[|s| - 1]) then "" else "-"
    ensures Back(s) == if Words(s) == [] then "" else if Kept(s[|s| - 1]) then "" else "-"
  {
    hide Kept, Words;
    assert s[1..][|s| - 2] == s[|s| - 1] && s[1..][0] == s[1];
  }

  lemma Glue(a: string, b: string, c: string)
    ensures a + ("" + b + c) == a + b + c == "" + (a + b) + c
    ensures a + ("-" + b + c) == "" + (a + "-" + b) + c
    ensures "" + b == b && b + "" == b
  {
  }

  lemma CollapsedMore(s: string)
    requires |s| >= 2
    requires Collapse(Hyphenate(s[1..])) == Front(s[1..]) + Hyphened(Words(s[1..])) + Back(s[1..])
    ensures Collapse(Hyphenate(s)) == Front(s) + Hyphened(Words(s)) + Back(s)
  {
    hide *;
    CollapseStep(s);
    WordsStep(s);
    EndsAre(s);
    if Kept(s[0]) {
      if Kept(s[1]) {
        HyphenedGrows(LowerChar(s[0]), Words(s[1..]));
      } else {
        HyphenedNew(LowerChar(s[0]), Words(s[1..]));
      }
    }
    GlueCases(s, LowerChar(s[0]), Hyphened(Words(s[1..])), Back(s[1..]));
  }

  lemma HyphenedNew(c: char, rest: seq<string>)
    ensures Hyphened([[c]] + rest) == if rest == [] then [c] else [c] + "-" + Hyphened(rest)
    ensures rest == [] ==> Hyphened(rest) == ""
  {
    if rest == [] {
      assert [[c]] + rest == [[c]];
    } else {
      HyphenedStep([c], rest);
    }
  }

  lemma GlueCases(s: string, c: char, h: string, back: string)
    requires |s| >= 2 && h == Hyphened(Words(s[1..])) && back == Back(s[1..])
    requires Collapse(Hyphenate(s[1..])) == (if Kept(s[1]) then "" else "-") + h + back
    requires Collapse(Hyphenate(s)) ==
             if !Kept(s[0]) && !Kept(s[1]) then Collapse(Hyphenate(s[1..]))
             else [if Kept(s[0]) then c else '-'] + Collapse(Hyphenate(s[1..]))
    requires Front(s) == if Kept(s[0]) then "" else "-"
    requires Words(s[1..]) == [] ==> back == "" && (!Kept(s[1]) ==> h == "" || !Kept(s[0]))
    requires Hyphened(Words(s)) ==
             if !Kept(s[0]) then h else if Kept(s[1]) then [c] + h
             else if Words(s[1..]) == [] then [c] else [c] + "-" + h
    requires Back(s) == if !Kept(s[0]) || Words(s[1..]) != [] then back else "-"
    ensures Collapse(Hyphenate(s)) == Front(s) + Hyphened(Words(s)) + Back(s)
  {
    hide *;
    var a := if Kept(s[0]) then [c] else "-";
    Glue(a, h, back);
  }

  lemma HyphenedNone()
    ensures Hyphened([]) == ""
  {
  }

  lemma WordsStep(s: string)
    requires |s| >= 2
    ensures var c, rest := LowerChar(s[0]), Words(s[1..]);
            Words(s) == if !Kept(s[0]) then rest
                        else if Kept(s[1]) then [[c] + rest[0]] + rest[1..] else [[c]] + rest
    ensures Words(s[1..]) == [] ==> !Kept(s[|s| - 1])
  {
    hide AllSolid, LowerChar, Kept;
    assert s[1..][|s| - 2] == s[|s| - 1];
  }

  lemma {:induction false} HyphenedEnds(words: seq<string>)
    requires AllSolid(words)
    ensures words != [] ==>
              var h := Hyphened(words); h != "" && h[0] != '-' && h[|h| - 1] != '-'
  {
    if words != [] {
      assert Solid(words[0]);
      if |words| > 1 {
        HyphenedEnds(words[1..]);
      }
    }
  }

  lemma StripAround(front: string, core: string, back: string)
    requires front in {"", "-"} && back in {"", "-"} && (core == "" ==> back == "")
    requires core != "" ==> core[0] != '-' && core[|core| - 1] != '-'
    ensures StripEnds(front + core + back) == core
  {
    var s := front + core + back;
    var t := if s != "" && s[0] == '-' then s[1..] else s;
    if core != "" {
      assert t == core + back;
    }
  }

  /** The normalised name of a text is its words, in lower case, with single hyphens between them, cut at 48. */
  lemma NormalizedWords(value: string)
    ensures var name := Hyphened(Words(value));
            NormalizeSubdomain(value) == if |name| > 48 then name[..48] else name
  {
    CollapsedWords(value);
    HyphenedEnds(Words(value));
    HyphenedNone();
    hide Hyphened, Words, Hyphenate, Collapse;
    StripAround(Front(value), Hyphened(Words(value)), Back(value));
  }

  /** The usable characters of an id are its words without anything between them. */
  lemma {:induction false} AlnumIsJoined(s: string)
    ensures AlnumOf(s) == Joined(Words(s))
  {
    if s != "" {
      AlnumIsJoined(s[1..]);
      CharRead(s[0]);
      var c, rest := LowerChar(s[0]), Words(s[1..]);
      if Kept(s[0]) {
        if |s| > 1 && Kept(s[1]) {
          var words := [[c] + rest[0]] + rest[1..];
          assert words[1..] == rest[1..];
          assert [c] + rest[0] + Joined(rest[1..]) == [c] + (rest[0] + Joined(rest[1..]));
        } else {
          assert ([[c]] + rest)[1..] == rest;
        }
      }
    }
  }

  // ---------- trimming does not matter ----------

  lemma SpaceNotKept(c: char)
    ensures IsSpace(c) ==> !Kept(c)
  {
  }

  lemma {:induction false} WordsTrimStart(s: string)
    ensures Words(TrimStart(s)) == Words(s)
  {
    if s != "" && IsSpace(s[0]) {
      SpaceNotKept(s[0]);
      WordsTrimStart(s[1..]);
    }
  }

  lemma {:induction false} WordsFront(s: string)
    requires s != "" && !Kept(s[|s| - 1])
    ensures Words(s[..|s| - 1]) == Words(s)
  {
    if |s| == 1 {
      assert s[1..] == "" && s[..0] == "" && Words("") == [];
    } else {
      var front, tail := s[..|s| - 1], s[1..];
      assert tail[|tail| - 1] == s[|s| - 1] && tail[..|tail| - 1] == front[1..] && front[0] == s[0];
      WordsFront(tail);
      WordsStep(s);
      if |s| > 2 {
        WordsStep(front);
        assert front[1] == s[1];
      } else {
        WordsOne(front);
        assert front[1..] == "" && Words("") == [];
      }
      hide Words, Kept;
    }
  }

  lemma WordsOne(s: string)
    requires |s| == 1
    ensures Words(s) == if Kept(s[0]) then [[LowerChar(s[0])]] else []
  {
    assert s[1..] == "" && Words("") == [];
  }

  lemma {:induction false} WordsTrimEnd(s: string)
    ensures Words(TrimEnd(s)) == Words(s)
    decreases |s|
  {
    if s != "" && IsSpace(s[|s| - 1]) {
      SpaceNotKept(s[|s| - 1]);
      WordsFront(s);
      WordsTrimEnd(s[..|s| - 1]);
    }
  }

  // ---------- the name of each organisation ----------

  function Short(name: string, n: nat): string {
    if |name| > n then name[..n] else name
  }

  /** A stored name in its normal form. */
  function StoredName(row: Org): string {
    Short(Hyphened(Words(row.subDomain)), 48)
  }

  /** What a generated name begins with: the words of the agency's name, or `agency` without any, cut at 40 and kept off
      the reserved names. */
  function SeedText(row: Org): string {
    var name := Hyphened(Words(row.agencyName));
    var seed := if name == "" then "agency" else Short(name, 40);
    if seed in RESERVED then "agency-" + seed else seed
  }

  /** What it goes on with: the last ten letters and digits of the id, or `tenant` without any. */
  function SuffixText(row: Org): string {
    var usable := Joined(Words(row.organizationId));
    if usable == "" then "tenant" else if |usable| > 10 then usable[|usable| - 10..] else usable
  }

  /** The name of an attempt, numbered from the second on. */
  function AttemptName(row: Org, k: nat): string {
    SeedText(row) + "-" + SuffixText(row) + if k < 2 then "" else "-" + Decimal(k)
  }

  lemma {:induction false} DecimalHead(n: nat)
    requires n > 0
    ensures '1' <= Decimal(n)[0] <= '9'
  {
    if n >= 10 {
      DecimalHead(n / 10);
    }
  }

  /** The number at the end of an attempt's name is its decimal, without a zero in front. */
  lemma NumberOf(k: nat)
    requires k > 0
    ensures DecimalValue(Decimal(k)) == k && Decimal(k) != "" && '1' <= Decimal(k)[0] <= '9'
    ensures forall i :: 0 <= i < |Decimal(k)| ==> '0' <= Decimal(k)[i] <= '9'
  {
    DecimalRoundTrip(k);
    DecimalHead(k);
  }

  lemma AgencyWord()
    ensures NormalizeSubdomain("agency") == "agency" && Hyphened(Words("")) == ""
  {
    assert AllSafe("agency") && !Doubled("agency");
    FixedIff("agency");
  }

  lemma SeedIs(row: Org)
    ensures SafeSeed(row.agencyName) == SeedText(row)
  {
    NormalizedWords(row.agencyName);
    AgencyWord();
    hide Words, Hyphened, NormalizeSubdomain, RESERVED;
    var name := Hyphened(Words(row.agencyName));
    assert Short(Short(name, 48), 40) == Short(name, 40);
    assert Seed(row.agencyName) == if name == "" then "agency" else Short(name, 40);
  }

  lemma SuffixIs(row: Org)
    ensures Suffix(row.organizationId) == SuffixText(row)
  {
    AlnumIsJoined(row.organizationId);
  }

  /** Attempt `k` of the generator has the name described, uncut. */
  lemma AttemptIs(row: Org, k: nat)
    requires 1 <= k <= 999
    ensures Candidate(Base(row.organizationId, row.agencyName), k) == AttemptName(row, k)
  {
    BaseIsShort(row.organizationId, row.agencyName);
    SeedIs(row);
    SuffixIs(row);
    DecimalRoundTrip(k);
    hide Base, SeedText, SuffixText, Decimal, SafeSeed, Suffix, DecimalValue;
  }

  lemma StoredIs(row: Org)
    ensures Previous(row) == StoredName(row)
  {
    NormalizedWords(Trim(row.subDomain));
    WordsTrimStart(row.subDomain);
    WordsTrimEnd(TrimStart(row.subDomain));
    hide Words, Hyphened, NormalizeSubdomain, TrimStart, TrimEnd;
  }

  predicate Open(name: string, taken: set<string>) {
    name !in taken && name !in RESERVED
  }

  /** A stored name of two characters or more that is not reserved and not taken is kept; otherwise the first attempt
      gives the name whose name is neither. */
  ghost predicate Named(row: Org, taken: set<string>, name: string) {
    if |StoredName(row)| >= 2 && Open(StoredName(row), taken) then name == StoredName(row)
    else exists k: nat :: IsFirstOpen(row, taken, k) && name == AttemptName(row, k)
  }

  predicate IsFirstOpen(row: Org, taken: set<string>, k: nat) {
    1 <= k <= 999 && Open(AttemptName(row, k), taken) &&
    forall j: nat :: 1 <= j < k ==> !Open(AttemptName(row, j), taken)
  }

  lemma NameIs(row: Org, taken: set<string>)
    requires NameFor(row, taken).Some?
    ensures Named(row, taken, NameFor(row, taken).value)
  {
    StoredIs(row);
    var base := Base(row.organizationId, row.agencyName);
    hide StoredName, Previous, RESERVED, Base, AttemptName, Candidate;
    if !Keeps(row, taken) {
      GenerateFinds(base, taken, 1);
      hide Generate;
      var name := NameFor(row, taken).value;
      var k :| 1 <= k <= 999 && name == Candidate(base, k) &&
               forall j :: 1 <= j < k ==> !Free(taken, Candidate(base, j));
      forall j: nat | 1 <= j <= k ensures Candidate(base, j) == AttemptName(row, j) {
        AttemptIs(row, j);
      }
      assert IsFirstOpen(row, taken, k);
    }
  }

  /** Every organisation's planned name, read off its own texts and the names taken before its turn: the aliases and the
      names planned so far. */
  lemma PlannedName(rows: seq<Org>, aliases: set<string>, i: nat)
    requires i < |rows| && PlanNames(rows, aliases, |rows|).Some?
    ensures var names := PlanNames(rows, aliases, |rows|).value;
            Named(rows[i], aliases + Elements(names[..i]), names[i])
  {
    PlanPrefix(rows, aliases, i, |rows|);
    PlanPrefix(rows, aliases, i + 1, |rows|);
    var names := PlanNames(rows, aliases, |rows|).value;
    hide NameFor, Named;
    PlanStep(rows, aliases, i, names[..i]);
    hide PlanNames, PlanChanges;
    NameIs(rows[i], aliases + Elements(names[..i]));
    assert names[i] == names[..i + 1][i];
  }
}
