/** Text helpers and the identity normalisers: emails, Bangladesh phone numbers and subdomains.
    Text is ASCII apart from the Bangla digits; Unicode normalisation is not part of the model. */
module Identity {

  predicate IsSpace(c: char) {
    c == ' ' || '\t' <= c <= '\r'
  }

  /** The white space of ASCII. */
  const BLANKS: string := " \t\n\U{0B}\U{0C}\r"

  lemma SpaceIs(c: char)
    ensures IsSpace(c) <==> c in BLANKS
  {
    assert BLANKS[0] == ' ' && BLANKS[1] == '\t' && BLANKS[2] == '\n' && BLANKS[3] == '\U{0B}';
    assert BLANKS[4] == '\U{0C}' && BLANKS[5] == '\r';
  }

  predicate IsDigit(c: char) {
    '0' <= c <= '9'
  }

  function TrimStart(s: string): (r: string)
    ensures r != "" ==> !IsSpace(r[0])
    ensures |r| <= |s|
  {
    if s != "" && IsSpace(s[0]) then TrimStart(s[1..]) else s
  }

  function TrimEnd(s: string): (r: string)
    ensures r <= s
    ensures r != "" ==> !IsSpace(r[|r| - 1])
  {
    if s != "" && IsSpace(s[|s| - 1]) then TrimEnd(s[..|s| - 1]) else s
  }

  function Trim(s: string): (r: string)
    ensures r != "" ==> !IsSpace(r[0]) && !IsSpace(r[|r| - 1])
  {
    TrimEnd(TrimStart(s))
  }

  function LowerChar(c: char): char {
    if 'A' <= c <= 'Z' then c - 'A' + 'a' else c
  }

  function Lower(s: string): (r: string)
    ensures |r| == |s|
  {
    seq(|s|, i requires 0 <= i < |s| => LowerChar(s[i]))
  }

  // ---------- emails and phones ----------

  function NormalizeEmail(value: string): string {
    Lower(Trim(value))
  }

  /** The migration's `safeEmail`. */
  function SafeEmail(value: string): string {
    if Trim(value) != "" then NormalizeEmail(value) else ""
  }

  predicate IsBanglaDigit(c: char) {
    '\U{09E6}' <= c <= '\U{09EF}'
  }

  /** Digits as ASCII, without white space and the characters `().-`. */
  function Compact(value: string): string {
    if value == "" then ""
    else
      var c := value[0];
      var digit := if IsBanglaDigit(c) then c - '\U{09E6}' + '0' else c;
      if IsSpace(c) || c == '(' || c == ')' || c == '.' || c == '-' then Compact(value[1..])
      else [digit] + Compact(value[1..])
  }

  predicate AllDigits(s: string) {
    forall i :: 0 <= i < |s| ==> IsDigit(s[i])
  }

  /** `01`, a digit from 3 to 9 and eight more. */
  predicate IsLocalMobile(s: string) {
    |s| == 11 && AllDigits(s) && s[0] == '0' && s[1] == '1' && s[2] >= '3'
  }

  /** `+`, the calling code 880 and the local number without its zero. */
  predicate IsMobile(s: string) {
    |s| == 14 && s[0] == '+' && s[1] == '8' && s[2] == '8' && IsLocalMobile(s[3..])
  }

  /** The migration's `safePhone`: the international form of a Bangladesh mobile number, or nothing where the
      normaliser throws. */
  function SafePhone(value: string): (r: string)
    ensures r == "" || IsMobile(r)
  {
    var compact := Compact(value);
    var withPlus := if |compact| >= 2 && compact[0] == '0' && compact[1] == '0' then "+" + compact[2..] else compact;
    if IsLocalMobile(compact) then
      assert ("+88" + compact)[3..] == compact;
      "+88" + compact
    else if IsMobile("+" + compact) then "+" + compact
    else if IsMobile(withPlus) then withPlus
    else ""
  }

  lemma {:induction false} CompactId(s: string)
    requires forall i :: 0 <= i < |s| ==> IsDigit(s[i]) || s[i] == '+'
    ensures Compact(s) == s
  {
    if s != "" {
      CompactId(s[1..]);
    }
  }

  /** A number in international form is its own normal form. */
  lemma MobileIsSafe(s: string)
    requires IsMobile(s)
    ensures SafePhone(s) == s
  {
    assert forall i :: 3 <= i < |s| ==> s[i] == s[3..][i - 3];
    CompactId(s);
  }

  /** Normalising a normalised phone changes nothing, and no phone gives none. */
  lemma SafePhoneStable(value: string)
    ensures SafePhone(SafePhone(value)) == SafePhone(value)
    ensures SafePhone("") == ""
  {
    var s := SafePhone(value);
    if s != "" {
      MobileIsSafe(s);
    }
  }

  /** Characters that may separate the digits of a number are dropped, Bangla digits become ASCII, all others stay. */
  lemma {:induction false} CompactParts(before: string, c: char, after: string)
    ensures Compact(before + [c] + after) ==
            Compact(before) +
            (if c in BLANKS || c in "().-" then ""
             else if '\U{09E6}' <= c <= '\U{09EF}' then [c - '\U{09E6}' + '0'] else [c]) +
            Compact(after)
  {
    var s := before + [c] + after;
    SpaceIs(c);
    hide IsSpace;
    if before == "" {
      assert s[1..] == after;
    } else {
      assert s[1..] == before[1..] + [c] + after;
      CompactParts(before[1..], c, after);
    }
  }

  /** `+8801`, a digit from 3 to 9 and eight more. */
  predicate IsInternational(r: string) {
    |r| == 14 && r[..5] == "+8801" && '3' <= r[5] <= '9' && forall i :: 6 <= i < 14 ==> '0' <= r[i] <= '9'
  }

  lemma MobileShape(r: string)
    ensures IsMobile(r) <==> IsInternational(r)
  {
    if |r| == 14 {
      var local := r[3..];
      assert forall i :: 0 <= i < 11 ==> local[i] == r[3 + i];
      if IsInternational(r) {
        assert r[0] == r[..5][0] && r[1] == r[..5][1] && r[2] == r[..5][2] && r[3] == r[..5][3] && r[4] == r[..5][4];
        assert AllDigits(local);
      }
      if IsMobile(r) {
        assert forall i :: 3 <= i < 14 ==> r[i] == local[i - 3];
      }
    }
  }

  lemma SafePhoneFrom(value: string, r: string)
    requires IsMobile(r)
    ensures SafePhone(value) == r <==> Compact(value) in {r, r[1..], "00" + r[1..], r[3..]}
  {
    var compact := Compact(value);
    assert r == "+" + r[1..] && r == "+88" + r[3..] && r[1..] == "88" + r[3..];
    if SafePhone(value) == r {
      if IsLocalMobile(compact) {
        assert r[3..] == compact;
      } else if IsMobile("+" + compact) {
        assert r[1..] == compact;
      } else if compact != r {
        assert compact == "00" + compact[2..] && r[1..] == compact[2..];
      }
    }
    if compact == "00" + r[1..] {
      assert compact[2..] == r[1..];
      assert ("+" + compact)[1] == '0' && compact[1] == '0';
    }
  }

  /** A phone becomes `r` exactly when `r` is an international number and the digits of the phone are `r`, `r` without
      the plus, `r` with `00` for the plus, or the local number of `r`; otherwise it becomes nothing. */
  lemma SafePhoneIff(value: string, r: string)
    requires r != ""
    ensures SafePhone(value) == r <==>
            IsInternational(r) && Compact(value) in {r, r[1..], "00" + r[1..], r[3..]}
  {
    MobileShape(r);
    hide SafePhone, Compact, IsInternational, IsMobile;
    if IsMobile(r) {
      SafePhoneFrom(value, r);
    }
    PhoneOrNothing(value);
  }

  lemma PhoneOrNothing(value: string)
    ensures SafePhone(value) == "" || IsMobile(SafePhone(value))
  {
  }

  /** A local number is accepted and becomes its international form. */
  lemma LocalAccepted(value: string)
    requires IsLocalMobile(value)
    ensures SafePhone(value) == "+88" + value && IsMobile("+88" + value)
  {
    var r := "+88" + value;
    assert r[3..] == value && r[1..] == "88" + value;
    CompactId(value);
    SafePhoneFrom(value, r);
  }

  predicate AllSpace(s: string) {
    forall i :: 0 <= i < |s| ==> s[i] in BLANKS
  }

  lemma {:induction false} TrimStartOf(before: string, core: string)
    requires AllSpace(before) && (core != "" ==> core[0] !in BLANKS)
    ensures TrimStart(before + core) == core
  {
    hide IsSpace;
    if before == "" {
      if core != "" {
        SpaceIs(core[0]);
      }
      assert before + core == core;
    } else {
      assert (before + core)[1..] == before[1..] + core;
      SpaceIs(before[0]);
      TrimStartOf(before[1..], core);
    }
  }

  lemma {:induction false} TrimEndOf(core: string, after: string)
    requires AllSpace(after) && (core != "" ==> core[|core| - 1] !in BLANKS)
    ensures TrimEnd(core + after) == core
    decreases |after|
  {
    hide IsSpace;
    if after == "" {
      if core != "" {
        SpaceIs(core[|core| - 1]);
      }
      assert core + after == core;
    } else {
      var n := |after| - 1;
      assert (core + after)[..|core| + n] == core + after[..n];
      SpaceIs(after[n]);
      TrimEndOf(core, after[..n]);
    }
  }

  /** An email is what stands between the white space around it, in lower case. */
  lemma SafeEmailOf(before: string, core: string, after: string)
    requires AllSpace(before) && AllSpace(after)
    requires core != "" ==> core[0] !in BLANKS && core[|core| - 1] !in BLANKS
    ensures var r := SafeEmail(before + core + after);
            && |r| == |core|
            && forall i :: 0 <= i < |r| ==>
                 r[i] == if 'A' <= core[i] <= 'Z' then core[i] - 'A' + 'a' else core[i]
  {
    if core == "" {
      assert AllSpace(before + after) && before + core + after == before + after;
      TrimStartOf(before + after, "");
      assert before + after + "" == before + after;
    } else {
      assert before + core + after == before + (core + after);
      TrimStartOf(before, core + after);
      TrimEndOf(core, after);
    }
  }

  lemma {:induction false} LowerStable(s: string)
    ensures Lower(Lower(s)) == Lower(s)
  {
  }

  lemma TrimId(s: string)
    requires s != "" ==> !IsSpace(s[0]) && !IsSpace(s[|s| - 1])
    ensures Trim(s) == s
  {
  }

  lemma SafeEmailStable(value: string)
    ensures SafeEmail(SafeEmail(value)) == SafeEmail(value)
    ensures SafeEmail("") == ""
  {
    var s := SafeEmail(value);
    if s != "" {
      var t := Trim(value);
      assert s[0] == LowerChar(t[0]) && s[|s| - 1] == LowerChar(t[|t| - 1]);
      TrimId(s);
      LowerStable(t);
    }
  }
}
