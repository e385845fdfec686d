/** Phone numbers and the spellings people use for them (src/lib/phone.js). */
module Phone {
  import opened Options
  import opened Text

  predicate PhoneShape(s: string) {
    forall i :: 0 <= i < |s| ==> IsDigit(s[i]) || IsSeparator(s[i]) || s[i] in {'+', '(', ')'}
  }

  function TrimStart(s: string): (r: string)
    ensures r != "" ==> !IsSpace(r[0])
    ensures |r| <= |s| && r == s[|s| - |r|..]
  {
    if s != "" && IsSpace(s[0]) then TrimStart(s[1..]) else s
  }

  function TrimEnd(s: string): (r: string)
    ensures r != "" ==> !IsSpace(r[|r| - 1])
    ensures r <= s
  {
    if s != "" && IsSpace(s[|s| - 1]) then TrimEnd(s[..|s| - 1]) else s
  }

  function Trim(s: string): string {
    TrimEnd(TrimStart(s))
  }

  function Digits(s: string): (r: string)
    ensures AllDigits(r)
  {
    if s == "" then "" else (if IsDigit(s[0]) then [s[0]] else "") + Digits(s[1..])
  }

  /** The rest of `s` after a bracketed trunk zero, if it starts with one. */
  function AfterTrunk(s: string): (r: Option<string>)
    ensures r.Some? ==> s != "" && s[0] == '(' && |r.value| < |s|
  {
    if s == "" || s[0] != '(' then None else
    var zero := TrimStart(s[1..]);
    if zero == "" || zero[0] != '0' then None else
    var close := TrimStart(zero[1..]);
    if close == "" || close[0] != ')' then None else Some(close[1..])
  }

  function WithoutTrunk(s: string): string
    decreases |s|
  {
    if s == "" then ""
    else if AfterTrunk(s).Some? then WithoutTrunk(AfterTrunk(s).value)
    else [s[0]] + WithoutTrunk(s[1..])
  }

  /** The digits of the configured code, or the Netherlands. */
  function CountryCode(setting: string): (cc: string)
    ensures AllDigits(cc) && cc != ""
  {
    if Digits(setting) != "" then Digits(setting) else "31"
  }

  predicate Plus(s: string) {
    s != "" && s[0] == '+'
  }

  /** The digits with their country code in front, by how they were written. */
  function International(plus: bool, digits: string, cc: string): string {
    if plus then digits
    else if |digits| >= 2 && digits[0] == '0' && digits[1] == '0' then digits[2..]
    else if digits != "" && digits[0] == '0' then cc + digits[1..]
    else if cc <= digits && |digits| >= 10 then digits
    else if |digits| <= 9 then cc + digits
    else digits
  }

  function InRange(international: string, trimmed: string): string {
    if |international| < 8 || |international| > 15 then trimmed else "+" + international
  }

  function Normalized(trimmed: string, withoutTrunk: string, cc: string): string {
    if Digits(withoutTrunk) == "" then trimmed
    else InRange(International(Plus(withoutTrunk), Digits(withoutTrunk), cc), trimmed)
  }

  function NormalizePhone(raw: string, cc: string): string {
    var trimmed := Trim(raw);
    if trimmed == "" || !PhoneShape(trimmed) then trimmed else Normalized(trimmed, WithoutTrunk(trimmed), cc)
  }

  // ---- text that has nothing to trim, strip or drop -------------------------------------------

  predicate Tight(s: string) {
    s != "" ==> !IsSpace(s[0]) && !IsSpace(s[|s| - 1])
  }

  lemma TrimIsTight(s: string)
    ensures Tight(Trim(s))
  {
    var t := TrimStart(s);
    assert TrimEnd(t) <= t;
  }

  lemma TightStays(s: string)
    requires Tight(s)
    ensures Trim(s) == s
  {
  }

  lemma {:induction false} DigitsOfDigits(s: string)
    requires AllDigits(s)
    ensures Digits(s) == s
  {
    if s != "" { DigitsOfDigits(s[1..]); }
  }

  lemma {:induction false} NoBracketNoTrunk(s: string)
    requires '(' !in s
    ensures WithoutTrunk(s) == s
  {
    if s != "" { NoBracketNoTrunk(s[1..]); }
  }

  // ---- idempotence ----------------------------------------------------------------------------

  predicate Normal(s: string) {
    Plus(s) && AllDigits(s[1..]) && 8 <= |s| - 1 <= 15
  }

  lemma TightReads(s: string, withoutTrunk: string, cc: string)
    requires s != "" && Tight(s) && PhoneShape(s) && WithoutTrunk(s) == withoutTrunk
    ensures NormalizePhone(s, cc) == Normalized(s, withoutTrunk, cc)
  {
    TightStays(s);
  }

  /** How a tight text without brackets comes out, given its digits. */
  lemma ReadsAs(s: string, digits: string, cc: string)
    requires s != "" && Tight(s) && PhoneShape(s) && '(' !in s && Digits(s) == digits != ""
    ensures NormalizePhone(s, cc) == InRange(International(Plus(s), digits, cc), s)
  {
    NoBracketNoTrunk(s);
    TightReads(s, s, cc);
  }

  lemma DigitsAfterPlus(d: string)
    requires AllDigits(d)
    ensures Digits("+" + d) == d
  {
    assert ("+" + d)[1..] == d;
    DigitsOfDigits(d);
  }

  lemma PlusThenDigits(d: string, trimmed: string, cc: string)
    requires AllDigits(d) && d != ""
    ensures Normalized(trimmed, "+" + d, cc) == InRange(d, trimmed)
  {
    DigitsAfterPlus(d);
  }

  lemma PlusDigitsRead(d: string, cc: string)
    requires AllDigits(d) && d != ""
    ensures NormalizePhone("+" + d, cc) == InRange(d, "+" + d)
  {
    var s := "+" + d;
    assert IsDigit(s[|s| - 1]);
    NoBracketNoTrunk(s);
    TightReads(s, s, cc);
    PlusThenDigits(d, s, cc);
  }

  lemma PlainDigitsRead(d: string, cc: string)
    requires AllDigits(d) && d != ""
    ensures NormalizePhone(d, cc) == InRange(International(false, d, cc), d)
  {
    DigitsOfDigits(d);
    ReadsAs(d, d, cc);
  }

  lemma NormalStays(s: string, cc: string)
    requires Normal(s)
    ensures NormalizePhone(s, cc) == s
  {
    assert s == "+" + s[1..];
    PlusDigitsRead(s[1..], cc);
  }

  lemma InternationalIsDigits(plus: bool, digits: string, cc: string)
    requires AllDigits(digits) && AllDigits(cc)
    ensures AllDigits(International(plus, digits, cc))
  {
  }

  lemma InRangeIsNormal(international: string, trimmed: string)
    requires AllDigits(international)
    ensures Normal(InRange(international, trimmed)) || InRange(international, trimmed) == trimmed
  {
    assert ("+" + international)[1..] == international;
  }

  lemma NormalizedOrTrimmed(trimmed: string, withoutTrunk: string, cc: string)
    requires AllDigits(cc)
    ensures Normal(Normalized(trimmed, withoutTrunk, cc)) || Normalized(trimmed, withoutTrunk, cc) == trimmed
  {
    InternationalIsDigits(Plus(withoutTrunk), Digits(withoutTrunk), cc);
    InRangeIsNormal(International(Plus(withoutTrunk), Digits(withoutTrunk), cc), trimmed);
  }

  /** A result is either in normal form or the trimmed input. */
  lemma NormalOrUntouched(raw: string, cc: string)
    requires AllDigits(cc)
    ensures Normal(NormalizePhone(raw, cc)) || NormalizePhone(raw, cc) == Trim(raw)
  {
    NormalizedOrTrimmed(Trim(raw), WithoutTrunk(Trim(raw)), cc);
  }

  /** Normalising twice is normalising once, on every string and for every configuration. */
  lemma NormalizeIsIdempotent(raw: string, setting: string)
    ensures var cc := CountryCode(setting); NormalizePhone(NormalizePhone(raw, cc), cc) == NormalizePhone(raw, cc)
  {
    var cc := CountryCode(setting);
    NormalOrUntouched(raw, cc);
    var result := NormalizePhone(raw, cc);
    if Normal(result) {
      NormalStays(result, cc);
    } else {
      TrimIsTight(raw);
      TightStays(result);
    }
  }

  // ---- spellings of one number ------------------------------------------------------------------

  /** A subscriber number `n` under country code `cc`, 10 to 15 digits together. */
  predicate IsNumber(cc: string, n: string) {
    && AllDigits(cc) && AllDigits(n) && 10 <= |cc + n| <= 15
    && cc != "" && cc[0] != '0' && (n != "" ==> n[0] != '0')
  }

  function Spellings(cc: string, n: string): set<string> {
    {"+" + (cc + n), cc + n, "00" + (cc + n), "0" + n}
  }

  lemma DigitsOfFirst(c: char, rest: string)
    ensures Digits([c] + rest) == (if IsDigit(c) then [c] else "") + Digits(rest)
  {
    assert ([c] + rest)[1..] == rest;
  }

  lemma {:induction false} DigitsAppend(s: string, t: string)
    ensures Digits(s + t) == Digits(s) + Digits(t)
  {
    if s == "" {
      assert s + t == t;
    } else {
      assert s + t == [s[0]] + (s[1..] + t) && s == [s[0]] + s[1..];
      DigitsOfFirst(s[0], s[1..] + t);
      DigitsOfFirst(s[0], s[1..]);
      DigitsAppend(s[1..], t);
    }
  }

  lemma AnySpellingNormalises(cc: string, n: string, s: string)
    requires IsNumber(cc, n) && s in Spellings(cc, n)
    ensures NormalizePhone(s, cc) == "+" + (cc + n)
  {
    var d := cc + n;
    if s == "+" + d {
      PlusDigitsRead(d, cc);
    } else {
      PlainDigitsRead(s, cc);
      assert International(false, s, cc) == d by { SpellingsMean(cc, n, s); }
    }
  }

  lemma SpellingsMean(cc: string, n: string, s: string)
    requires IsNumber(cc, n) && s in {cc + n, "00" + (cc + n), "0" + n}
    ensures International(false, s, cc) == cc + n
  {
    if s == "00" + (cc + n) {
      assert s[2..] == cc + n;
    } else if s == "0" + n {
      assert s[1..] == n;
    }
  }

  /** The plus sign may be left off exactly from 10 digits on. */
  lemma PlusMayBeLeftOffFromTenDigits(cc: string, n: string)
    requires AllDigits(cc) && AllDigits(n) && cc != "" && cc[0] != '0' && 8 <= |cc + n| <= 15
    ensures NormalizePhone(cc + n, cc) == "+" + (cc + n) <==> |cc + n| >= 10
  {
    PlainDigitsRead(cc + n, cc);
    if |cc + n| < 10 {
      assert |InRange(International(false, cc + n, cc), cc + n)| != |"+" + (cc + n)|;
    }
  }

  lemma TrunkShape(cc: string, n: string)
    requires AllDigits(cc) && AllDigits(n) && n != ""
    ensures Tight("+" + cc + ("(0)" + n)) && PhoneShape("+" + cc + ("(0)" + n))
  {
    var s := "+" + cc + ("(0)" + n);
    assert s[|s| - 1] == n[|n| - 1];
  }

  /** Digits that do not start with a zero: up to nine are a number of the country with its leading
      zero left off, more are international already; and what does not come to 8 to 15 digits is
      left alone. */
  lemma BareDigits(cc: string, n: string)
    requires AllDigits(cc) && AllDigits(n) && n != "" && n[0] != '0'
    ensures |n| <= 9 ==> NormalizePhone(n, cc) == if 8 <= |cc| + |n| <= 15 then "+" + (cc + n) else n
    ensures |n| >= 10 ==> NormalizePhone(n, cc) == if |n| <= 15 then "+" + n else n
  {
    PlainDigitsRead(n, cc);
  }

  /** So the fifth spelling of a short subscriber number, `n` alone, means the same as the others. */
  lemma LeadingZeroMayBeLeftOff(cc: string, n: string)
    requires IsNumber(cc, n) && 1 <= |n| <= 9
    ensures NormalizePhone(n, cc) == NormalizePhone("0" + n, cc) == "+" + (cc + n)
  {
    BareDigits(cc, n);
    AnySpellingNormalises(cc, n, "0" + n);
  }

  /** A text with anything else in it is only trimmed. */
  lemma OtherTextsAreLeftAlone(raw: string, i: nat, cc: string)
    requires i < |Trim(raw)|
    requires !IsDigit(Trim(raw)[i]) && !IsSpace(Trim(raw)[i]) && Trim(raw)[i] !in {'+', '(', ')', '.', '-'}
    ensures NormalizePhone(raw, cc) == Trim(raw)
  {
    assert !PhoneShape(Trim(raw));
  }

  /** The configured code is its digits, and 31 without any. */
  lemma WhichCountryCode(setting: string)
    ensures AllDigits(setting) && setting != "" ==> CountryCode(setting) == setting
    ensures CountryCode("") == "31"
  {
    if AllDigits(setting) { DigitsOfDigits(setting); }
  }

  /** "+31(0)6...": a bracketed trunk zero after the country code is dropped. */
  lemma TrunkZeroIsDropped(cc: string, n: string)
    requires IsNumber(cc, n) && n != ""
    ensures NormalizePhone("+" + cc + ("(0)" + n), cc) == "+" + (cc + n)
  {
    var s := "+" + cc + ("(0)" + n);
    TrunkShape(cc, n);
    TrunkAfter("+" + cc, n);
    assert "+" + cc + n == "+" + (cc + n);
    TightReads(s, "+" + (cc + n), cc);
    PlusThenDigits(cc + n, s, cc);
  }

  lemma TrunkAtStart(n: string)
    requires '(' !in n
    ensures WithoutTrunk("(0)" + n) == n
  {
    AfterPlainTrunk(n);
    NoBracketNoTrunk(n);
  }

  lemma AfterPlainTrunk(n: string)
    ensures AfterTrunk("(0)" + n) == Some(n)
  {
    assert ("(0)" + n)[1..] == "0)" + n;
    NothingToTrim('0', ")" + n);
    assert "0)" + n == ['0'] + (")" + n);
    assert ("0)" + n)[1..] == ")" + n;
    NothingToTrim(')', n);
    assert (")" + n)[1..] == n;
  }

  lemma NothingToTrim(c: char, rest: string)
    requires !IsSpace(c)
    ensures TrimStart([c] + rest) == [c] + rest
  {
  }

  lemma {:induction false} TrunkAfter(s: string, n: string)
    requires '(' !in s && '(' !in n
    ensures WithoutTrunk(s + ("(0)" + n)) == s + n
  {
    if s == "" {
      assert s + ("(0)" + n) == "(0)" + n;
      TrunkAtStart(n);
      assert s + n == n;
    } else {
      assert (s + ("(0)" + n))[1..] == s[1..] + ("(0)" + n);
      assert AfterTrunk(s + ("(0)" + n)) == None;
      TrunkAfter(s[1..], n);
      assert [s[0]] + (s[1..] + n) == s + n;
    }
  }

  lemma SeparatorHasNoDigits(p: string, c: char, q: string)
    requires IsSeparator(c)
    ensures Digits(p + [c] + q) == Digits(p + q)
  {
    DigitsAppend(p, q);
    DigitsAppend(p + [c], q);
    DigitsAppend(p, [c]);
    assert Digits([c]) == Digits([c][1..]);
  }

  lemma SeparatorKeepsShape(p: string, c: char, q: string)
    requires p != "" && q != "" && IsSeparator(c) && Tight(p + q) && PhoneShape(p + q) && '(' !in p + q
    ensures Tight(p + [c] + q) && PhoneShape(p + [c] + q) && '(' !in p + [c] + q
  {
    var s, t := p + q, p + [c] + q;
    assert t[0] == s[0] && t[|t| - 1] == s[|s| - 1];
    forall i | 0 <= i < |t| ensures t[i] == c || t[i] in s {
      if i < |p| { assert t[i] == s[i]; } else if i > |p| { assert t[i] == s[i - 1]; }
    }
  }

  lemma NormalDigits(s: string)
    requires Normal(s)
    ensures Digits(s) == s[1..]
  {
    DigitsOfDigits(s[1..]);
  }

  /** Spaces, dots and hyphens inside a number make no difference (brackets may: they can hold the
      trunk zero). */
  lemma SeparatorsMakeNoDifference(p: string, c: char, q: string, cc: string)
    requires p != "" && q != "" && IsSeparator(c) && Tight(p + q) && PhoneShape(p + q) && '(' !in p + q
    requires Normal(NormalizePhone(p + q, cc))
    ensures NormalizePhone(p + [c] + q, cc) == NormalizePhone(p + q, cc)
  {
    var s, t := p + q, p + [c] + q;
    SeparatorHasNoDigits(p, c, q);
    SeparatorKeepsShape(p, c, q);
    assert t[0] == s[0];
    if Normal(s) { NormalDigits(s); }
    NoBracketNoTrunk(s);
    TightReads(s, s, cc);
    ReadsAs(t, Digits(s), cc);
  }

  // ---- looking a customer up -------------------------------------------------------------------

  predicate PlusDigits(s: string) {
    |s| > 1 && s[0] == '+' && AllDigits(s[1..])
  }

  /** The forms a number of digits `d` may have been stored in. */
  function StoredForms(d: string, cc: string): set<string> {
    {"+" + d, d, "00" + d} + if cc <= d then {"0" + d[|cc|..]} else {}
  }

  function FormsOf(trimmed: string, normalized: string, cc: string): set<string> {
    {trimmed, normalized} + if PlusDigits(normalized) then StoredForms(normalized[1..], cc) else {}
  }

  function Variants(raw: string, cc: string): set<string> {
    if Trim(raw) == "" then {} else FormsOf(Trim(raw), NormalizePhone(raw, cc), cc)
  }

  lemma FormsOfNumber(cc: string, n: string)
    requires IsNumber(cc, n)
    ensures PlusDigits("+" + (cc + n)) && StoredForms(("+" + (cc + n))[1..], cc) == Spellings(cc, n)
  {
    var d := cc + n;
    assert ("+" + d)[1..] == d;
    assert d[|cc|..] == n;
  }

  lemma SpellingsAreTight(cc: string, n: string, s: string)
    requires IsNumber(cc, n) && s in Spellings(cc, n)
    ensures Trim(s) == s != ""
  {
    assert s[0] in {'+', '0'} || s[0] == cc[0];
    assert IsDigit(s[|s| - 1]);
    TightStays(s);
  }

  /** Whichever spelling of a number is typed, all four are looked up, and nothing else. */
  lemma EverySpellingFindsAll(cc: string, n: string, s: string)
    requires IsNumber(cc, n) && s in Spellings(cc, n)
    ensures Variants(s, cc) == Spellings(cc, n)
  {
    AnySpellingNormalises(cc, n, s);
    FormsOfNumber(cc, n);
    SpellingsAreTight(cc, n, s);
  }

  lemma TrimTwice(raw: string, cc: string)
    ensures Trim(Trim(raw)) == Trim(raw) && NormalizePhone(Trim(raw), cc) == NormalizePhone(raw, cc)
  {
    TrimIsTight(raw);
    TightStays(Trim(raw));
  }

  method Collect(trimmed: string, normalized: string, cc: string) returns (variants: set<string>)
    ensures variants == FormsOf(trimmed, normalized, cc)
  {
    variants := {trimmed};
    variants := variants + {normalized};
    if PlusDigits(normalized) {
      var digits := normalized[1..];
      assert normalized == "+" + digits;
      variants := variants + {digits};
      variants := variants + {"00" + digits};
      if cc <= digits { variants := variants + {"0" + digits[|cc|..]}; }
    }
  }

  method PhoneLookupVariants(raw: string, cc: string) returns (variants: set<string>)
    ensures variants == Variants(raw, cc)
  {
    var trimmed := Trim(raw);
    if trimmed == "" { return {}; }
    TrimTwice(raw, cc);
    variants := Collect(trimmed, NormalizePhone(trimmed, cc), cc);
  }
}
