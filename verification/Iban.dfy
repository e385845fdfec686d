/** The IBAN check (src/lib/taxIdentifiers.js `normalizeIban`): ISO 13616 numbers, verified by the
    MOD 97-10 scheme of ISO/IEC 7064. */
module Iban {
  import opened Options
  import opened Text

  function Upper(c: char): char {
    if 'a' <= c <= 'z' then c - 'a' + 'A' else c
  }

  function Compact(s: string): string {
    if s == "" then "" else (if IsSeparator(s[0]) then "" else [Upper(s[0])]) + Compact(s[1..])
  }

  predicate IsAlnum(c: char) {
    IsUpper(c) || IsDigit(c)
  }

  predicate IsFormatted(v: string) {
    && 15 <= |v| <= 34
    && IsUpper(v[0]) && IsUpper(v[1]) && IsDigit(v[2]) && IsDigit(v[3])
    && forall i :: 4 <= i < |v| ==> IsAlnum(v[i])
  }

  // ---- the number an IBAN stands for ----------------------------------------------------------

  function DigitOf(c: char): int {
    c as int - '0' as int
  }

  /** The value of a letter: 10 for A to 35 for Z. */
  function LetterOf(c: char): nat
    requires IsUpper(c)
  {
    (c - 'A') as nat + 10
  }

  function DigitChar(d: nat): (c: char)
    requires d <= 9
    ensures DigitOf(c) == d
  {
    '0' + d as char
  }

  function Expanded(c: char): string {
    if IsUpper(c) then [DigitChar(LetterOf(c) / 10), DigitChar(LetterOf(c) % 10)] else [c]
  }

  function Expand(s: string): string {
    if s == "" then "" else Expand(s[..|s| - 1]) + Expanded(s[|s| - 1])
  }

  /** A decimal numeral's value. */
  function Number(s: string): int {
    if s == "" then 0 else 10 * Number(s[..|s| - 1]) + DigitOf(s[|s| - 1])
  }

  function Rearranged(v: string): string
    requires |v| >= 4
  {
    v[4..] + v[..4]
  }

  /** The whole number the check is about. */
  function Value(s: string): int {
    Number(Expand(s))
  }

  predicate Accepted(v: string) {
    IsFormatted(v) && Value(Rearranged(v)) % 97 == 1
  }

  lemma NumberStep(digits: string, i: nat)
    requires i < |digits|
    ensures Number(digits[..i + 1]) == 10 * Number(digits[..i]) + DigitOf(digits[i])
  {
    assert digits[..i + 1][..i] == digits[..i];
  }

  lemma RemainderStep(n: int, d: int)
    ensures ((n % 97) * 10 + d) % 97 == (10 * n + d) % 97
  {
    assert 10 * n + d == (n % 97) * 10 + d + 97 * (10 * (n / 97));
  }

  /** The streamed remainder is the whole number's. */
  method Remainder(digits: string) returns (rem: int)
    ensures rem == Number(digits) % 97
  {
    rem := 0;
    for i := 0 to |digits|
      invariant rem == Number(digits[..i]) % 97
    {
      NumberStep(digits, i);
      RemainderStep(Number(digits[..i]), DigitOf(digits[i]));
      rem := (rem * 10 + DigitOf(digits[i])) % 97;
    }
    assert digits[..|digits|] == digits;
  }

  method NormalizeIban(value: string) returns (iban: Option<string>)
    ensures iban == if Accepted(Compact(value)) then Some(Compact(value)) else None
  {
    var v := Compact(value);
    if !IsFormatted(v) { return None; }
    var rem := Remainder(Expand(Rearranged(v)));
    return if rem == 1 then Some(v) else None;
  }

  // ---- a normalised IBAN is its own normal form -------------------------------------------------

  predicate AllAlnum(s: string) {
    forall i :: 0 <= i < |s| ==> IsAlnum(s[i])
  }

  lemma {:induction false} CompactStays(s: string)
    requires AllAlnum(s)
    ensures Compact(s) == s
  {
    if s != "" { CompactStays(s[1..]); }
  }

  lemma FormattedIsAlnum(v: string)
    requires IsFormatted(v)
    ensures AllAlnum(v)
  {
  }

  /** What the check returns, it accepts and returns again. */
  lemma AcceptedIsCompact(v: string)
    requires Accepted(v)
    ensures Compact(v) == v
  {
    FormattedIsAlnum(v);
    CompactStays(v);
  }

  // ---- what the pieces are ------------------------------------------------------------------------

  lemma {:induction false} CompactAppend(s: string, t: string)
    ensures Compact(s + t) == Compact(s) + Compact(t)
  {
    if s == "" {
      assert s + t == t;
    } else {
      assert (s + t)[1..] == s[1..] + t;
      CompactAppend(s[1..], t);
    }
  }

  lemma CompactOfOne(c: char)
    ensures Compact([c]) == if IsSeparator(c) then "" else [Upper(c)]
  {
    assert Compact([c][1..]) == "";
  }

  lemma CompactOfThree(p: string, c: char, q: string)
    ensures Compact(p + [c] + q) == Compact(p) + (if IsSeparator(c) then "" else [Upper(c)]) + Compact(q)
  {
    CompactAppend(p + [c], q);
    CompactAppend(p, [c]);
    CompactOfOne(c);
  }

  /** Spaces, dots and hyphens may stand anywhere, ... */
  lemma SeparatorsMakeNoDifference(p: string, c: char, q: string)
    requires IsSpace(c) || c == '.' || c == '-'
    ensures Compact(p + [c] + q) == Compact(p + q)
  {
    CompactOfThree(p, c, q);
    CompactAppend(p, q);
    assert Compact(p) + "" == Compact(p);
  }

  lemma SameUpper(p: string, c: char, d: char, q: string)
    requires Upper(c) == Upper(d) && !IsSeparator(c) && !IsSeparator(d)
    ensures Compact(p + [c] + q) == Compact(p + [d] + q)
  {
    CompactOfThree(p, c, q);
    CompactOfThree(p, d, q);
  }

  /** ... and letters may be small. */
  lemma CaseMakesNoDifference(p: string, c: char, d: char, q: string)
    requires 'A' <= c <= 'Z' && 'a' <= d <= 'z' && d - 'a' == c - 'A'
    ensures Compact(p + [d] + q) == Compact(p + [c] + q)
  {
    SameUpper(p, c, d, q);
  }

  /** The shape: two letters, two digits and 11 to 30 letters or digits, nothing more and nothing less. */
  lemma WhatIsFormatted(country: string, check: string, account: string)
    requires |country| == |check| == 2
    ensures IsFormatted(country + check + account) <==>
            && IsUpper(country[0]) && IsUpper(country[1]) && AllDigits(check) && 11 <= |account| <= 30
            && forall i :: 0 <= i < |account| ==> IsUpper(account[i]) || IsDigit(account[i])
  {
    var v := country + check + account;
    assert |account| + 4 == |v|;
    forall i | 0 <= i < |account| ensures v[i + 4] == account[i] {
    }
    assert forall i :: 4 <= i < |v| ==> v[i] == account[i - 4];
  }

  /** Letters stand for the numbers from 10 on, in two digits. */
  lemma LettersStandForNumbers(c: char)
    requires IsUpper(c)
    ensures |Expanded(c)| == 2 && AllDigits(Expanded(c)) && Number(Expanded(c)) == c as int - 'A' as int + 10
    ensures Expanded('A') == "10" && Expanded('Z') == "35"
  {
    var s := Expanded(c);
    assert s[..1] == [s[0]] && [s[0]][..0] == "";
    assert Number([s[0]]) == DigitOf(s[0]);
    assert Number(s) == 10 * Number(s[..1]) + DigitOf(s[1]);
  }

  // ---- the value, character by character ---------------------------------------------------------

  /** `n` with one more character behind it. */
  function Then(n: int, c: char): int {
    if IsUpper(c) then 100 * n + LetterOf(c) else 10 * n + DigitOf(c)
  }

  /** What `Value` comes to without writing the digits out. */
  function Weight(s: string): int {
    if s == "" then 0 else Then(Weight(s[..|s| - 1]), s[|s| - 1])
  }

  lemma NumberPlusOne(s: string, c: char)
    ensures Number(s + [c]) == 10 * Number(s) + DigitOf(c)
  {
    assert (s + [c])[..|s|] == s;
  }

  lemma NumberPlus(s: string, c: char)
    ensures Number(s + Expanded(c)) == Then(Number(s), c)
  {
    if IsUpper(c) {
      var tens, units := DigitChar(LetterOf(c) / 10), DigitChar(LetterOf(c) % 10);
      assert s + [tens, units] == s + [tens] + [units];
      NumberPlusOne(s, tens);
      NumberPlusOne(s + [tens], units);
    } else {
      NumberPlusOne(s, c);
    }
  }

  lemma {:induction false} ValueIsWeight(s: string)
    ensures Value(s) == Weight(s)
  {
    if s != "" {
      ValueIsWeight(s[..|s| - 1]);
      NumberPlus(Expand(s[..|s| - 1]), s[|s| - 1]);
    }
  }

  lemma WeightPlus(s: string, c: char)
    ensures Weight(s + [c]) == Then(Weight(s), c)
  {
    assert (s + [c])[..|s|] == s;
  }

  // ---- texts with the same tail --------------------------------------------------------------------

  predicate SameFrom(x: string, y: string, j: nat) {
    j <= |x| == |y| && forall k :: j <= k < |x| ==> x[k] == y[k]
  }

  lemma Front(x: string, j: nat)
    requires j < |x|
    ensures x[..|x| - 1][..j] == x[..j]
  {
  }

  /** A difference is a multiple of 97 only if it was one before the common tail: 97 divides
      neither 10 nor 100. */
  lemma {:induction false} SameTail(x: string, y: string, j: nat, q: int) returns (r: int)
    requires SameFrom(x, y, j) && Weight(x) - Weight(y) == 97 * q
    ensures Weight(x[..j]) - Weight(y[..j]) == 97 * r
    decreases |x|
  {
    if j == |x| {
      assert x[..j] == x && y[..j] == y;
      r := q;
    } else {
      var f, g := x[..|x| - 1], y[..|y| - 1];
      Front(x, j);
      Front(y, j);
      r := SameTail(f, g, j, Undo(Weight(f), Weight(g), x[|x| - 1], q));
    }
  }

  function Undo(m: int, n: int, c: char, q: int): (r: int)
    requires Then(m, c) - Then(n, c) == 97 * q
    ensures m - n == 97 * r
  {
    if IsUpper(c) then 65 * q - 67 * (m - n) else 68 * q - 7 * (m - n)
  }

  lemma {:induction false} SameHeadSameWeight(x: string, y: string, j: nat)
    requires SameFrom(x, y, j) && Weight(x[..j]) == Weight(y[..j])
    ensures Weight(x) == Weight(y)
    decreases |x|
  {
    if j == |x| {
      assert x[..j] == x && y[..j] == y;
    } else {
      Front(x, j);
      Front(y, j);
      SameHeadSameWeight(x[..|x| - 1], y[..|y| - 1], j);
    }
  }

  lemma SameRemainder(x: int, y: int) returns (q: int)
    requires x % 97 == y % 97
    ensures x - y == 97 * q
  {
    q := x / 97 - y / 97;
  }

  // ---- one wrong character --------------------------------------------------------------------

  /** A digit for a digit, or a letter for a letter. */
  predicate SameClass(c: char, d: char) {
    (IsDigit(c) && IsDigit(d)) || (IsUpper(c) && IsUpper(d))
  }

  lemma CharsDiffer(n: int, c: char, d: char, r: int)
    requires c != d && SameClass(c, d)
    ensures Then(n, c) - Then(n, d) != 97 * r
  {
  }

  lemma SubstitutionNoticed(x: string, p: nat, d: char, q: int)
    requires p < |x| && d != x[p] && SameClass(x[p], d)
    ensures Weight(x) - Weight(x[p := d]) != 97 * q
  {
    var y := x[p := d];
    if Weight(x) - Weight(y) == 97 * q {
      var r := SameTail(x, y, p + 1, q);
      assert x[..p + 1] == x[..p] + [x[p]] && y[..p + 1] == x[..p] + [d];
      WeightPlus(x[..p], x[p]);
      WeightPlus(x[..p], d);
      CharsDiffer(Weight(x[..p]), x[p], d, r);
    }
  }

  /** Where the character at `i` of an IBAN goes. */
  function Moved(v: string, i: nat): nat
    requires 4 <= |v| && i < |v|
  {
    if i < 4 then |v| - 4 + i else i - 4
  }

  lemma NotBothAccepted(v: string, w: string)
    requires |v| >= 4 && |w| >= 4 && forall q :: Weight(Rearranged(v)) - Weight(Rearranged(w)) != 97 * q
    ensures !(Accepted(v) && Accepted(w))
  {
    ValueIsWeight(Rearranged(v));
    ValueIsWeight(Rearranged(w));
    if Accepted(v) && Accepted(w) {
      var q := SameRemainder(Weight(Rearranged(v)), Weight(Rearranged(w)));
    }
  }

  /** No single digit-for-digit or letter-for-letter slip, anywhere in an IBAN, goes unnoticed. */
  lemma OneWrongCharacterIsNoticed(v: string, i: nat, d: char)
    requires Accepted(v) && i < |v| && d != v[i] && SameClass(v[i], d)
    ensures IsFormatted(v[i := d]) && !Accepted(v[i := d])
  {
    var w := v[i := d];
    assert Rearranged(w) == Rearranged(v)[Moved(v, i) := d];
    forall q ensures Weight(Rearranged(v)) - Weight(Rearranged(w)) != 97 * q {
      SubstitutionNoticed(Rearranged(v), Moved(v, i), d, q);
    }
    NotBothAccepted(v, w);
  }

  // ---- two characters swapped --------------------------------------------------------------------

  function Swapped(v: string, i: nat): string
    requires i + 1 < |v|
  {
    v[i := v[i + 1]][i + 1 := v[i]]
  }

  /** The pairs the scheme cannot tell apart: a letter worth eleven times the digit beside it. */
  predicate Blind(c: char, d: char) {
    (c == 'B' && d == '1') || (c == 'M' && d == '2') || (c == 'X' && d == '3')
  }

  lemma NineIsNoDivisor(t: int, q: int)
    requires -96 <= t <= 96 && 9 * t == 97 * q
    ensures t == 0
  {
    assert t == 97 * (54 * q - 5 * t);
  }

  lemma NinetyNineIsNoDivisor(t: int, q: int)
    requires -96 <= t <= 96 && 99 * t == 97 * q
    ensures t == 0
  {
    assert t == 97 * (49 * q - 50 * t);
  }

  lemma PairNoticed(n: int, c: char, d: char, q: int)
    requires IsAlnum(c) && IsAlnum(d) && c != d && Then(Then(n, c), d) - Then(Then(n, d), c) == 97 * q
    ensures Blind(c, d) || Blind(d, c)
  {
    if IsUpper(c) && IsDigit(d) {
      NineIsNoDivisor(LetterOf(c) - 11 * DigitOf(d), q);
    } else if IsDigit(c) && IsUpper(d) {
      NineIsNoDivisor(LetterOf(d) - 11 * DigitOf(c), -q);
    } else if IsDigit(c) {
      NineIsNoDivisor(DigitOf(c) - DigitOf(d), q);
    } else {
      NinetyNineIsNoDivisor(LetterOf(c) - LetterOf(d), q);
    }
  }

  lemma PairWeight(s: string, c: char, d: char)
    ensures Weight(s + [c, d]) == Then(Then(Weight(s), c), d)
  {
    assert s + [c, d] == s + [c] + [d];
    WeightPlus(s, c);
    WeightPlus(s + [c], d);
  }

  lemma HeadsOfSwapped(x: string, p: nat)
    requires p + 1 < |x|
    ensures Weight(x[..p + 2]) == Then(Then(Weight(x[..p]), x[p]), x[p + 1])
    ensures Weight(Swapped(x, p)[..p + 2]) == Then(Then(Weight(x[..p]), x[p + 1]), x[p])
    ensures SameFrom(x, Swapped(x, p), p + 2)
  {
    assert x[..p + 2] == x[..p] + [x[p], x[p + 1]];
    assert Swapped(x, p)[..p + 2] == x[..p] + [x[p + 1], x[p]];
    PairWeight(x[..p], x[p], x[p + 1]);
    PairWeight(x[..p], x[p + 1], x[p]);
  }

  lemma SwapNoticed(x: string, p: nat, q: int)
    requires p + 1 < |x| && IsAlnum(x[p]) && IsAlnum(x[p + 1]) && x[p] != x[p + 1]
    requires !Blind(x[p], x[p + 1]) && !Blind(x[p + 1], x[p])
    ensures Weight(x) - Weight(Swapped(x, p)) != 97 * q
  {
    if Weight(x) - Weight(Swapped(x, p)) == 97 * q {
      HeadsOfSwapped(x, p);
      var r := SameTail(x, Swapped(x, p), p + 2, q);
      PairNoticed(Weight(x[..p]), x[p], x[p + 1], r);
    }
  }

  lemma BlindSwap(x: string, p: nat)
    requires p + 1 < |x| && (Blind(x[p], x[p + 1]) || Blind(x[p + 1], x[p]))
    ensures Weight(x) == Weight(Swapped(x, p))
  {
    HeadsOfSwapped(x, p);
    SameHeadSameWeight(x, Swapped(x, p), p + 2);
  }

  lemma SwappedStaysFormatted(v: string, i: nat)
    requires IsFormatted(v) && i + 1 < |v| && i != 1 && i != 3
    ensures IsFormatted(Swapped(v, i)) && Moved(v, i + 1) == Moved(v, i) + 1
    ensures Rearranged(Swapped(v, i)) == Swapped(Rearranged(v), Moved(v, i))
    ensures IsAlnum(v[i]) && IsAlnum(v[i + 1])
    ensures Rearranged(v)[Moved(v, i)] == v[i] && Rearranged(v)[Moved(v, i) + 1] == v[i + 1]
    ensures i < 4 ==> !Blind(v[i], v[i + 1]) && !Blind(v[i + 1], v[i])
  {
  }

  lemma NeighboursSwapped(v: string, i: nat)
    requires Accepted(v) && i + 1 < |v| && i != 1 && i != 3 && v[i] != v[i + 1]
    ensures Accepted(Swapped(v, i)) <==> Blind(v[i], v[i + 1]) || Blind(v[i + 1], v[i])
  {
    SwappedStaysFormatted(v, i);
    var w, x, p := Swapped(v, i), Rearranged(v), Moved(v, i);
    if Blind(v[i], v[i + 1]) || Blind(v[i + 1], v[i]) {
      BlindSwap(x, p);
      ValueIsWeight(x);
      ValueIsWeight(Rearranged(w));
    } else {
      forall q ensures Weight(x) - Weight(Rearranged(w)) != 97 * q { SwapNoticed(x, p, q); }
      NotBothAccepted(v, w);
    }
  }

  // ---- the last check digit and the first of the account ------------------------------------------

  /** They end up at the two ends of the rearranged text, at most 64 places apart; modulo 97 the
      powers of ten only come back to 1 after 96. */
  function Reduced(n: nat): nat
    requires n < 970
  {
    if n < 485 then
      if n < 97 then n else if n < 194 then n - 97 else if n < 291 then n - 194 else if n < 388 then n - 291 else n - 388
    else
      if n < 582 then n - 485 else if n < 679 then n - 582 else if n < 776 then n - 679 else if n < 873 then n - 776 else n - 873
  }

  lemma ReducedBy(n: nat) returns (q: int)
    requires n < 970
    ensures n == 97 * q + Reduced(n) && Reduced(n) < 97
  {
    q := (n - Reduced(n)) / 97;
  }

  /** 1 followed by `k` zeros, modulo 97. */
  function Power(k: nat): (p: nat)
    ensures p < 97
  {
    if k == 0 then 1 else Reduced(10 * Power(k - 1))
  }

  /** No 1 among the eight powers after the `k`-th. */
  predicate NoOneAfter(k: nat) {
    && Power(k + 1) != 1 && Power(k + 2) != 1 && Power(k + 3) != 1 && Power(k + 4) != 1
    && Power(k + 5) != 1 && Power(k + 6) != 1 && Power(k + 7) != 1 && Power(k + 8) != 1
  }

  lemma EightAfter1(k: nat)
    requires Power(k) == 1
    ensures NoOneAfter(k) && Power(k + 8) == 81
  {
    assert Power(k + 1) == 10 && Power(k + 2) == 3 && Power(k + 3) == 30 && Power(k + 4) == 9;
    assert Power(k + 5) == 90 && Power(k + 6) == 27 && Power(k + 7) == 76;
  }

  lemma EightAfter81(k: nat)
    requires Power(k) == 81
    ensures NoOneAfter(k) && Power(k + 8) == 62
  {
    assert Power(k + 1) == 34 && Power(k + 2) == 49 && Power(k + 3) == 5 && Power(k + 4) == 50;
    assert Power(k + 5) == 15 && Power(k + 6) == 53 && Power(k + 7) == 45;
  }

  lemma EightAfter62(k: nat)
    requires Power(k) == 62
    ensures NoOneAfter(k) && Power(k + 8) == 75
  {
    assert Power(k + 1) == 38 && Power(k + 2) == 89 && Power(k + 3) == 17 && Power(k + 4) == 73;
    assert Power(k + 5) == 51 && Power(k + 6) == 25 && Power(k + 7) == 56;
  }

  lemma EightAfter75(k: nat)
    requires Power(k) == 75
    ensures NoOneAfter(k) && Power(k + 8) == 61
  {
    assert Power(k + 1) == 71 && Power(k + 2) == 31 && Power(k + 3) == 19 && Power(k + 4) == 93;
    assert Power(k + 5) == 57 && Power(k + 6) == 85 && Power(k + 7) == 74;
  }

  lemma EightAfter61(k: nat)
    requires Power(k) == 61
    ensures NoOneAfter(k) && Power(k + 8) == 91
  {
    assert Power(k + 1) == 28 && Power(k + 2) == 86 && Power(k + 3) == 84 && Power(k + 4) == 64;
    assert Power(k + 5) == 58 && Power(k + 6) == 95 && Power(k + 7) == 77;
  }

  lemma EightAfter91(k: nat)
    requires Power(k) == 91
    ensures NoOneAfter(k) && Power(k + 8) == 96
  {
    assert Power(k + 1) == 37 && Power(k + 2) == 79 && Power(k + 3) == 14 && Power(k + 4) == 43;
    assert Power(k + 5) == 42 && Power(k + 6) == 32 && Power(k + 7) == 29;
  }

  lemma EightAfter96(k: nat)
    requires Power(k) == 96
    ensures NoOneAfter(k) && Power(k + 8) == 16
  {
    assert Power(k + 1) == 87 && Power(k + 2) == 94 && Power(k + 3) == 67 && Power(k + 4) == 88;
    assert Power(k + 5) == 7 && Power(k + 6) == 70 && Power(k + 7) == 21;
  }

  lemma EightAfter16(k: nat)
    requires Power(k) == 16
    ensures NoOneAfter(k) && Power(k + 8) == 35
  {
    assert Power(k + 1) == 63 && Power(k + 2) == 48 && Power(k + 3) == 92 && Power(k + 4) == 47;
    assert Power(k + 5) == 82 && Power(k + 6) == 44 && Power(k + 7) == 52;
  }

  lemma NoOneUpTo32()
    ensures NoOneAfter(0) && NoOneAfter(8) && NoOneAfter(16) && NoOneAfter(24) && Power(32) == 61
  {
    EightAfter1(0);
    EightAfter81(8);
    EightAfter62(16);
    EightAfter75(24);
  }

  lemma NoOneUpTo64()
    ensures NoOneAfter(32) && NoOneAfter(40) && NoOneAfter(48) && NoOneAfter(56)
  {
    NoOneUpTo32();
    EightAfter61(32);
    EightAfter91(40);
    EightAfter96(48);
    EightAfter16(56);
  }

  lemma PowersAreNotOne(k: nat)
    requires 1 <= k <= 64
    ensures Power(k) != 1
  {
    NoOneUpTo32();
    NoOneUpTo64();
    OneOfEight(if k <= 8 then 0 else if k <= 16 then 8 else if k <= 24 then 16 else if k <= 32 then 24
               else if k <= 40 then 32 else if k <= 48 then 40 else if k <= 56 then 48 else 56, k);
  }

  lemma OneOfEight(at: nat, k: nat)
    requires NoOneAfter(at) && at < k <= at + 8
    ensures Power(k) != 1
  {
    assert k == at + 1 || k == at + 2 || k == at + 3 || k == at + 4 || k == at + 5 || k == at + 6 || k == at + 7 || k == at + 8;
  }

  function Places(s: string): nat {
    if s == "" then 0 else Places(s[..|s| - 1]) + if IsUpper(s[|s| - 1]) then 2 else 1
  }

  lemma {:induction false} PlacesAreFew(s: string)
    ensures Places(s) <= 2 * |s|
  {
    if s != "" { PlacesAreFew(s[..|s| - 1]); }
  }

  /** What a 1 in front of `s` adds to its weight. */
  function Scale(s: string): int {
    if s == "" then 1 else if IsUpper(s[|s| - 1]) then 100 * Scale(s[..|s| - 1]) else 10 * Scale(s[..|s| - 1])
  }

  lemma {:induction false} ScaleIsAPower(s: string) returns (q: int)
    ensures Scale(s) == 97 * q + Power(Places(s))
  {
    if s == "" {
      q := 0;
    } else {
      var front := s[..|s| - 1];
      var q1 := ScaleIsAPower(front);
      var k := Places(front);
      var r1 := ReducedBy(10 * Power(k));
      q := 10 * q1 + r1;
      if IsUpper(s[|s| - 1]) {
        var r2 := ReducedBy(10 * Power(k + 1));
        q := 10 * q + r2;
      }
    }
  }

  lemma Tenfold(d: int, n: int)
    ensures 10 * (d * n) == d * (10 * n) && 100 * (d * n) == d * (100 * n)
  {
  }

  lemma {:induction false} DigitInFront(a: char, s: string)
    requires IsDigit(a)
    ensures Weight([a] + s) == DigitOf(a) * Scale(s) + Weight(s)
  {
    var t := [a] + s;
    if s == "" {
      assert t[..|t| - 1] == "";
    } else {
      assert t[..|t| - 1] == [a] + s[..|s| - 1];
      DigitInFront(a, s[..|s| - 1]);
      Tenfold(DigitOf(a), Scale(s[..|s| - 1]));
    }
  }

  /** 97 divides none of 1 to 9. */
  lemma SmallFactor(d: int, t: int, q: int) returns (r: int)
    requires d != 0 && -9 <= d <= 9 && d * t == 97 * q
    ensures t == 97 * r
    decreases d < 0
  {
    if d < 0 {
      r := SmallFactor(-d, t, -q);
    } else if d == 1 {
      r := q;
    } else if d == 2 {
      r := 49 * q - t;
    } else if d == 3 {
      r := 65 * q - 2 * t;
    } else if d == 4 {
      r := 73 * q - 3 * t;
    } else if d == 5 {
      r := 39 * q - 2 * t;
    } else if d == 6 {
      r := 81 * q - 5 * t;
    } else if d == 7 {
      r := 14 * q - t;
    } else if d == 8 {
      r := 85 * q - 7 * t;
    } else {
      r := 54 * q - 5 * t;
    }
  }

  lemma EndsDiffer(s: string, a: char, b: char)
    requires IsDigit(a) && IsDigit(b)
    ensures Weight([a] + s + [b]) - Weight([b] + s + [a]) == (DigitOf(a) - DigitOf(b)) * (10 * Scale(s) - 1)
  {
    DigitInFront(a, s);
    DigitInFront(b, s);
    WeightPlus([a] + s, b);
    WeightPlus([b] + s, a);
    EndsMultiply(DigitOf(a), DigitOf(b), Scale(s));
  }

  lemma EndsMultiply(x: int, y: int, n: int)
    ensures 10 * (x * n) + y - (10 * (y * n) + x) == (x - y) * (10 * n - 1)
  {
  }

  lemma EndsNoticed(s: string, a: char, b: char, q: int)
    requires IsDigit(a) && IsDigit(b) && a != b && Places(s) <= 63
    ensures Weight([a] + s + [b]) - Weight([b] + s + [a]) != 97 * q
  {
    if Weight([a] + s + [b]) - Weight([b] + s + [a]) == 97 * q {
      EndsDiffer(s, a, b);
      var r := SmallFactor(DigitOf(a) - DigitOf(b), 10 * Scale(s) - 1, q);
      var p := ScaleIsAPower(s);
      var n := ReducedBy(10 * Power(Places(s)));
      PowersAreNotOne(Places(s) + 1);
      OnlyOne(Power(Places(s) + 1), r - 10 * p - n);
    }
  }

  lemma OnlyOne(p: nat, q: int)
    requires p < 97 && p - 1 == 97 * q
    ensures p == 1
  {
  }

  lemma EndsOfSwapped(v: string)
    requires IsFormatted(v) && IsDigit(v[4])
    ensures var s := v[5..] + v[..3];
            && Rearranged(v) == [v[4]] + s + [v[3]] && Rearranged(Swapped(v, 3)) == [v[3]] + s + [v[4]]
            && Places(s) <= 63
  {
    var s := v[5..] + v[..3];
    assert s[|s| - 1] == v[2];
    PlacesAreFew(s[..|s| - 1]);
  }

  /** Swapping the last check digit with the first character of the account is always noticed. */
  lemma CheckDigitSwapNoticed(v: string)
    requires Accepted(v) && v[3] != v[4]
    ensures !Accepted(Swapped(v, 3))
  {
    if IsDigit(v[4]) {
      EndsOfSwapped(v);
      forall q ensures Weight(Rearranged(v)) - Weight(Rearranged(Swapped(v, 3))) != 97 * q {
        EndsNoticed(v[5..] + v[..3], v[4], v[3], q);
      }
      NotBothAccepted(v, Swapped(v, 3));
    }
  }

  /** Swapping two different neighbours anywhere in an IBAN goes unnoticed for exactly three pairs of
      the account part, B1, M2 and X3; so two digits, or two letters, never. */
  lemma SwappedNeighboursAreNoticed(v: string, i: nat)
    requires Accepted(v) && i + 1 < |v| && v[i] != v[i + 1]
    ensures Accepted(Swapped(v, i)) <==> i >= 4 && (Blind(v[i], v[i + 1]) || Blind(v[i + 1], v[i]))
  {
    if i == 1 {
      assert !IsFormatted(Swapped(v, 1));
    } else if i == 3 {
      CheckDigitSwapNoticed(v);
    } else {
      SwappedStaysFormatted(v, i);
      NeighboursSwapped(v, i);
    }
  }

  // ---- check digits ----------------------------------------------------------------------------------

  /** For every country and account there is exactly one pair of check digits from 02 to 98. */
  lemma CheckDigitsAreUnique(country: string, account: string, c: char, d: char)
    requires |country| == 2 && IsFormatted(country + [c, d] + account) && 2 <= 10 * DigitOf(c) + DigitOf(d) <= 98
    ensures Accepted(country + [c, d] + account)
       <==> 10 * DigitOf(c) + DigitOf(d) == 98 - 100 * Value(account + country) % 97
  {
    var v := country + [c, d] + account;
    assert v[2] == c && v[3] == d;
    assert v[4..] + v[..4] == account + country + [c, d];
    PairWeight(account + country, c, d);
    ValueIsWeight(account + country);
    ValueIsWeight(account + country + [c, d]);
    OneResidue(100 * Value(account + country), 10 * DigitOf(c) + DigitOf(d));
  }

  lemma OneResidue(n: int, k: int)
    requires 2 <= k <= 98
    ensures (n + k) % 97 == 1 <==> k == 98 - n % 97
  {
  }
}
