/**
  The JavaScript string and number-text built-ins the dashboard relies on:
  `parseInt(s, 10)`, `parseFloat`, `toFixed`, `padStart`, `split`, `includes`,
  `replace` with a string pattern, `toLowerCase`/`toUpperCase` and `trim`
  (case mapping and white space restricted to ASCII).
 */
module JsText {
  import opened JsNumber
  import Wrappers

  // ---------------------------------------------------------------------
  // Digits and decimal numerals

  predicate IsDigit(c: char) {
    '0' <= c <= '9'
  }

  predicate AllDigits(s: string) {
    forall i :: 0 <= i < |s| ==> IsDigit(s[i])
  }

  function DigitValue(c: char): nat
    requires IsDigit(c)
  {
    (c as int) - ('0' as int)
  }

  function DigitChar(d: nat): (c: char)
    requires d < 10
    ensures IsDigit(c) && DigitValue(c) == d
  {
    (('0' as int) + d) as char
  }

  function Pow10(k: nat): (p: nat)
    ensures p >= 1
  {
    if k == 0 then 1 else 10 * Pow10(k - 1)
  }

  /** The value of a decimal numeral, most significant digit first. */
  function DigitsValue(s: string): nat
    requires AllDigits(s)
    decreases |s|
  {
    if s == [] then 0 else DigitsValue(s[..|s| - 1]) * 10 + DigitValue(s[|s| - 1])
  }

  /** `n.toString()` for a non-negative integer. */
  function NatToString(n: nat): (s: string)
    ensures |s| > 0 && AllDigits(s)
  {
    if n < 10 then [DigitChar(n)] else NatToString(n / 10) + [DigitChar(n % 10)]
  }

  /** `${i}` for an integer. */
  function IntToString(i: int): string {
    if i < 0 then "-" + NatToString(-i) else NatToString(i)
  }

  /** A numeral as `toString` writes it: no leading zero unless it is "0". */
  predicate Canonical(s: string) {
    |s| > 0 && AllDigits(s) && (|s| > 1 ==> s[0] != '0')
  }

  lemma {:induction false} NatToStringCanonical(n: nat)
    ensures Canonical(NatToString(n))
    ensures DigitsValue(NatToString(n)) == n
  {
    if n >= 10 {
      NatToStringCanonical(n / 10);
      var s := NatToString(n);
      assert s[..|s| - 1] == NatToString(n / 10);
    }
  }

  lemma {:induction false} LeadingNonZero(s: string)
    requires AllDigits(s) && |s| > 0 && s[0] != '0'
    ensures DigitsValue(s) > 0
  {
    if |s| > 1 {
      LeadingNonZero(s[..|s| - 1]);
    }
  }

  /** Printing the value of a canonical numeral gives the numeral back. */
  lemma {:induction false} CanonicalRoundTrip(s: string)
    requires Canonical(s)
    ensures NatToString(DigitsValue(s)) == s
  {
    if |s| > 1 {
      var init := s[..|s| - 1];
      assert Canonical(init);
      LeadingNonZero(init);
      CanonicalRoundTrip(init);
      var v, d := DigitsValue(s), DigitValue(s[|s| - 1]);
      assert v == DigitsValue(init) * 10 + d;
      assert v / 10 == DigitsValue(init) && v % 10 == d;
      assert DigitChar(d) == s[|s| - 1];
      assert s == init + [s[|s| - 1]];
    }
  }

  lemma {:induction false} DigitsValueConcat(a: string, b: string)
    requires AllDigits(a) && AllDigits(b)
    ensures AllDigits(a + b)
    ensures DigitsValue(a + b) == DigitsValue(a) * Pow10(|b|) + DigitsValue(b)
    decreases |b|
  {
    if b != [] {
      var b' := b[..|b| - 1];
      var d := DigitValue(b[|b| - 1]);
      assert (a + b)[..|a + b| - 1] == a + b';
      assert (a + b)[|a + b| - 1] == b[|b| - 1];
      DigitsValueConcat(a, b');
      assert DigitsValue(b) == DigitsValue(b') * 10 + d;
      assert Pow10(|b|) == 10 * Pow10(|b'|);
      ShiftDigit(DigitsValue(a), Pow10(|b'|), DigitsValue(b'), d);
    } else {
      assert a + b == a;
    }
  }

  lemma ShiftDigit(va: int, p: int, vb: int, d: int)
    ensures (va * p + vb) * 10 + d == va * (10 * p) + (vb * 10 + d)
  {
  }

  lemma {:induction false} DigitsValueBound(s: string)
    requires AllDigits(s)
    ensures DigitsValue(s) < Pow10(|s|)
    decreases |s|
  {
    if s != [] {
      DigitsValueBound(s[..|s| - 1]);
    }
  }

  // ---------------------------------------------------------------------
  // Padding

  function Repeat(c: char, n: nat): (r: string)
    ensures |r| == n && forall i :: 0 <= i < n ==> r[i] == c
  {
    if n == 0 then [] else [c] + Repeat(c, n - 1)
  }

  /** `s.padStart(width, c)`. */
  function PadStart(s: string, width: nat, c: char): (r: string)
    ensures |r| == if |s| >= width then |s| else width
  {
    if |s| >= width then s else Repeat(c, width - |s|) + s
  }

  lemma PadStartAppend(a: string, b: string, width: nat, c: char)
    ensures PadStart(a + b, width + |b|, c) == PadStart(a, width, c) + b
  {
  }

  /** A leading zero adds nothing to a numeral's value. */
  lemma LeadingZero(s: string)
    requires AllDigits(s) && |s| > 1 && s[0] == '0'
    ensures DigitsValue(s) == DigitsValue(s[1..])
  {
    DigitsValueConcat([s[0]], s[1..]);
    assert [s[0]] + s[1..] == s;
    assert [s[0]][..0] == [];
  }

  lemma RepeatCons(c: char, n: nat, r: string)
    ensures [c] + (Repeat(c, n) + r) == Repeat(c, n + 1) + r
  {
  }

  /** Drops leading zeros but keeps the last digit. */
  function StripZeros(s: string): (r: string)
    requires AllDigits(s) && |s| > 0
    ensures Canonical(r) && |r| <= |s|
    ensures s == Repeat('0', |s| - |r|) + r
    ensures DigitsValue(r) == DigitsValue(s)
  {
    if |s| > 1 && s[0] == '0' then
      var r := StripZeros(s[1..]);
      LeadingZero(s);
      RepeatCons('0', |s| - 1 - |r|, r);
      assert s == [s[0]] + s[1..];
      r
    else s
  }

  /** A fixed-width numeral is recovered by printing its value and padding it
      with zeros to the same width. */
  lemma PaddedRoundTrip(s: string)
    requires AllDigits(s) && |s| > 0
    ensures PadStart(NatToString(DigitsValue(s)), |s|, '0') == s
  {
    var r := StripZeros(s);
    CanonicalRoundTrip(r);
    PadZeros(s, r);
  }

  lemma PadZeros(s: string, r: string)
    requires |r| <= |s| && s == Repeat('0', |s| - |r|) + r
    ensures PadStart(r, |s|, '0') == s
  {
    if |r| == |s| {
      assert s == r by {
        assert Repeat('0', 0) == [];
      }
    }
  }

  // ---------------------------------------------------------------------
  // Number parsing

  /** White space and line terminators as `trim`, `parseInt` and
      `parseFloat` skip them: tab, vertical tab, form feed, space, no-break
      space, the byte order mark, the other space separators, line feed,
      carriage return and the line and paragraph separators. */
  predicate IsSpace(c: char) {
    || c == '\t' || c == '\U{000B}' || c == '\U{000C}' || c == ' ' || c == '\U{00A0}' || c == '\U{FEFF}'
    || c == '\U{1680}' || ('\U{2000}' <= c <= '\U{200A}') || c == '\U{202F}' || c == '\U{205F}' || c == '\U{3000}'
    || c == '\n' || c == '\r' || c == '\U{2028}' || c == '\U{2029}'
  }

  function TrimStart(s: string): (r: string)
    ensures |r| <= |s| && r == s[|s| - |r|..]
    ensures r != [] ==> !IsSpace(r[0])
  {
    if s != [] && IsSpace(s[0]) then TrimStart(s[1..]) else s
  }

  function TrimEnd(s: string): (r: string)
    ensures |r| <= |s| && r == s[..|r|]
    ensures r != [] ==> !IsSpace(r[|r| - 1])
  {
    if s != [] && IsSpace(s[|s| - 1]) then TrimEnd(s[..|s| - 1]) else s
  }

  /** `s.trim()`. */
  function Trim(s: string): string {
    TrimEnd(TrimStart(s))
  }

  /** The longest prefix of `s` made of digits. */
  function LeadingDigits(s: string): (d: string)
    ensures AllDigits(d) && |d| <= |s| && d == s[..|d|]
    ensures |d| < |s| ==> !IsDigit(s[|d|])
  {
    if s != [] && IsDigit(s[0]) then [s[0]] + LeadingDigits(s[1..]) else []
  }

  lemma {:induction false} LeadingDigitsOf(a: string, rest: string)
    requires AllDigits(a)
    requires rest == [] || !IsDigit(rest[0])
    ensures LeadingDigits(a + rest) == a
  {
    if a != [] {
      assert (a + rest)[1..] == a[1..] + rest;
      LeadingDigitsOf(a[1..], rest);
    } else {
      assert a + rest == rest;
    }
  }

  /** Splits an optional leading sign off `t`: (negative?, the rest). */
  function SplitSign(t: string): (bool, string) {
    if t != [] && (t[0] == '-' || t[0] == '+') then (t[0] == '-', t[1..]) else (false, t)
  }

  function Signed(negative: bool, x: real): real {
    if negative then -x else x
  }

  /** `parseInt(s, 10)`: optional white space and sign, then the longest run
      of digits; NaN when there is no digit. */
  function ParseInt(s: string): Num {
    var (negative, body) := SplitSign(TrimStart(s));
    var ds := LeadingDigits(body);
    if ds == [] then NaN else Fin(Signed(negative, DigitsValue(ds) as real))
  }

  /** `parseInt(value, 10)` of a value that may be `undefined`. */
  function ParseIntOpt(s: Wrappers.Option<string>): Num {
    if s.Some? then ParseInt(s.value) else NaN
  }

  /** The value `0.frac` of the digits after a decimal point. */
  function FractionValue(frac: string): (v: real)
    requires AllDigits(frac)
    ensures 0.0 <= v < 1.0
  {
    if frac == [] then 0.0 else (DigitValue(frac[0]) as real + FractionValue(frac[1..])) / 10.0
  }

  /** Three digits after the point are that many thousandths. */
  lemma FractionOfThree(frac: string)
    requires AllDigits(frac) && |frac| == 3
    ensures FractionValue(frac) == DigitsValue(frac) as real / 1000.0
  {
    var d0, d1, d2 := DigitValue(frac[0]), DigitValue(frac[1]), DigitValue(frac[2]);
    assert frac[1..][1..][1..] == [];
    assert FractionValue(frac[1..][1..]) == d2 as real / 10.0;
    assert frac[..2][..1][..0] == [];
    assert frac[..2][..1] == [frac[0]];
    assert DigitsValue(frac[..2]) == d0 * 10 + d1;
    assert DigitsValue(frac) == (d0 * 10 + d1) * 10 + d2;
  }

  /** The value of the decimal `whole.frac`. */
  function DecimalValue(whole: string, frac: string): real
    requires AllDigits(whole) && AllDigits(frac)
  {
    DigitsValue(whole) as real + FractionValue(frac)
  }

  /** `parseFloat(s)`: optional white space and sign, then "Infinity" or the
      longest prefix `digits[.digits]` holding at least one digit; NaN
      otherwise. Exponents are not read. */
  function ParseFloat(s: string): Num {
    var (negative, body) := SplitSign(TrimStart(s));
    if IsPrefix("Infinity", body) then (if negative then NegInf else PosInf)
    else
      match DecimalPrefix(body)
      case None => NaN
      case Some(x) => Fin(Signed(negative, x))
  }

  /** The value of the longest prefix `digits[.digits]` of `body`, if it holds
      a digit. */
  function DecimalPrefix(body: string): Wrappers.Option<real> {
    var whole := LeadingDigits(body);
    var frac := FractionDigits(body[|whole|..]);
    if whole == [] && frac == [] then Wrappers.None else Wrappers.Some(DecimalValue(whole, frac))
  }

  function FractionDigits(after: string): (d: string)
    ensures AllDigits(d)
  {
    if after != [] && after[0] == '.' then LeadingDigits(after[1..]) else []
  }

  /** `parseFloat(value)` of a value that may be `undefined`. */
  function ParseFloatOpt(s: Wrappers.Option<string>): Num {
    if s.Some? then ParseFloat(s.value) else NaN
  }

  /** A text that starts with a digit is read from its first character. */
  lemma ParseIntLeadingDigit(s: string)
    requires s != [] && IsDigit(s[0])
    ensures ParseInt(s) == Fin(DigitsValue(LeadingDigits(s)) as real)
  {
    assert TrimStart(s) == s;
    assert SplitSign(s) == (false, s);
  }

  lemma ParseIntDigits(a: string, rest: string)
    requires AllDigits(a) && a != []
    requires rest == [] || !IsDigit(rest[0])
    ensures ParseInt(a + rest) == Fin(DigitsValue(a) as real)
  {
    assert (a + rest)[0] == a[0];
    ParseIntLeadingDigit(a + rest);
    LeadingDigitsOf(a, rest);
  }

  lemma ParseIntNumeral(a: string)
    requires AllDigits(a) && a != []
    ensures ParseInt(a) == Fin(DigitsValue(a) as real)
  {
    ParseIntDigits(a, []);
    assert a + [] == a;
  }

  lemma DecimalPrefixOf(a: string, b: string)
    requires AllDigits(a) && AllDigits(b) && a != []
    ensures DecimalPrefix(a + "." + b) == Wrappers.Some(DecimalValue(a, b))
  {
    var s := a + "." + b;
    assert s == a + ("." + b);
    LeadingDigitsOf(a, "." + b);
    assert s[|a|..] == "." + b;
    assert ("." + b)[1..] == b + [];
    LeadingDigitsOf(b, []);
  }

  /** A text that starts with a digit is read by the decimal grammar alone. */
  lemma ParseFloatLeadingDigit(s: string)
    requires s != [] && IsDigit(s[0])
    ensures DecimalPrefix(s).Some?
    ensures ParseFloat(s) == Fin(DecimalPrefix(s).value)
  {
    assert TrimStart(s) == s;
    assert SplitSign(s) == (false, s);
    assert !IsPrefix("Infinity", s) by {
      if |s| >= 8 {
        assert s[..8][0] == s[0];
      }
    }
  }

  /** A numeral followed by text that continues neither the digits nor a
      fraction is read as that whole number. */
  lemma DecimalPrefixWhole(a: string, rest: string)
    requires AllDigits(a) && a != []
    requires rest == [] || (!IsDigit(rest[0]) && rest[0] != '.')
    ensures DecimalPrefix(a + rest) == Wrappers.Some(DigitsValue(a) as real)
  {
    LeadingDigitsOf(a, rest);
    assert (a + rest)[|a|..] == rest;
    assert FractionDigits(rest) == [];
    assert DecimalValue(a, []) == DigitsValue(a) as real;
  }

  lemma ParseFloatWhole(a: string, rest: string)
    requires AllDigits(a) && a != []
    requires rest == [] || (!IsDigit(rest[0]) && rest[0] != '.')
    ensures ParseFloat(a + rest) == Fin(DigitsValue(a) as real)
  {
    assert (a + rest)[0] == a[0];
    DecimalPrefixWhole(a, rest);
    ParseFloatLeadingDigit(a + rest);
  }

  lemma ParseFloatDecimal(a: string, b: string)
    requires AllDigits(a) && AllDigits(b) && a != []
    ensures ParseFloat(a + "." + b) == Fin(DecimalValue(a, b))
  {
    var s := a + "." + b;
    assert s[0] == a[0];
    DecimalPrefixOf(a, b);
    ParseFloatLeadingDigit(s);
  }

  // ---------------------------------------------------------------------
  // toFixed

  /** The number of thousandths n with n / 1000 closest to x >= 0, the larger
      on a tie (how toFixed(3) picks its digits). */
  function RoundMillis(x: real): (n: nat)
    requires x >= 0.0
    ensures n as real <= x * 1000.0 + 0.5 < n as real + 1.0
  {
    (x * 1000.0 + 0.5).Floor
  }

  /** A count of thousandths written with exactly three decimals. */
  function MillisText(n: nat): string {
    NatToString(n / 1000) + "." + PadStart(NatToString(n % 1000), 3, '0')
  }

  /** `x.toFixed(3)` of a finite x (below 1e21, where JavaScript switches to
      exponent notation). */
  function ToFixed3(x: real): string {
    if x < 0.0 then "-" + MillisText(RoundMillis(-x)) else MillisText(RoundMillis(x))
  }

  /** `x.toFixed(3)` of any number. */
  function NumToFixed3(a: Num): string {
    match a
    case Fin(x) => ToFixed3(x)
    case NaN => "NaN"
    case PosInf => "Infinity"
    case NegInf => "-Infinity"
  }

  /** `${x}` of a number that `parseInt` returned (an integer or NaN). */
  function IntNumToString(a: Num): string {
    match a
    case Fin(x) => IntToString(x.Floor)
    case NaN => "NaN"
    case PosInf => "Infinity"
    case NegInf => "-Infinity"
  }

  /** toFixed(3) of `int + frac/1000` for a three-digit `frac` writes the
      integer part without padding and the three digits unchanged. */
  lemma ToFixed3Exact(i: nat, frac: string)
    requires AllDigits(frac) && |frac| == 3
    ensures ToFixed3(i as real + DigitsValue(frac) as real / 1000.0) == NatToString(i) + "." + frac
  {
    var f := DigitsValue(frac);
    DigitsValueBound(frac);
    assert Pow10(3) == 1000;
    var x := i as real + f as real / 1000.0;
    var n := RoundMillis(x);
    assert x * 1000.0 + 0.5 == (i * 1000 + f) as real + 0.5;
    assert n == i * 1000 + f;
    assert n / 1000 == i && n % 1000 == f;
    PaddedRoundTrip(frac);
  }

  /** Zeros appended after the last decimal digit change nothing. */
  lemma {:induction false} FractionTrailingZeros(frac: string, k: nat)
    requires AllDigits(frac)
    ensures AllDigits(frac + Repeat('0', k))
    ensures FractionValue(frac + Repeat('0', k)) == FractionValue(frac)
  {
    var z := Repeat('0', k);
    if frac == [] {
      assert frac + z == z;
      if k > 0 {
        var rest := Repeat('0', k - 1);
        assert z[1..] == rest && [] + rest == rest;
        FractionTrailingZeros([], k - 1);
        assert FractionValue(z) == (DigitValue('0') as real + FractionValue(rest)) / 10.0;
      }
    } else {
      assert (frac + z)[1..] == frac[1..] + z;
      FractionTrailingZeros(frac[1..], k);
    }
  }

  /** Completing the decimals of `b.c` with zeros keeps its value. */
  lemma DecimalTrailingZeros(b: string, c: string, padded: string)
    requires AllDigits(b) && AllDigits(c) && |c| <= 3
    requires padded == c + Repeat('0', 3 - |c|)
    ensures AllDigits(padded) && DecimalValue(b, c) == DecimalValue(b, padded)
  {
    FractionTrailingZeros(c, 3 - |c|);
  }

  /** Two decimals with the same value read as the same number. */
  lemma ParseFloatSameDecimal(b: string, c: string, c2: string)
    requires AllDigits(b) && AllDigits(c) && AllDigits(c2) && b != []
    requires DecimalValue(b, c) == DecimalValue(b, c2)
    ensures ParseFloat(b + "." + c) == ParseFloat(b + "." + c2)
  {
    ParseFloatDecimal(b, c);
    ParseFloatDecimal(b, c2);
  }

  /** A decimal with three digits after the point is that many thousandths. */
  lemma DecimalOfThree(b: string, c: string)
    requires AllDigits(b) && AllDigits(c) && |c| == 3
    ensures DecimalValue(b, c) == DigitsValue(b) as real + DigitsValue(c) as real / 1000.0
  {
    FractionOfThree(c);
  }

  lemma ToFixed3Thousandths(b: string, c: string, x: real)
    requires AllDigits(b) && AllDigits(c) && |c| == 3
    requires x == DigitsValue(b) as real + DigitsValue(c) as real / 1000.0
    ensures ToFixed3(x) == NatToString(DigitsValue(b)) + "." + c
  {
    ToFixed3Exact(DigitsValue(b), c);
  }

  /** toFixed(3) of the decimal `b.c` with three digits after the point
      writes `b` without leading zeros and `c` unchanged. */
  lemma ToFixed3Decimal(b: string, c: string)
    requires AllDigits(b) && AllDigits(c) && |c| == 3
    ensures NumToFixed3(Fin(DecimalValue(b, c))) == NatToString(DigitsValue(b)) + "." + c
  {
    DecimalOfThree(b, c);
    ToFixed3Thousandths(b, c, DecimalValue(b, c));
  }

  /** `${parseInt(m)}` of a numeral drops its leading zeros. */
  lemma IntNumToStringNumeral(m: string)
    requires AllDigits(m) && m != []
    ensures IntNumToString(ParseInt(m)) == NatToString(DigitsValue(m))
  {
    ParseIntNumeral(m);
  }

  /** `parseFloat(ss.fff).toFixed(3)` with at most three decimals drops the
      leading zeros of `ss` and completes the decimals with zeros. */
  lemma ToFixed3OfDecimal(ss: string, fff: string)
    requires AllDigits(ss) && AllDigits(fff) && ss != [] && |fff| <= 3
    ensures AllDigits(fff + Repeat('0', 3 - |fff|))
    ensures NumToFixed3(ParseFloat(ss + "." + fff)) == NatToString(DigitsValue(ss)) + "." + (fff + Repeat('0', 3 - |fff|))
  {
    var f3 := fff + Repeat('0', 3 - |fff|);
    ParseFloatDecimal(ss, fff);
    DecimalTrailingZeros(ss, fff, f3);
    ToFixed3Decimal(ss, f3);
  }

  // ---------------------------------------------------------------------
  // Searching and rewriting

  predicate IsPrefix(p: string, s: string) {
    |p| <= |s| && s[..|p|] == p
  }

  /** `sub` occurs in `s` starting at index i. */
  predicate OccursAt(s: string, sub: string, i: int) {
    0 <= i && i + |sub| <= |s| && s[i..i + |sub|] == sub
  }

  /** `s.includes(sub)`. */
  predicate Contains(s: string, sub: string) {
    exists i | 0 <= i <= |s| - |sub| :: OccursAt(s, sub, i)
  }

  lemma OccursAtShift(s: string, sub: string, i: int)
    requires s != [] && i >= 0
    ensures OccursAt(s[1..], sub, i) <==> OccursAt(s, sub, i + 1)
  {
    if 0 <= i && i + 1 + |sub| <= |s| {
      assert s[1..][i..i + |sub|] == s[i + 1..i + 1 + |sub|];
    }
  }

  /** A string without the character `sub[k]` does not contain `sub`. */
  lemma ContainsNeedsChar(s: string, sub: string, k: nat)
    requires k < |sub|
    requires forall i :: 0 <= i < |s| ==> s[i] != sub[k]
    ensures !Contains(s, sub)
  {
    forall i | 0 <= i <= |s| - |sub|
      ensures !OccursAt(s, sub, i)
    {
      if i + |sub| <= |s| {
        assert s[i..i + |sub|][k] == s[i + k];
        assert s[i + k] != sub[k];
      }
    }
  }

  /** `s.replace(pat, rep)` with a string pattern: the first occurrence only. */
  function ReplaceFirst(s: string, pat: string, rep: string): string
    requires pat != []
    decreases |s|
  {
    if IsPrefix(pat, s) then rep + s[|pat|..]
    else if s == [] then []
    else [s[0]] + ReplaceFirst(s[1..], pat, rep)
  }

  lemma {:induction false} ReplaceFirstAbsent(s: string, pat: string, rep: string)
    requires pat != [] && !Contains(s, pat)
    ensures ReplaceFirst(s, pat, rep) == s
    decreases |s|
  {
    if s != [] {
      assert !OccursAt(s, pat, 0);
      forall i | 0 <= i <= |s[1..]| - |pat|
        ensures !OccursAt(s[1..], pat, i)
      {
        OccursAtShift(s, pat, i);
      }
      ReplaceFirstAbsent(s[1..], pat, rep);
      assert [s[0]] + s[1..] == s;
    }
  }

  /** When the first occurrence of `pat` is at index |pre|, that is the one
      replaced. */
  lemma {:induction false} ReplaceFirstAt(pre: string, pat: string, post: string, rep: string)
    requires pat != []
    requires forall i :: 0 <= i < |pre| ==> !OccursAt(pre + pat + post, pat, i)
    ensures ReplaceFirst(pre + pat + post, pat, rep) == pre + rep + post
    decreases |pre|
  {
    var s := pre + pat + post;
    if pre == [] {
      assert s == pat + post;
      assert s[..|pat|] == pat;
    } else {
      assert !OccursAt(s, pat, 0);
      var s' := pre[1..] + pat + post;
      assert s[1..] == s';
      forall i | 0 <= i < |pre[1..]|
        ensures !OccursAt(s', pat, i)
      {
        OccursAtShift(s, pat, i);
      }
      ReplaceFirstAt(pre[1..], pat, post, rep);
      assert [s[0]] + (pre[1..] + rep + post) == pre + rep + post;
    }
  }

  // ---------------------------------------------------------------------
  // Case mapping and splitting

  function LowerChar(c: char): char {
    if 'A' <= c <= 'Z' then ((c as int) + 32) as char else c
  }

  function UpperChar(c: char): char {
    if 'a' <= c <= 'z' then ((c as int) - 32) as char else c
  }

  /** `s.toLowerCase()` (ASCII letters). */
  function ToLower(s: string): (r: string)
    ensures |r| == |s| && forall i :: 0 <= i < |s| ==> r[i] == LowerChar(s[i])
  {
    seq(|s|, i requires 0 <= i < |s| => LowerChar(s[i]))
  }

  /** `s.toUpperCase()` (ASCII letters). */
  function ToUpper(s: string): (r: string)
    ensures |r| == |s| && forall i :: 0 <= i < |s| ==> r[i] == UpperChar(s[i])
  {
    seq(|s|, i requires 0 <= i < |s| => UpperChar(s[i]))
  }

  /** `s.split(sep)` for a one-character separator. */
  function Split(s: string, sep: char): (parts: seq<string>)
    ensures |parts| > 0
    decreases |s|
  {
    if s == [] then [""]
    else
      var rest := Split(s[1..], sep);
      if s[0] == sep then [""] + rest else [[s[0]] + rest[0]] + rest[1..]
  }

  lemma {:induction false} SplitNoSeparator(s: string, sep: char)
    requires forall i :: 0 <= i < |s| ==> s[i] != sep
    ensures Split(s, sep) == [s]
    decreases |s|
  {
    if s != [] {
      SplitNoSeparator(s[1..], sep);
      assert [s[0]] + s[1..] == s;
    }
  }

  lemma {:induction false} SplitAtSeparator(a: string, sep: char, b: string)
    requires forall i :: 0 <= i < |a| ==> a[i] != sep
    ensures Split(a + [sep] + b, sep) == [a] + Split(b, sep)
    decreases |a|
  {
    if a == [] {
      assert a + [sep] + b == [sep] + b;
      assert ([sep] + b)[1..] == b;
    } else {
      assert (a + [sep] + b)[1..] == a[1..] + [sep] + b;
      SplitAtSeparator(a[1..], sep, b);
      assert [a[0]] + a[1..] == a;
    }
  }
}
