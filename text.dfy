/**
 * String helpers the views rely on: trimming surrounding whitespace,
 * lower-casing, printing integers and parsing numbers. Foundation's versions
 * are Unicode-aware; these are their ASCII restrictions.
 */
module Text {
  import opened Wrappers

  /** ASCII members of `.whitespacesAndNewlines`. */
  predicate IsSpace(c: char) {
    c == ' ' || c == '\t' || c == '\n' || c == '\r' || c == '\U{B}' || c == '\U{C}'
  }

  predicate IsDigit(c: char) {
    '0' <= c <= '9'
  }

  predicate AllDigits(s: string) {
    forall k :: 0 <= k < |s| ==> IsDigit(s[k])
  }

  // ---------------------------------------------------------------------------
  // trimmingCharacters(in: .whitespacesAndNewlines)

  /** Drops leading whitespace: the result is a suffix of `s`, whatever was
      dropped was whitespace, and the result does not start with whitespace. */
  function TrimStart(s: string): (r: string)
    ensures |r| <= |s| && r == s[|s| - |r|..]
    ensures forall k :: 0 <= k < |s| - |r| ==> IsSpace(s[k])
    ensures r != [] ==> !IsSpace(r[0])
  {
    if s != [] && IsSpace(s[0]) then
      var r := TrimStart(s[1..]);
      assert s[1..][|s| - 1 - |r|..] == s[|s| - |r|..];
      r
    else s
  }

  /** Drops trailing whitespace: the result is a prefix of `s`, whatever was
      dropped was whitespace, and the result does not end with whitespace. */
  function TrimEnd(s: string): (r: string)
    ensures |r| <= |s| && r == s[..|r|]
    ensures forall k :: |r| <= k < |s| ==> IsSpace(s[k])
    ensures r != [] ==> !IsSpace(r[|r| - 1])
  {
    if s != [] && IsSpace(s[|s| - 1]) then
      var r := TrimEnd(s[..|s| - 1]);
      assert s[..|s| - 1][..|r|] == s[..|r|];
      r
    else s
  }

  /** `s` with surrounding whitespace removed: nothing longer than `s`, and
      neither starting nor ending with whitespace. */
  function Trim(s: string): (r: string)
    ensures |r| <= |s|
    ensures r != [] ==> !IsSpace(r[0]) && !IsSpace(r[|r| - 1])
  {
    TrimEnd(TrimStart(s))
  }

  /** What trimming keeps is a contiguous slice of `s` whose outside is all whitespace. */
  lemma TrimIsSlice(s: string)
    ensures exists i, j ::
              && 0 <= i <= j <= |s| && Trim(s) == s[i..j]
              && (forall k :: 0 <= k < i ==> IsSpace(s[k]))
              && (forall k :: j <= k < |s| ==> IsSpace(s[k]))
  {
    var t := TrimStart(s);
    var r := TrimEnd(t);
    var i := |s| - |t|;
    var j := i + |r|;
    assert r == s[i..j];
    forall k | j <= k < |s| ensures IsSpace(s[k]) {
      assert s[k] == t[k - i];
    }
    assert Trim(s) == s[i..j];
  }

  lemma {:induction false} TrimStartOfTrimmed(s: string)
    requires s == [] || !IsSpace(s[0])
    ensures TrimStart(s) == s
  {
  }

  lemma {:induction false} TrimEndOfTrimmed(s: string)
    requires s == [] || !IsSpace(s[|s| - 1])
    ensures TrimEnd(s) == s
  {
  }

  /** Trimming twice is trimming once. */
  lemma {:induction false} TrimIdempotent(s: string)
    ensures Trim(Trim(s)) == Trim(s)
  {
    var t := Trim(s);
    TrimStartOfTrimmed(t);
    TrimEndOfTrimmed(t);
  }

  // ---------------------------------------------------------------------------
  // lowercased()

  predicate IsUpper(c: char) {
    'A' <= c <= 'Z'
  }

  /** `c` and `d` are the same character, or the two cases of one ASCII letter. */
  predicate CaseEquivalent(c: char, d: char) {
    c == d
    || (IsUpper(c) && d as int == c as int + 32)
    || (IsUpper(d) && c as int == d as int + 32)
  }

  function LowerChar(c: char): char {
    if IsUpper(c) then (c as int + 32) as char else c
  }

  /** Lower-cases the ASCII letters of `s`: no capital is left, every other
      character stays, and each character is replaced by one of its own case. */
  function Lower(s: string): (r: string)
    ensures |r| == |s|
    ensures forall k :: 0 <= k < |r| ==> !IsUpper(r[k])
    ensures forall k :: 0 <= k < |s| && !IsUpper(s[k]) ==> r[k] == s[k]
    ensures forall k :: 0 <= k < |s| ==> CaseEquivalent(s[k], r[k])
  {
    seq(|s|, k requires 0 <= k < |s| => LowerChar(s[k]))
  }

  /** Lower-casing twice is lower-casing once. */
  lemma LowerIdempotent(s: string)
    ensures Lower(Lower(s)) == Lower(s)
  {
  }

  /** Two strings lower-case to the same string exactly when they have the same
      length and agree character by character up to the case of ASCII letters;
      this is what the case-insensitive duplicate-name check compares. */
  lemma LowerEqualIff(a: string, b: string)
    ensures Lower(a) == Lower(b) <==>
              |a| == |b| && forall k :: 0 <= k < |a| ==> CaseEquivalent(a[k], b[k])
  {
    if |a| == |b| && forall k :: 0 <= k < |a| ==> CaseEquivalent(a[k], b[k]) {
      forall k | 0 <= k < |a| ensures Lower(a)[k] == Lower(b)[k] {
        assert CaseEquivalent(a[k], b[k]);
      }
    }
  }

  lemma LowerAppend(a: string, b: string)
    ensures Lower(a + b) == Lower(a) + Lower(b)
  {
  }

  lemma LowerOfDigits(s: string)
    requires AllDigits(s)
    ensures Lower(s) == s
  {
  }

  // ---------------------------------------------------------------------------
  // String(Int) and "\(n)"

  function DigitChar(d: nat): char
    requires d < 10
  {
    ('0' as int + d) as char
  }

  /** Decimal spelling of `n`, without leading zeros. */
  function NatToString(n: nat): (r: string)
    ensures |r| >= 1 && AllDigits(r)
    ensures |r| > 1 ==> r[0] != '0'
  {
    if n < 10 then [DigitChar(n)] else NatToString(n / 10) + [DigitChar(n % 10)]
  }

  /** Decimal spelling of `n` with a leading '-' when negative, as Swift prints an Int. */
  function IntToString(n: int): (r: string)
    ensures |r| >= 1
    ensures n >= 0 ==> AllDigits(r)
    ensures n < 0 ==> r[0] == '-' && AllDigits(r[1..])
  {
    if n < 0 then "-" + NatToString(-n) else NatToString(n)
  }

  // ---------------------------------------------------------------------------
  // Int(String) and Double(String)

  /** Value of a string of decimal digits, most significant first. */
  function DigitsValue(s: string): nat
    requires AllDigits(s)
  {
    if s == [] then 0 else DigitsValue(s[..|s| - 1]) * 10 + (s[|s| - 1] as int - '0' as int)
  }

  /** Reading back what NatToString printed gives the number again. */
  lemma {:induction false} DigitsValueOfNat(n: nat)
    ensures DigitsValue(NatToString(n)) == n
  {
    var s := NatToString(n);
    if n >= 10 {
      assert s[..|s| - 1] == NatToString(n / 10);
      DigitsValueOfNat(n / 10);
    }
  }

  lemma NatToStringInjective(a: nat, b: nat)
    requires NatToString(a) == NatToString(b)
    ensures a == b
  {
    DigitsValueOfNat(a);
    DigitsValueOfNat(b);
  }

  const MinInt64: int := -0x8000_0000_0000_0000
  const MaxInt64: int := 0x7FFF_FFFF_FFFF_FFFF

  /** Splits an optional leading '+' or '-' off `s`. */
  function SplitSign(s: string): (bool, string) {
    if |s| > 0 && (s[0] == '-' || s[0] == '+') then (s[0] == '-', s[1..]) else (false, s)
  }

  /** Swift's `Int(String)`: an optional sign and at least one decimal digit,
      and nothing else, whose value fits in 64 bits. */
  function ParseInt(s: string): (r: Option<int>)
    ensures r.Some? ==> MinInt64 <= r.value <= MaxInt64
  {
    var (negative, body) := SplitSign(s);
    if body == [] || !AllDigits(body) then None
    else
      var magnitude: int := DigitsValue(body);
      var v := if negative then -magnitude else magnitude;
      if MinInt64 <= v <= MaxInt64 then Some(v) else None
  }

  /** Printing an Int and parsing it back gives the same Int. */
  lemma {:induction false} ParseIntOfIntToString(n: int)
    requires MinInt64 <= n <= MaxInt64
    ensures ParseInt(IntToString(n)) == Some(n)
  {
    if n < 0 {
      assert SplitSign(IntToString(n)) == (true, NatToString(-n));
      DigitsValueOfNat(-n);
    } else {
      DigitsValueOfNat(n);
    }
  }

  function Pow10(n: nat): (r: nat)
    ensures r >= 1
  {
    if n == 0 then 1 else 10 * Pow10(n - 1)
  }

  predicate HasDigit(s: string) {
    exists k :: 0 <= k < |s| && IsDigit(s[k])
  }

  /** Only digits and '.'. */
  predicate NumeralChars(s: string) {
    forall k :: 0 <= k < |s| ==> IsDigit(s[k]) || s[k] == '.'
  }

  /** Scans an unsigned decimal numeral left to right. `whole` holds the digits
      read before the '.', `frac` those read after it and `scale` how many of
      those there were. At most one '.' is allowed and at least one digit is
      needed in all. */
  function ScanDecimal(s: string, seenDot: bool, seenDigit: bool, whole: nat, frac: nat, scale: nat): (r: Option<real>)
    ensures r.Some? ==> r.value >= 0.0
    ensures r.Some? ==> seenDigit || HasDigit(s)
    ensures r.Some? ==> NumeralChars(s)
    ensures r.Some? && seenDot ==> forall k :: 0 <= k < |s| ==> s[k] != '.'
    decreases |s|
  {
    if s == [] then
      if seenDigit then Some(whole as real + frac as real / Pow10(scale) as real) else None
    else if IsDigit(s[0]) then
      var d := s[0] as int - '0' as int;
      if seenDot then ScanDecimal(s[1..], true, true, whole, frac * 10 + d, scale + 1)
      else ScanDecimal(s[1..], false, true, whole * 10 + d, frac, scale)
    else if s[0] == '.' && !seenDot then ScanDecimal(s[1..], true, seenDigit, whole, frac, scale)
    else None
  }

  /** Swift's `Double(String)` on plain decimal numerals: an optional sign,
      digits, and an optional '.' followed by digits, with at least one digit
      in all. */
  function ParseNumber(s: string): (r: Option<real>)
    ensures r.Some? ==> HasDigit(s)
    ensures r.Some? ==> IsDigit(s[0]) || s[0] in "+-."
    ensures r.Some? ==> NumeralChars(s[1..])
    ensures r.Some? && r.value < 0.0 ==> s[0] == '-'
  {
    var (negative, body) := SplitSign(s);
    match ScanDecimal(body, false, false, 0, 0, 0)
    case None => None
    case Some(v) => Some(if negative then -v else v)
  }

  /** On a string of digits only, with no '.' seen yet, the scan accumulates
      the digits exactly as DigitsValue reads them. */
  lemma {:induction false} ScanDigits(p: string, ds: string, seenDigit: bool)
    requires AllDigits(p) && AllDigits(ds)
    ensures AllDigits(p + ds)
    ensures ScanDecimal(ds, false, seenDigit, DigitsValue(p), 0, 0)
            == ScanDecimal([], false, seenDigit || ds != [], DigitsValue(p + ds), 0, 0)
    decreases |ds|
  {
    if ds == [] {
      assert p + ds == p;
    } else {
      var p' := p + [ds[0]];
      assert p'[..|p'| - 1] == p;
      assert DigitsValue(p') == DigitsValue(p) * 10 + (ds[0] as int - '0' as int);
      ScanDigits(p', ds[1..], true);
      assert p' + ds[1..] == p + ds;
    }
  }

  /** A printed natural number scans back to itself. */
  lemma ScanOfNat(n: nat)
    ensures ScanDecimal(NatToString(n), false, false, 0, 0, 0) == Some(n as real)
  {
    var digits := NatToString(n);
    ScanDigits([], digits, false);
    assert [] + digits == digits;
    DigitsValueOfNat(n);
  }

  /** A printed integer parses back, as a Double, to the same value. */
  lemma ParseNumberOfIntToString(n: int)
    ensures ParseNumber(IntToString(n)) == Some(n as real)
  {
    if n < 0 {
      assert SplitSign(IntToString(n)) == (true, NatToString(-n));
      ScanOfNat(-n);
    } else {
      assert IsDigit(NatToString(n)[0]);
      ScanOfNat(n);
    }
  }

  /** "+" followed by a printed natural number parses back to that number. */
  lemma ParseNumberOfPlusNat(n: nat)
    ensures ParseNumber("+" + NatToString(n)) == Some(n as real)
  {
    assert SplitSign("+" + NatToString(n)) == (false, NatToString(n));
    ScanOfNat(n);
  }

  /** "-" followed by a printed natural number parses back to its negation (so "-0" reads as 0). */
  lemma ParseNumberOfMinusNat(n: nat)
    ensures ParseNumber("-" + NatToString(n)) == Some(-(n as real))
  {
    assert SplitSign("-" + NatToString(n)) == (true, NatToString(n));
    ScanOfNat(n);
  }

  // ---------------------------------------------------------------------------
  // abs and Int(Double): truncation toward zero

  function Abs(x: real): (r: real)
    ensures r >= 0.0 && (r == x || r == -x)
  {
    if x < 0.0 then -x else x
  }

  /** Swift's `Int(x)`: `x` with its fractional part dropped, toward zero. */
  function Trunc(x: real): (r: int)
    ensures x >= 0.0 ==> r >= 0 && r as real <= x < r as real + 1.0
    ensures x < 0.0 ==> r <= 0 && r as real - 1.0 < x <= r as real
  {
    if x >= 0.0 then x.Floor else -((-x).Floor)
  }
}
