/**
 The string primitives the course store and the forms rely on:
 `String.prototype.trim`, `String.prototype.toUpperCase` (ASCII letters
 only) and `String(n)` for a non-negative integer `n`, together with the
 decimal parse that inverts it.
 */
module Text {

  /** The characters `trim` removes: ECMAScript's WhiteSpace (tab, vertical
      tab, form feed, space, no-break space, the byte order mark and the
      space separators) and LineTerminator (line feed, carriage return,
      line separator, paragraph separator). */
  predicate IsWhitespace(c: char) {
    || c == '\t' || c == '\U{000B}' || c == '\U{000C}' || c == ' '
    || c == '\U{00A0}' || c == '\U{FEFF}' || c == '\U{1680}'
    || ('\U{2000}' <= c <= '\U{200A}')
    || c == '\U{202F}' || c == '\U{205F}' || c == '\U{3000}'
    || c == '\n' || c == '\r' || c == '\U{2028}' || c == '\U{2029}'
  }

  /** True iff `s` consists only of whitespace (vacuously for `""`). */
  ghost predicate AllWhitespace(s: string) {
    forall i :: 0 <= i < |s| ==> IsWhitespace(s[i])
  }

  /** True iff every character of `s` from `lo` up to `hi` is whitespace. */
  ghost predicate WhitespaceBetween(s: string, lo: nat, hi: nat) {
    forall k :: lo <= k < hi && k < |s| ==> IsWhitespace(s[k])
  }

  /** The first position at or after `i` that is not whitespace, or `|s|`. */
  function SkipForward(s: string, i: nat): (r: nat)
    requires i <= |s|
    ensures i <= r <= |s| && WhitespaceBetween(s, i, r)
    ensures r < |s| ==> !IsWhitespace(s[r])
    decreases |s| - i
  {
    if i < |s| && IsWhitespace(s[i]) then SkipForward(s, i + 1) else i
  }

  /** The end of the last non-whitespace character at or after `lo` and
      before `j`, or `lo` when there is none. */
  function SkipBackward(s: string, lo: nat, j: nat): (r: nat)
    requires lo <= j <= |s|
    ensures lo <= r <= j && WhitespaceBetween(s, r, j)
    ensures r > lo ==> !IsWhitespace(s[r - 1])
    decreases j
  {
    if j > lo && IsWhitespace(s[j - 1]) then SkipBackward(s, lo, j - 1) else j
  }

  /** Where the trimmed text starts. */
  function TrimLo(s: string): nat {
    SkipForward(s, 0)
  }

  /** Where the trimmed text ends. */
  function TrimHi(s: string): (r: nat)
    ensures TrimLo(s) <= r <= |s|
  {
    SkipBackward(s, TrimLo(s), |s|)
  }

  /** `s.trim()`: `s` without its leading and trailing whitespace. */
  function Trim(s: string): (r: string)
    ensures r == [] || (!IsWhitespace(r[0]) && !IsWhitespace(r[|r| - 1]))
  {
    s[TrimLo(s)..TrimHi(s)]
  }

  /** `s.trim()` is the slice of `s` between a whitespace-only prefix and a
      whitespace-only suffix. */
  lemma TrimIsSlice(s: string)
    ensures exists i, j :: 0 <= i <= j <= |s| && Trim(s) == s[i..j]
                           && AllWhitespace(s[..i]) && AllWhitespace(s[j..])
  {
    var i, j := TrimLo(s), TrimHi(s);
    assert WhitespaceBetween(s, 0, i) && WhitespaceBetween(s, j, |s|);
    assert forall k :: 0 <= k < i ==> s[..i][k] == s[k];
    assert forall k :: 0 <= k < |s| - j ==> s[j..][k] == s[j + k];
    assert Trim(s) == s[i..j] && AllWhitespace(s[..i]) && AllWhitespace(s[j..]);
  }

  /** A string trims to `""` exactly when it is empty or all whitespace. */
  lemma TrimEmptyIff(s: string)
    ensures Trim(s) == [] <==> AllWhitespace(s)
  {
    var i, j := TrimLo(s), TrimHi(s);
    assert WhitespaceBetween(s, 0, i) && WhitespaceBetween(s, j, |s|);
  }

  /** Trimming twice is the same as trimming once. */
  lemma TrimIdempotent(s: string)
    ensures Trim(Trim(s)) == Trim(s)
  {
    var r := Trim(s);
    assert TrimLo(r) == 0;
    assert TrimHi(r) == |r|;
    assert r[0..|r|] == r;
  }

  /** True iff `c` is a decimal digit. */
  predicate IsDigit(c: char) {
    '0' <= c <= '9'
  }

  /** True iff `s` consists only of decimal digits. */
  ghost predicate AllDigits(s: string) {
    forall i :: 0 <= i < |s| ==> IsDigit(s[i])
  }

  /** The digit character for `d`. */
  function DigitChar(d: nat): (c: char)
    requires d < 10
    ensures IsDigit(c)
  {
    "0123456789"[d]
  }

  /** The value of a digit character. */
  function DigitValue(c: char): (d: nat)
    requires IsDigit(c)
    ensures d < 10
  {
    c as int - '0' as int
  }

  /** `String(n)`: the shortest decimal numeral of `n`. */
  function Decimal(n: nat): (r: string)
    ensures |r| >= 1 && AllDigits(r)
    ensures r[0] == '0' ==> n == 0
    decreases n
  {
    if n < 10 then [DigitChar(n)] else Decimal(n / 10) + [DigitChar(n % 10)]
  }

  /** The value of a decimal numeral (leading zeros allowed). */
  function ParseDecimal(s: string): nat
    requires AllDigits(s)
  {
    if |s| == 0 then 0
    else ParseDecimal(s[..|s| - 1]) * 10 + DigitValue(s[|s| - 1])
  }

  /** `String(n)` round-trips through decimal parsing. */
  lemma {:induction false} ParseDecimalOfDecimal(n: nat)
    ensures ParseDecimal(Decimal(n)) == n
    decreases n
  {
    var d := Decimal(n);
    if n < 10 {
      assert d[..0] == [];
      assert DigitValue(DigitChar(n)) == n;
    } else {
      ParseDecimalOfDecimal(n / 10);
      assert d[..|d| - 1] == Decimal(n / 10);
      assert DigitValue(DigitChar(n % 10)) == n % 10;
    }
  }

  /** Distinct numbers have distinct decimal numerals. */
  lemma DecimalInjective(m: nat, n: nat)
    ensures Decimal(m) == Decimal(n) ==> m == n
  {
    ParseDecimalOfDecimal(m);
    ParseDecimalOfDecimal(n);
  }

  /** Numbers from 100 to 999 have three-digit numerals. */
  lemma DecimalThreeDigits(n: nat)
    requires 100 <= n <= 999
    ensures |Decimal(n)| == 3
  {
    assert Decimal(n / 100) == [DigitChar(n / 100)];
    assert Decimal(n / 10) == Decimal(n / 10 / 10) + [DigitChar(n / 10 % 10)];
  }

  /** `c.toUpperCase()` for a single character, on the ASCII letters. */
  function UpperChar(c: char): (u: char)
  {
    if 'a' <= c <= 'z' then (c as int - 'a' as int + 'A' as int) as char else c
  }

  /** `s.toUpperCase()`, character by character. */
  function UpperCase(s: string): (r: string)
    ensures |r| == |s|
    ensures forall i :: 0 <= i < |s| ==> r[i] == UpperChar(s[i])
  {
    seq(|s|, i requires 0 <= i < |s| => UpperChar(s[i]))
  }

  /** Upper-casing leaves no lower-case ASCII letter and changes nothing
      else than lower-case ASCII letters. */
  lemma UpperCaseSpec(s: string)
    ensures forall i :: 0 <= i < |s| ==> !('a' <= UpperCase(s)[i] <= 'z')
    ensures forall i :: 0 <= i < |s| && !('a' <= s[i] <= 'z') ==> UpperCase(s)[i] == s[i]
    ensures UpperCase(UpperCase(s)) == UpperCase(s)
  {
  }
}
