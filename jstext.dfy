/**
  The JavaScript string operations the program relies on, written out:
  `String.prototype.trim`, `String.prototype.toUpperCase` (as far as it can
  decide a comparison with an upper-case ASCII word), the case folding of a
  regular expression with the `i` flag and without the `u` flag,
  `Number.prototype.toString` on non-negative integers and
  `String.prototype.padStart(2, '0')`.
 */
module JsText {

  /** The WhiteSpace and LineTerminator code points of ECMA-262 (sections
      12.2 and 12.3): exactly what `trim` strips from both ends. */
  predicate IsTrimmable(c: char) {
    || c == '\t' || c == '\U{000B}' || c == '\U{000C}' || c == ' '
    || c == '\U{00A0}' || c == '\U{FEFF}' || c == '\U{1680}'
    || ('\U{2000}' <= c <= '\U{200A}')
    || c == '\U{202F}' || c == '\U{205F}' || c == '\U{3000}'
    || IsLineTerminator(c)
  }

  /** LineTerminator of ECMA-262 section 12.3: what `.` in a regular
      expression does not match. */
  predicate IsLineTerminator(c: char) {
    c == '\n' || c == '\r' || c == '\U{2028}' || c == '\U{2029}'
  }

  predicate AllTrimmable(s: string) {
    forall k :: 0 <= k < |s| ==> IsTrimmable(s[k])
  }

  /** Number of leading characters `trim` removes. */
  function LeadingTrimmable(s: string): (n: nat)
    ensures n <= |s|
    ensures AllTrimmable(s[..n])
    ensures n < |s| ==> !IsTrimmable(s[n])
    decreases |s|
  {
    if s != [] && IsTrimmable(s[0]) then
      var n := 1 + LeadingTrimmable(s[1..]);
      assert forall k :: 1 <= k < n ==> s[k] == s[1..][k - 1];
      n
    else 0
  }

  /** Number of trailing characters `trim` removes. */
  function TrailingTrimmable(s: string): (n: nat)
    ensures n <= |s|
    ensures AllTrimmable(s[|s| - n..])
    ensures n < |s| ==> !IsTrimmable(s[|s| - 1 - n])
    decreases |s|
  {
    if s != [] && IsTrimmable(s[|s| - 1]) then
      var t := s[..|s| - 1];
      var n := 1 + TrailingTrimmable(t);
      assert forall k :: |s| - n <= k < |s| - 1 ==> s[k] == t[k];
      n
    else 0
  }

  /** `s` is `r` with only trimmable characters added on either side. */
  ghost predicate TrimmedFrom(r: string, s: string) {
    exists i, j :: 0 <= i <= j <= |s| && r == s[i..j] && AllTrimmable(s[..i]) && AllTrimmable(s[j..])
  }

  /** `s.trim()`. */
  function Trim(s: string): (r: string)
    ensures TrimmedFrom(r, s)
    ensures r != [] ==> !IsTrimmable(r[0]) && !IsTrimmable(r[|r| - 1])
    ensures r == [] <==> AllTrimmable(s)
  {
    var i := LeadingTrimmable(s);
    var t := s[i..];
    var j := TrailingTrimmable(t);
    var r := t[..|t| - j];
    assert r == s[i..|s| - j];
    assert s[|s| - j..] == t[|t| - j..];
    assert r == [] ==> AllTrimmable(s) by {
      if r == [] {
        assert i == |s|;
        forall k | 0 <= k < |s| ensures IsTrimmable(s[k]) {
          assert s[k] == s[..i][k];
        }
      }
    }
    assert r != [] ==> r[0] == s[i] && r[|r| - 1] == t[|t| - 1 - j];
    r
  }

  /** A trim result has nothing more to trim. */
  lemma TrimIdempotent(s: string)
    ensures Trim(Trim(s)) == Trim(s)
  {
    var r := Trim(s);
    assert LeadingTrimmable(r) == 0;
    assert TrailingTrimmable(r) == 0;
  }

  /** `toUpperCase` on one character, as far as the result can be an ASCII
      letter: the ASCII letters, U+0131 (dotless i) and U+017F (long s) are
      the only characters whose upper case is an ASCII letter; every other
      character is left as it is here. */
  function UpperChar(c: char): char {
    if 'a' <= c <= 'z' then (c as int - 32) as char
    else if c == '\U{0131}' then 'I'
    else if c == '\U{017F}' then 'S'
    else c
  }

  function ToUpperCase(s: string): (r: string)
    ensures |r| == |s|
  {
    seq(|s|, k requires 0 <= k < |s| => UpperChar(s[k]))
  }

  predicate IsUpperAsciiLetter(c: char) { 'A' <= c <= 'Z' }

  /** The characters whose upper case is the ASCII capital `c`. */
  predicate IsCaseVariantOf(x: char, c: char) {
    || x == c
    || (IsUpperAsciiLetter(c) && x == (c as int + 32) as char)
    || (c == 'I' && x == '\U{0131}')
    || (c == 'S' && x == '\U{017F}')
  }

  /** `t` spells the upper-case ASCII word `w`, each letter in either case
      (or as a character whose upper case is that letter). */
  predicate SpellsIgnoringCase(t: string, w: string) {
    |t| == |w| && forall k :: 0 <= k < |t| ==> IsCaseVariantOf(t[k], w[k])
  }

  /** `t.toUpperCase() === w` for an upper-case ASCII word `w` holds exactly
      when `t` spells `w` in any mixture of cases. */
  lemma UpperEqualsWordIff(t: string, w: string)
    requires forall k :: 0 <= k < |w| ==> IsUpperAsciiLetter(w[k])
    ensures ToUpperCase(t) == w <==> SpellsIgnoringCase(t, w)
  {
    if |t| == |w| {
      if ToUpperCase(t) == w {
        forall k | 0 <= k < |t| ensures IsCaseVariantOf(t[k], w[k]) {
          assert UpperChar(t[k]) == w[k];
        }
      }
      if SpellsIgnoringCase(t, w) {
        forall k | 0 <= k < |t| ensures ToUpperCase(t)[k] == w[k] {
          assert IsCaseVariantOf(t[k], w[k]);
        }
      }
    }
  }

  /** Case folding of a regular expression with the `i` flag and no `u`
      flag (ECMA-262 Canonicalize): a character folds onto an ASCII letter
      only if it is that letter in either case, so only ASCII letters fold. */
  function FoldAscii(c: char): char {
    if 'A' <= c <= 'Z' then (c as int + 32) as char else c
  }

  // ---------------------------------------------------------------------
  // Decimal rendering of non-negative integers

  predicate IsDigit(c: char) { '0' <= c <= '9' }

  predicate AllDigits(s: string) { forall k :: 0 <= k < |s| ==> IsDigit(s[k]) }

  function DigitChar(d: nat): (c: char)
    requires d < 10
    ensures IsDigit(c) && c as int - '0' as int == d
  {
    ('0' as int + d) as char
  }

  /** `n.toString()` for a non-negative integer: its decimal digits, no
      leading zero. */
  function NatToString(n: nat): (r: string)
    ensures |r| >= 1 && AllDigits(r)
    ensures r[0] == '0' ==> n == 0
    decreases n
  {
    if n < 10 then [DigitChar(n)] else NatToString(n / 10) + [DigitChar(n % 10)]
  }

  /** The number a string of decimal digits denotes. */
  function DecimalValue(s: string): nat
    requires AllDigits(s)
    decreases |s|
  {
    if s == [] then 0 else DecimalValue(s[..|s| - 1]) * 10 + (s[|s| - 1] as int - '0' as int)
  }

  lemma {:induction false} DecimalRoundTrip(n: nat)
    ensures DecimalValue(NatToString(n)) == n
    decreases n
  {
    if n >= 10 {
      DecimalRoundTrip(n / 10);
      var r := NatToString(n);
      assert r[..|r| - 1] == NatToString(n / 10);
    }
  }

  function Pow10(k: nat): (p: nat)
    ensures p >= 1
  {
    if k == 0 then 1 else 10 * Pow10(k - 1)
  }

  /** A number in [10^(k-1), 10^k) is written with exactly k digits. */
  lemma {:induction false} NatToStringLength(n: nat, k: nat)
    requires k >= 1 && Pow10(k - 1) <= n < Pow10(k)
    ensures |NatToString(n)| == k
    decreases k
  {
    if k > 1 {
      NatToStringLength(n / 10, k - 1);
    } else {
      assert n < 10;
    }
  }

  /** `s.padStart(2, '0')`. */
  function PadStart2(s: string): (r: string)
    ensures |r| == if |s| < 2 then 2 else |s|
    ensures r[|r| - |s|..] == s
    ensures forall k :: 0 <= k < |r| - |s| ==> r[k] == '0'
  {
    if |s| == 0 then "00" else if |s| == 1 then "0" + s else s
  }

  /** Leading zeros do not change the denoted number. */
  lemma {:induction false} DecimalValueLeadingZero(s: string)
    requires AllDigits(s)
    ensures AllDigits("0" + s) && DecimalValue("0" + s) == DecimalValue(s)
    decreases |s|
  {
    if s != [] {
      var z := "0" + s;
      assert z[..|z| - 1] == "0" + s[..|s| - 1];
      DecimalValueLeadingZero(s[..|s| - 1]);
    }
  }

  /** A padded number still reads back as that number. */
  lemma PaddedRoundTrip(n: nat)
    ensures AllDigits(PadStart2(NatToString(n)))
    ensures DecimalValue(PadStart2(NatToString(n))) == n
    ensures n < 100 ==> |PadStart2(NatToString(n))| == 2
  {
    var s := NatToString(n);
    DecimalRoundTrip(n);
    if |s| == 1 {
      DecimalValueLeadingZero(s);
    }
    if n < 100 {
      if n >= 10 {
        assert Pow10(2) == 100;
        NatToStringLength(n, 2);
      }
    }
  }
}
