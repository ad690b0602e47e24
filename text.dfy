/**
  The few java.lang.String operations the report generator relies on, over
  `string`. A Dafny `string` is a sequence of Unicode scalar values, whereas a
  Java String is a sequence of UTF-16 code units; the two agree on text without
  characters outside the Basic Multilingual Plane. It covers case folding with
  `Locale.ROOT`, `lastIndexOf`, `endsWith`, `equalsIgnoreCase`, and the decimal
  rendering of a `long` by `%d`. Case folding is modelled on ASCII letters only.
*/
module Text {
  import opened Wrappers

  predicate IsUpper(c: char) { 'A' <= c <= 'Z' }

  predicate IsLower(c: char) { 'a' <= c <= 'z' }

  /** No upper-case ASCII letter occurs in `s`. */
  predicate IsLowerCase(s: string) {
    forall i :: 0 <= i < |s| ==> !IsUpper(s[i])
  }

  /** `Character.toLowerCase` restricted to ASCII. */
  function LowerChar(c: char): (r: char)
    ensures !IsUpper(r)
    ensures IsUpper(c) <==> IsLower(r) && r != c
    ensures !IsUpper(c) ==> r == c
  {
    if IsUpper(c) then (c as int + 32) as char else c
  }

  /** `Character.toUpperCase` restricted to ASCII. */
  function UpperChar(c: char): (r: char)
    ensures !IsLower(r)
    ensures IsLower(c) <==> IsUpper(r) && r != c
    ensures !IsLower(c) ==> r == c
  {
    if IsLower(c) then (c as int - 32) as char else c
  }

  /** `String.toLowerCase(Locale.ROOT)`: every letter lower-cased, nothing else touched. */
  function ToLower(s: string): (r: string)
    ensures |r| == |s| && IsLowerCase(r)
    ensures forall i :: 0 <= i < |s| && !IsUpper(s[i]) ==> r[i] == s[i]
    ensures forall i :: 0 <= i < |s| && IsUpper(s[i]) ==> UpperChar(r[i]) == s[i]
  {
    seq(|s|, i requires 0 <= i < |s| => LowerChar(s[i]))
  }

  /** The last index below `n` holding `c`, or -1: the backward scan `lastIndexOf` performs. */
  function LastBelow(s: string, c: char, n: nat): (r: int)
    requires n <= |s|
    ensures -1 <= r < n
    ensures 0 <= r ==> s[r] == c
    ensures forall j :: r < j < n ==> s[j] != c
  {
    if n == 0 then -1
    else if s[n - 1] == c then n - 1
    else LastBelow(s, c, n - 1)
  }

  /**
    `String.lastIndexOf(char)`: the index of the last occurrence of `c`, or -1
    when `c` does not occur.
  */
  function LastIndexOf(s: string, c: char): (r: int)
    ensures -1 <= r < |s|
    ensures r == -1 <==> c !in s
    ensures 0 <= r ==> s[r] == c && c !in s[r + 1..]
  {
    LastBelow(s, c, |s|)
  }

  /** An occurrence with none after it is the last one. */
  lemma LastIndexOfAt(s: string, c: char, j: nat)
    requires j < |s| && s[j] == c && c !in s[j + 1..]
    ensures LastIndexOf(s, c) == j
  {
  }

  /** When `c` occurs before position `n` and not from `n` on, its last occurrence is before `n`. */
  lemma LastIndexOfBefore(s: string, c: char, n: nat)
    requires n <= |s| && c in s[..n] && c !in s[n..]
    ensures 0 <= LastIndexOf(s, c) < n
  {
    var k :| 0 <= k < n && s[..n][k] == c;
    assert s[k] == c;
  }

  /** `String.endsWith`: `s` is some text followed by `suffix`. */
  predicate EndsWith(s: string, suffix: string)
    ensures EndsWith(s, suffix) ==> |suffix| <= |s| && s == s[..|s| - |suffix|] + suffix
  {
    |suffix| <= |s| && s[|s| - |suffix|..] == suffix
  }

  /** Any text followed by `suffix` ends with it. */
  lemma EndsWithAppend(p: string, suffix: string)
    ensures EndsWith(p + suffix, suffix)
  {
    assert (p + suffix)[|p|..] == suffix;
  }

  /** Lower-casing keeps a final character that is not an upper-case letter. */
  lemma ToLowerLast(s: string)
    ensures s != [] && !IsUpper(s[|s| - 1]) ==> ToLower(s) != [] && ToLower(s)[|s| - 1] == s[|s| - 1]
  {
  }

  /** Dropping a prefix of a lower-case string leaves a lower-case string. */
  lemma LowerCaseDrop(s: string, k: nat)
    requires IsLowerCase(s) && k <= |s|
    ensures IsLowerCase(s[k..])
  {
    forall i | 0 <= i < |s| - k
      ensures !IsUpper(s[k..][i])
    {
      assert s[k..][i] == s[k + i];
    }
  }

  /**
    `String.equalsIgnoreCase`: equal lengths and, position by position, the
    characters are equal, or equal after upper-casing, or equal after
    upper-casing and then lower-casing.
  */
  predicate EqualsIgnoreCase(a: string, b: string)
    ensures a == b ==> EqualsIgnoreCase(a, b)
    ensures EqualsIgnoreCase(a, b) ==> |a| == |b|
  {
    |a| == |b| &&
    forall i :: 0 <= i < |a| ==>
      a[i] == b[i] ||
      UpperChar(a[i]) == UpperChar(b[i]) ||
      LowerChar(UpperChar(a[i])) == LowerChar(UpperChar(b[i]))
  }

  /** On ASCII case folding, ignoring case means having the same lower-cased form. */
  lemma EqualsIgnoreCaseIffSameLower(a: string, b: string)
    ensures EqualsIgnoreCase(a, b) <==> ToLower(a) == ToLower(b)
  {
    if ToLower(a) == ToLower(b) {
      forall i | 0 <= i < |a|
        ensures UpperChar(a[i]) == UpperChar(b[i])
      {
        assert ToLower(a)[i] == ToLower(b)[i];
      }
    }
    if EqualsIgnoreCase(a, b) {
      forall i | 0 <= i < |a|
        ensures ToLower(a)[i] == ToLower(b)[i]
      {
      }
    }
  }

  // Decimal rendering of integers, as `%d` prints a `long`.

  predicate IsDigit(c: char) { '0' <= c <= '9' }

  predicate AllDigits(s: string) {
    forall i :: 0 <= i < |s| ==> IsDigit(s[i])
  }

  function DigitChar(d: nat): (c: char)
    requires d < 10
    ensures IsDigit(c) && c as int - '0' as int == d
  {
    ('0' as int + d) as char
  }

  function DigitValue(c: char): (d: nat)
    requires IsDigit(c)
    ensures d < 10 && DigitChar(d) == c
  {
    c as int - '0' as int
  }

  /** The value of a string of decimal digits, most significant first. */
  function DecimalValue(s: string): nat
    requires AllDigits(s)
  {
    if s == [] then 0 else DecimalValue(s[..|s| - 1]) * 10 + DigitValue(s[|s| - 1])
  }

  /** The shortest decimal numeral of `n`. */
  function NatToDecimal(n: nat): (r: string)
    ensures |r| > 0 && AllDigits(r)
    ensures n > 0 ==> r[0] != '0'
  {
    if n < 10 then [DigitChar(n)] else NatToDecimal(n / 10) + [DigitChar(n % 10)]
  }

  lemma {:induction false} NatToDecimalRoundTrip(n: nat)
    ensures DecimalValue(NatToDecimal(n)) == n
  {
    if n >= 10 {
      var r := NatToDecimal(n);
      assert r[..|r| - 1] == NatToDecimal(n / 10);
      NatToDecimalRoundTrip(n / 10);
    }
  }

  /** `%d`: a minus sign for a negative value, then the digits of its magnitude. */
  function IntToDecimal(x: int): (r: string)
    ensures |r| > 0 && ',' !in r
  {
    if x < 0 then "-" + NatToDecimal(-x) else NatToDecimal(x)
  }

  /** Reads back what `IntToDecimal` writes. */
  function ParseDecimal(s: string): Option<int>
  {
    if |s| > 1 && s[0] == '-' && AllDigits(s[1..]) then Some(-(DecimalValue(s[1..]) as int))
    else if |s| > 0 && AllDigits(s) then Some(DecimalValue(s))
    else None
  }

  lemma IntToDecimalRoundTrip(x: int)
    ensures ParseDecimal(IntToDecimal(x)) == Some(x)
  {
    if x < 0 {
      var digits := NatToDecimal(-x);
      NatToDecimalRoundTrip(-x);
      var r := "-" + digits;
      assert r[0] == '-' && r[1..] == digits;
      assert IntToDecimal(x) == r;
    } else {
      NatToDecimalRoundTrip(x);
    }
  }

  /** The first index from `i` on holding `c`, or -1: the forward scan `indexOf` performs. */
  function FirstFrom(s: string, c: char, i: nat): (r: int)
    requires i <= |s|
    ensures r == -1 || i <= r < |s|
    ensures 0 <= r ==> s[r] == c
    ensures forall j :: i <= j < |s| && (r < 0 || j < r) ==> s[j] != c
    decreases |s| - i
  {
    if i == |s| then -1
    else if s[i] == c then i
    else FirstFrom(s, c, i + 1)
  }

  /** `String.indexOf(char)`: the first occurrence of `c`, or -1. */
  function IndexOf(s: string, c: char): (r: int)
    ensures -1 <= r < |s|
    ensures r == -1 <==> c !in s
    ensures 0 <= r ==> s[r] == c && c !in s[..r]
  {
    FirstFrom(s, c, 0)
  }
}
