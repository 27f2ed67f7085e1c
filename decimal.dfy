/** Decimal text of integers as the Java runtime writes and reads it:
    `Integer.toString`, `String.valueOf(int)`, `String.trim` and
    `new Integer(String)` (which parses like `Integer.parseInt`). */
module Decimal {
  import opened Wrappers

  const MinInt32: int := -0x8000_0000
  const MaxInt32: int := 0x7fff_ffff

  predicate IsDigit(c: char) {
    '0' <= c <= '9'
  }

  predicate AllDigits(s: string) {
    forall i :: 0 <= i < |s| ==> IsDigit(s[i])
  }

  function DigitChar(d: nat): (c: char)
    requires d < 10
    ensures IsDigit(c) && c as int - '0' as int == d
  {
    ('0' as int + d) as char
  }

  /** The shortest decimal spelling of `n`, without sign or leading zeros. */
  function NatToString(n: nat): (s: string)
    ensures |s| >= 1 && AllDigits(s)
    ensures |s| > 1 ==> s[0] != '0'
    decreases n
  {
    if n < 10 then [DigitChar(n)] else NatToString(n / 10) + [DigitChar(n % 10)]
  }

  /** `Integer.toString(i)`: a minus sign for negative values, then the digits. */
  function IntToString(i: int): string {
    if i < 0 then "-" + NatToString(-i) else NatToString(i)
  }

  /** The value of a string of digits, read left to right. */
  function DigitsValue(s: string): nat
    requires AllDigits(s)
  {
    if s == [] then 0 else DigitsValue(s[..|s| - 1]) * 10 + (s[|s| - 1] as int - '0' as int)
  }

  lemma {:induction false} NatToStringRoundTrip(n: nat)
    ensures DigitsValue(NatToString(n)) == n
    decreases n
  {
    if n >= 10 {
      var s := NatToString(n);
      assert s[..|s| - 1] == NatToString(n / 10);
      NatToStringRoundTrip(n / 10);
    }
  }

  /** Distinct numbers have distinct spellings. */
  lemma NatToStringInjective(a: nat, b: nat)
    requires NatToString(a) == NatToString(b)
    ensures a == b
  {
    NatToStringRoundTrip(a);
    NatToStringRoundTrip(b);
  }

  /** `String.trim()`: drop every leading and trailing character whose code
      is at most that of the space character. */
  function Trim(s: string): (r: string)
    ensures |r| <= |s|
    ensures |r| > 0 ==> r[0] > ' ' && r[|r| - 1] > ' '
  {
    var st := FirstNonBlank(s, 0);
    s[st..EndOfNonBlank(s, |s|, st)]
  }

  /** Where the forward scan of `trim` stops. */
  function FirstNonBlank(s: string, i: nat): (k: nat)
    requires i <= |s|
    ensures i <= k <= |s|
    ensures forall m :: i <= m < k ==> s[m] <= ' '
    ensures k < |s| ==> s[k] > ' '
    decreases |s| - i
  {
    if i < |s| && s[i] <= ' ' then FirstNonBlank(s, i + 1) else i
  }

  /** Where the backward scan of `trim` stops; it never passes `lo`. */
  function EndOfNonBlank(s: string, j: nat, lo: nat): (k: nat)
    requires lo <= j <= |s|
    ensures lo <= k <= j
    ensures forall m :: k <= m < j ==> s[m] <= ' '
    ensures k > lo ==> s[k - 1] > ' '
  {
    if j > lo && s[j - 1] <= ' ' then EndOfNonBlank(s, j - 1, lo) else j
  }

  /** `Integer.parseInt(s)` for radix 10: an optional `-` or `+`, then at
      least one digit; `None` stands for a NumberFormatException, which is
      also what a value outside the 32-bit range produces. */
  function ParseInt(s: string): (r: Option<int>)
    ensures r.Some? ==> MinInt32 <= r.value <= MaxInt32
    ensures r.Some? ==> |s| > 0
  {
    if |s| == 0 then None
    else
      var signed := s[0] == '-' || s[0] == '+';
      var digits := if signed then s[1..] else s;
      if |digits| == 0 || !AllDigits(digits) then None
      else
        var magnitude: int := DigitsValue(digits);
        var v := if s[0] == '-' then -magnitude else magnitude;
        if MinInt32 <= v <= MaxInt32 then Some(v) else None
  }

  /** Reading back what `Integer.toString` wrote gives the same 32-bit value. */
  lemma ParseIntRoundTrip(i: int)
    requires MinInt32 <= i <= MaxInt32
    ensures ParseInt(IntToString(i)) == Some(i)
  {
    if i < 0 {
      NatToStringRoundTrip(-i);
      ParsesNegative(NatToString(-i));
    } else {
      NatToStringRoundTrip(i);
      ParsesDigits(NatToString(i));
    }
  }

  lemma ParsesDigits(d: string)
    requires |d| > 0 && AllDigits(d) && DigitsValue(d) <= MaxInt32
    ensures ParseInt(d) == Some(DigitsValue(d))
  {
    assert IsDigit(d[0]);
  }

  lemma ParsesNegative(d: string)
    requires |d| > 0 && AllDigits(d) && DigitsValue(d) <= -MinInt32
    ensures ParseInt("-" + d) == Some(-(DigitsValue(d) as int))
  {
    assert ("-" + d)[1..] == d;
  }

  /** Surrounding blanks (and control characters) do not change the value
      that trimming and parsing recover. */
  lemma TrimDigits(pre: string, n: nat, post: string)
    requires forall k :: 0 <= k < |pre| ==> pre[k] <= ' '
    requires forall k :: 0 <= k < |post| ==> post[k] <= ' '
    ensures Trim(pre + NatToString(n) + post) == NatToString(n)
  {
    var d := NatToString(n);
    var s := pre + d + post;
    var st := FirstNonBlank(s, 0);
    assert s[|pre|] == d[0];
    assert st == |pre|;
    var en := EndOfNonBlank(s, |s|, st);
    assert s[|pre| + |d| - 1] == d[|d| - 1];
    assert en == |pre| + |d|;
    assert s[st..en] == d;
  }
}
