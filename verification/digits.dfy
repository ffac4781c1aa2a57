/** Decimal digit strings and the natural numbers they denote, shared by the
    number parser and by the digits-only input fields. */
module Digits {
  import opened Text

  function DigitValue(c: char): nat
    requires IsDigit(c)
  {
    c as int - '0' as int
  }

  function DigitChar(n: nat): (c: char)
    requires n < 10
    ensures IsDigit(c) && DigitValue(c) == n
  {
    ('0' as int + n) as char
  }

  predicate AllDigits(s: string) {
    forall k :: 0 <= k < |s| ==> IsDigit(s[k])
  }

  function Pow10(n: nat): (r: nat)
    ensures r >= 1
  {
    if n == 0 then 1 else 10 * Pow10(n - 1)
  }

  lemma {:induction false} Pow10Add(a: nat, b: nat)
    ensures Pow10(a + b) == Pow10(a) * Pow10(b)
  {
    if b > 0 {
      Pow10Add(a, b - 1);
    }
  }

  /** The number the digits `s[a..b]` spell, most significant first. */
  function NatValueRange(s: string, a: nat, b: nat): nat
    requires a <= b <= |s|
    requires forall k :: a <= k < b ==> IsDigit(s[k])
    decreases b - a
  {
    if b == a then 0 else NatValueRange(s, a, b - 1) * 10 + DigitValue(s[b - 1])
  }

  /** The number a digit string spells; leading zeros do not count and the
      empty string spells 0 (as `Number("")` does). */
  function NatValue(d: string): nat
    requires AllDigits(d)
  {
    NatValueRange(d, 0, |d|)
  }

  /** Reading a digit string in two pieces. */
  lemma {:induction false} NatValueRangeSplit(s: string, a: nat, m: nat, b: nat)
    requires a <= m <= b <= |s|
    requires forall k :: a <= k < b ==> IsDigit(s[k])
    ensures NatValueRange(s, a, b) == NatValueRange(s, a, m) * Pow10(b - m) + NatValueRange(s, m, b)
    decreases b - m
  {
    if b > m {
      NatValueRangeSplit(s, a, m, b - 1);
      var hi, lo, p := NatValueRange(s, a, m), NatValueRange(s, m, b - 1), Pow10(b - 1 - m);
      var d := DigitValue(s[b - 1]);
      assert NatValueRange(s, a, b) == NatValueRange(s, a, b - 1) * 10 + d;
      assert NatValueRange(s, m, b) == lo * 10 + d;
      assert Pow10(b - m) == p * 10;
      ShiftDigit(hi, p, lo, d);
    }
  }

  lemma ShiftDigit(hi: int, p: int, lo: int, d: int)
    ensures (hi * p + lo) * 10 + d == hi * (p * 10) + (lo * 10 + d)
  {
  }

  /** A range of a string spells what the slice spells. */
  lemma {:induction false} NatValueRangeSlice(s: string, a: nat, b: nat)
    requires a <= b <= |s|
    requires forall k :: a <= k < b ==> IsDigit(s[k])
    ensures AllDigits(s[a..b])
    ensures NatValueRange(s, a, b) == NatValue(s[a..b])
    decreases b - a
  {
    if b > a {
      NatValueRangeSlice(s, a, b - 1);
      var t := s[a..b];
      assert t[..|t| - 1] == s[a..b - 1];
      NatValueRangeOfPrefix(t, |t| - 1);
    }
  }

  /** A prefix of a string is read the same on its own. */
  lemma {:induction false} NatValueRangeOfPrefix(t: string, n: nat)
    requires n <= |t| && AllDigits(t)
    ensures NatValueRange(t, 0, n) == NatValue(t[..n])
    decreases n
  {
    if n > 0 {
      NatValueRangeOfPrefix(t, n - 1);
      assert t[..n][..n - 1] == t[..n - 1];
      NatValueRangeSame(t, t[..n], n - 1);
    }
  }

  /** Two strings that agree on `[0, n)` spell the same number there. */
  lemma {:induction false} NatValueRangeSame(s: string, t: string, n: nat)
    requires n <= |s| && n <= |t|
    requires forall k :: 0 <= k < n ==> s[k] == t[k] && IsDigit(s[k])
    ensures NatValueRange(s, 0, n) == NatValueRange(t, 0, n)
    decreases n
  {
    if n > 0 {
      NatValueRangeSame(s, t, n - 1);
    }
  }

  /** Concatenating digit strings shifts the first by the length of the second. */
  lemma NatValueAppend(x: string, y: string)
    requires AllDigits(x) && AllDigits(y)
    ensures AllDigits(x + y)
    ensures NatValue(x + y) == NatValue(x) * Pow10(|y|) + NatValue(y)
  {
    var s := x + y;
    NatValueRangeSplit(s, 0, |x|, |s|);
    NatValueRangeSlice(s, 0, |x|);
    NatValueRangeSlice(s, |x|, |s|);
    assert s[0..|x|] == x;
    assert s[|x|..|s|] == y;
  }

  /** `n.toString()` for a natural number: no leading zeros, "0" for zero. */
  function NatToDigits(n: nat): (d: string)
    ensures AllDigits(d) && |d| >= 1
    ensures NatValue(d) == n
    ensures n < 10 <==> |d| == 1
    decreases n
  {
    if n < 10 then
      [DigitChar(n)]
    else
      var d := NatToDigits(n / 10) + [DigitChar(n % 10)];
      NatValueAppend(NatToDigits(n / 10), [DigitChar(n % 10)]);
      d
  }
}
