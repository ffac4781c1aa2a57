/** `parseFinancialNumber` (services/geminiService.ts): turns the loosely
    formatted numbers a language model writes ("R$ 1.234,56", "$1,234.56",
    "35bi") into a number.

    The pipeline is: lower-case the text; pick a magnitude from "bi"/"mi";
    keep only digits, ',', '.' and '-'; decide which separator is the decimal
    one; read the longest decimal prefix the way `parseFloat` does; multiply. */
module NumericNormaliser {
  import opened Wrappers
  import opened Text
  import opened Digits

  /** A field of the provider's JSON as `JSON.parse` hands it over:
      missing (`undefined`/`null`), a number, or a string. */
  datatype RawValue = Absent | Num(n: real) | Str(s: string)

  predicate IsNumericChar(c: char) {
    IsDigit(c) || c == ',' || c == '.' || c == '-'
  }

  // ---------------------------------------------------------------------
  // Cleaning and separator disambiguation
  // ---------------------------------------------------------------------

  /** `s[i..].replace(/[^\d,\.-]/g, '')`. */
  function KeepNumericFrom(s: string, i: nat): (r: string)
    requires i <= |s|
    ensures forall x :: x in r ==> IsNumericChar(x)
    decreases |s| - i
  {
    if i == |s| then []
    else if IsNumericChar(s[i]) then [s[i]] + KeepNumericFrom(s, i + 1)
    else KeepNumericFrom(s, i + 1)
  }

  function KeepNumeric(s: string): (r: string)
    ensures forall x :: x in r ==> IsNumericChar(x)
  {
    KeepNumericFrom(s, 0)
  }

  /** A string made only of the characters the cleaning keeps is left as it is. */
  lemma {:induction false} KeepNumericFromFixed(s: string, i: nat)
    requires i <= |s|
    requires forall k :: i <= k < |s| ==> IsNumericChar(s[k])
    ensures KeepNumericFrom(s, i) == s[i..]
    decreases |s| - i
  {
    if i < |s| {
      KeepNumericFromFixed(s, i + 1);
      assert s[i..] == [s[i]] + s[i + 1..];
    }
  }

  /** A lone character survives the cleaning exactly when it is a digit,
      ',', '.' or '-'. */
  lemma KeepNumericOne(c: char)
    ensures KeepNumeric([c]) == if IsNumericChar(c) then [c] else []
  {
    assert KeepNumericFrom([c], 1) == [];
  }

  /** Cleaning past a prefix `p` is cleaning what follows it. */
  lemma {:induction false} KeepNumericFromShift(p: string, s: string, j: nat)
    requires j <= |s|
    ensures KeepNumericFrom(p + s, |p| + j) == KeepNumericFrom(s, j)
    decreases |s| - j
  {
    if j < |s| {
      assert (p + s)[|p| + j] == s[j];
      KeepNumericFromShift(p, s, j + 1);
    }
  }

  lemma {:induction false} KeepNumericFromAppend(a: string, b: string, i: nat)
    requires i <= |a|
    ensures KeepNumericFrom(a + b, i) == KeepNumericFrom(a, i) + KeepNumeric(b)
    decreases |a| - i
  {
    if i == |a| {
      KeepNumericFromShift(a, b, 0);
    } else {
      assert (a + b)[i] == a[i];
      KeepNumericFromAppend(a, b, i + 1);
    }
  }

  /** The cleaning works character by character: the kept characters of
      `a + b` are those of `a` followed by those of `b`, in order. */
  lemma KeepNumericAppend(a: string, b: string)
    ensures KeepNumeric(a + b) == KeepNumeric(a) + KeepNumeric(b)
  {
    KeepNumericFromAppend(a, b, 0);
  }

  lemma {:induction false} KeepNumericFromLower(s: string, i: nat)
    requires i <= |s|
    ensures KeepNumericFrom(ToLower(s), i) == KeepNumericFrom(s, i)
    decreases |s| - i
  {
    if i < |s| {
      KeepNumericFromLower(s, i + 1);
      NumericCaseless(s[i]);
      assert ToLower(s)[i] == LowerChar(s[i]);
    }
  }

  /** Lower-casing keeps a numeric character and makes no other one numeric. */
  lemma NumericCaseless(c: char)
    ensures IsNumericChar(LowerChar(c)) <==> IsNumericChar(c)
    ensures IsNumericChar(c) ==> LowerChar(c) == c
  {
  }

  /** Lower-casing first changes no character the cleaning keeps. */
  lemma KeepNumericIgnoresCase(s: string)
    ensures KeepNumeric(ToLower(s)) == KeepNumeric(s)
  {
    KeepNumericFromLower(s, 0);
  }

  /** The magnitude the lower-cased text announces: "bi" (bilhões) wins over
      "mi" (milhões). */
  function Multiplier(lower: string): (m: real)
    ensures m == 1000000000.0 <==> Contains(lower, "bi")
    ensures m == 1000000.0 <==> !Contains(lower, "bi") && Contains(lower, "mi")
    ensures m == 1.0 <==> !Contains(lower, "bi") && !Contains(lower, "mi")
  {
    if Contains(lower, "bi") then 1000000000.0
    else if Contains(lower, "mi") then 1000000.0
    else 1.0
  }

  /** No two '.' in `s`. */
  predicate AtMostOneDot(s: string) {
    forall a, b :: 0 <= a < b < |s| ==> s[a] != '.' || s[b] != '.'
  }

  /** Counting one character is blind to deleting another. */
  lemma {:induction false} CountCharRemoveFrom(s: string, c: char, d: char, i: nat)
    requires i <= |s| && c != d
    ensures CountChar(RemoveFrom(s, c, i), d, 0) == CountChar(s, d, i)
    decreases |s| - i
  {
    if i < |s| {
      CountCharRemoveFrom(s, c, d, i + 1);
      if s[i] != c {
        var t := RemoveFrom(s, c, i + 1);
        CountCharShift([s[i]], t, d, 0);
        assert [s[i]] + t == RemoveFrom(s, c, i);
      }
    }
  }

  lemma {:induction false} CountCharShift(p: string, t: string, d: char, j: nat)
    requires j <= |t|
    ensures CountChar(p + t, d, |p| + j) == CountChar(t, d, j)
    decreases |t| - j
  {
    if j < |t| {
      CountCharShift(p, t, d, j + 1);
      assert (p + t)[|p| + j] == t[j];
    }
  }

  lemma CountCharFirst(x: char, t: string, d: char)
    ensures CountChar([x] + t, d, 0) == (if x == d then 1 else 0) + CountChar([x] + t, d, 1)
  {
  }

  /** Replacing the first ',' of a dot-free string by '.' leaves at most one '.'. */
  lemma ReplaceCommaInDotFree(t: string)
    requires '.' !in t
    ensures AtMostOneDot(ReplaceFirst(t, ',', '.'))
  {
    var r := ReplaceFirst(t, ',', '.');
    match IndexOfChar(t, ',', 0)
    case None =>
    case Some(p) =>
      forall a, b | 0 <= a < b < |r|
        ensures r[a] != '.' || r[b] != '.'
      {
        if a != p {
          assert r[a] == t[a];
        } else {
          assert r[b] == t[b];
        }
      }
  }

  /** The separator rules of lines 58-75: thousands separators are dropped
      and the decimal separator becomes '.'. */
  function NormaliseSeparators(s: string): (r: string)
    ensures AtMostOneDot(r)
    ensures (forall x :: x in s ==> IsNumericChar(x)) ==> forall x :: x in r ==> IsNumericChar(x)
  {
    if CountChar(s, '.', 0) > 1 then
      var t := RemoveAll(s, '.');
      ReplaceCommaInDotFree(t);
      ReplaceFirst(t, ',', '.')
    else if Contains(s, ",") && Contains(s, ".") then
      if IndexOf(s, ".", 0).value < IndexOf(s, ",", 0).value then
        var t := RemoveAll(s, '.');
        ReplaceCommaInDotFree(t);
        ReplaceFirst(t, ',', '.')
      else
        var t := RemoveAll(s, ',');
        CountCharRemoveFrom(s, ',', '.', 0);
        t
    else if Contains(s, ",") then
      assert !Contains(s, ".");
      AbsentWhenNotContained(s, '.');
      ReplaceCommaInDotFree(s);
      ReplaceFirst(s, ',', '.')
    else
      s
  }

  // ---------------------------------------------------------------------
  // parseFloat on the cleaned text
  // ---------------------------------------------------------------------

  /** An unsigned decimal literal as `parseFloat` accepts it once exponents,
      "Infinity" and white space are out of the picture (the cleaning removed
      every letter and space): digits and at most one '.', with a digit
      somewhere ("5.", ".5" and "5" all qualify; "." does not). */
  ghost predicate IsUnsignedLiteral(u: string) {
    && (forall k :: 0 <= k < |u| ==> IsDigit(u[k]) || u[k] == '.')
    && AtMostOneDot(u)
    && (exists k :: 0 <= k < |u| && IsDigit(u[k]))
  }

  /** An optional '-' followed by an unsigned literal. */
  ghost predicate IsLiteral(p: string) {
    if 0 < |p| && p[0] == '-' then IsUnsignedLiteral(p[1..]) else IsUnsignedLiteral(p)
  }

  lemma DigitsOfUnsignedLiteral(u: string)
    requires IsUnsignedLiteral(u)
    ensures AllDigits(RemoveAll(u, '.'))
  {
    var r := RemoveAll(u, '.');
    forall k | 0 <= k < |r|
      ensures IsDigit(r[k])
    {
      assert r[k] in r;
      assert r[k] in u;
    }
  }

  /** Decimal notation: the digits read as one integer, scaled down by ten to
      the number of digits after the point. */
  ghost function UnsignedValue(u: string): real
    requires IsUnsignedLiteral(u)
  {
    DigitsOfUnsignedLiteral(u);
    var fraction: nat := match IndexOfChar(u, '.', 0)
      case None => 0
      case Some(p) => |u| - p - 1;
    NatValue(RemoveAll(u, '.')) as real / Pow10(fraction) as real
  }

  ghost function LiteralValue(p: string): real
    requires IsLiteral(p)
  {
    if 0 < |p| && p[0] == '-' then -UnsignedValue(p[1..]) else UnsignedValue(p)
  }

  /** Where a scan stopped and what it read. */
  datatype Scan = Scan(length: nat, value: real)

  /** The number of digits in the run that starts at `i`. */
  function LeadingDigits(s: string, i: nat): (n: nat)
    requires i <= |s|
    ensures i + n <= |s|
    ensures forall k :: i <= k < i + n ==> IsDigit(s[k])
    ensures i + n == |s| || !IsDigit(s[i + n])
    decreases |s| - i
  {
    if i == |s| || !IsDigit(s[i]) then 0 else 1 + LeadingDigits(s, i + 1)
  }

  function Signed(negative: bool, v: real): real {
    if negative then -v else v
  }

  /** `parseFloat` on a string of digits, ',', '.' and '-': an optional '-',
      the integer digits, then '.' and the fraction digits. */
  function ScanFloat(s: string): Option<Scan> {
    var sign := if 0 < |s| && s[0] == '-' then 1 else 0;
    var n := LeadingDigits(s, sign);
    var dot := sign + n;
    if dot < |s| && s[dot] == '.' then
      var m := LeadingDigits(s, dot + 1);
      if n + m == 0 then None
      else
        var whole := NatValueRange(s, sign, dot) as real;
        var fraction := NatValueRange(s, dot + 1, dot + 1 + m) as real / Pow10(m) as real;
        Some(Scan(dot + 1 + m, Signed(sign == 1, whole + fraction)))
    else if n == 0 then None
    else Some(Scan(dot, Signed(sign == 1, NatValueRange(s, sign, dot) as real)))
  }

  /** A character that is neither digit nor '.' rules out an unsigned literal. */
  lemma BadCharBreaksLiteral(u: string, j: nat)
    requires j < |u| && !IsDigit(u[j]) && u[j] != '.'
    ensures !IsUnsignedLiteral(u)
  {
  }

  lemma SecondDotBreaksLiteral(u: string, i: nat, j: nat)
    requires i < j < |u| && u[i] == '.' && u[j] == '.'
    ensures !IsUnsignedLiteral(u)
  {
  }

  /** `(A * P + B) / P` splits into whole and fraction. */
  lemma SplitFraction(v: real, total: nat, a: nat, b: nat, p: nat)
    requires p >= 1 && total == a * p + b && v == total as real / p as real
    ensures v == a as real + b as real / p as real
  {
    assert total as real == a as real * p as real + b as real;
  }

  /** `digits '.' digits` with a digit on some side is a literal whose value
      is the whole part plus the fraction part over ten to its length. */
  lemma UnsignedValueWithDot(u: string, n: nat, whole: nat, fraction: nat, m: nat)
    requires n < |u| && u[n] == '.' && |u| > 1
    requires forall k :: 0 <= k < |u| && k != n ==> IsDigit(u[k])
    requires m == |u| - n - 1
    requires AllDigits(u[..n]) && whole == NatValue(u[..n])
    requires AllDigits(u[n + 1..]) && fraction == NatValue(u[n + 1..])
    ensures IsUnsignedLiteral(u)
    ensures UnsignedValue(u) == whole as real + fraction as real / Pow10(m) as real
  {
    OneDotIsLiteral(u, n);
    RemoveDotAt(u, n);
    UnsignedValueAtDot(u, n);
    NatValueAppend(u[..n], u[n + 1..]);
    SplitFraction(UnsignedValue(u), NatValue(u[..n] + u[n + 1..]), whole, fraction, Pow10(m));
  }

  /** Digits around a single '.' form a literal whose first '.' is that one. */
  lemma OneDotIsLiteral(u: string, n: nat)
    requires n < |u| && u[n] == '.' && |u| > 1
    requires forall k :: 0 <= k < |u| && k != n ==> IsDigit(u[k])
    ensures AllDigits(u[..n]) && AllDigits(u[n + 1..])
    ensures IsUnsignedLiteral(u)
    ensures IndexOfChar(u, '.', 0) == Some(n)
  {
    assert IsDigit(u[if n > 0 then 0 else n + 1]);
  }

  /** The value of a literal whose '.' sits at `n`. */
  lemma UnsignedValueAtDot(u: string, n: nat)
    requires IsUnsignedLiteral(u) && IndexOfChar(u, '.', 0) == Some(n)
    ensures AllDigits(RemoveAll(u, '.'))
    ensures UnsignedValue(u) == NatValue(RemoveAll(u, '.')) as real / Pow10(|u| - n - 1) as real
  {
    DigitsOfUnsignedLiteral(u);
  }

  /** Deleting the only '.' of `u` joins the two sides. */
  lemma RemoveDotAt(u: string, n: nat)
    requires n < |u| && u[n] == '.'
    requires forall k :: 0 <= k < |u| && k != n ==> u[k] != '.'
    ensures RemoveAll(u, '.') == u[..n] + u[n + 1..]
  {
    RemoveFromSkip(u, '.', 0, n);
    RemoveFromSkip(u, '.', n + 1, |u|);
    assert u[n + 1..|u|] == u[n + 1..];
  }

  /** A non-empty run of digits is a literal worth the number it spells. */
  lemma UnsignedValueNoDot(u: string)
    requires |u| > 0 && AllDigits(u)
    ensures IsUnsignedLiteral(u)
    ensures UnsignedValue(u) == NatValue(u) as real
  {
    assert IsDigit(u[0]);
    RemoveFromSkip(u, '.', 0, |u|);
    assert RemoveAll(u, '.') == u;
    assert IndexOfChar(u, '.', 0) == None;
  }

  /** What the scan reads is the value of the literal it consumed. */
  lemma {:induction false} ScanFloatSound(s: string)
    requires ScanFloat(s).Some?
    ensures ScanFloat(s).value.length <= |s|
    ensures IsLiteral(s[..ScanFloat(s).value.length])
    ensures ScanFloat(s).value.value == LiteralValue(s[..ScanFloat(s).value.length])
  {
    var sign := if 0 < |s| && s[0] == '-' then 1 else 0;
    var dot := sign + LeadingDigits(s, sign);
    if dot < |s| && s[dot] == '.' {
      ScanDotBranch(s, sign, dot);
    } else {
      ScanSoundWhole(s, sign, dot);
    }
  }

  /** The scan through a '.' reads a literal. */
  lemma ScanDotBranch(s: string, sign: nat, dot: nat)
    requires ScanFloat(s).Some?
    requires sign == (if 0 < |s| && s[0] == '-' then 1 else 0)
    requires dot == sign + LeadingDigits(s, sign) && dot < |s| && s[dot] == '.'
    ensures var sc := ScanFloat(s).value;
            sc.length <= |s| && IsLiteral(s[..sc.length]) && sc.value == LiteralValue(s[..sc.length])
  {
    var m := LeadingDigits(s, dot + 1);
    ScanDotHasDigits(s, sign, dot);
    var x := NatValueRange(s, sign, dot) as real + NatValueRange(s, dot + 1, dot + 1 + m) as real / Pow10(m) as real;
    ScanSoundWithDot(s, sign, dot, m, x);
    ScanMeetsLiteral(s, dot + 1 + m, sign == 1, x);
  }

  /** A scan that meets a '.' and succeeds has read a digit on one side of it. */
  lemma ScanDotHasDigits(s: string, sign: nat, dot: nat)
    requires ScanFloat(s).Some?
    requires sign == (if 0 < |s| && s[0] == '-' then 1 else 0)
    requires dot == sign + LeadingDigits(s, sign) && dot < |s| && s[dot] == '.'
    ensures dot - sign + LeadingDigits(s, dot + 1) > 0
  {
  }

  /** The dot scan, spelled out with its pieces given. */
  lemma ScanSoundWithDot(s: string, sign: nat, dot: nat, m: nat, x: real)
    requires sign == (if 0 < |s| && s[0] == '-' then 1 else 0)
    requires dot == sign + LeadingDigits(s, sign) && dot < |s| && s[dot] == '.'
    requires m == LeadingDigits(s, dot + 1) && dot - sign + m > 0
    requires x == NatValueRange(s, sign, dot) as real + NatValueRange(s, dot + 1, dot + 1 + m) as real / Pow10(m) as real
    ensures ScanFloat(s) == Some(Scan(dot + 1 + m, Signed(sign == 1, x)))
    ensures IsLiteral(s[..dot + 1 + m]) && LiteralValue(s[..dot + 1 + m]) == Signed(sign == 1, x)
  {
    ScanWithDotReads(s, sign, dot, m, x);
    DigitsAroundDot(s, sign, dot, m, x);
    SignedLiteral(s, sign, dot + 1 + m);
  }

  /** The characters the scan through a '.' consumed, after the sign, form
      an unsigned literal worth what the scan computed. */
  lemma DigitsAroundDot(s: string, sign: nat, dot: nat, m: nat, x: real)
    requires sign <= dot < |s| && s[dot] == '.'
    requires dot == sign + LeadingDigits(s, sign) && m == LeadingDigits(s, dot + 1) && dot - sign + m > 0
    requires x == NatValueRange(s, sign, dot) as real + NatValueRange(s, dot + 1, dot + 1 + m) as real / Pow10(m) as real
    ensures IsUnsignedLiteral(s[sign..dot + 1 + m]) && UnsignedValue(s[sign..dot + 1 + m]) == x
  {
    DigitsAroundDotRun(s, sign, dot, m);
    SliceLiteral(s, sign, dot, dot + 1 + m, m, x);
  }

  /** A run of digits, a '.', and a run of digits is a literal worth the
      whole part plus the fraction. */
  lemma SliceLiteral(s: string, sign: nat, dot: nat, len: nat, m: nat, x: real)
    requires sign <= dot < len <= |s| && s[dot] == '.' && len == dot + 1 + m && len - sign > 1
    requires forall k :: sign <= k < len && k != dot ==> IsDigit(s[k])
    requires x == NatValueRange(s, sign, dot) as real + NatValueRange(s, dot + 1, len) as real / Pow10(m) as real
    ensures IsUnsignedLiteral(s[sign..len]) && UnsignedValue(s[sign..len]) == x
  {
    var whole, fraction := NatValueRange(s, sign, dot), NatValueRange(s, dot + 1, len);
    var u := s[sign..len];
    PiecesAroundDot(s, sign, dot, len, u, whole, fraction);
    DotLiteralValue(u, dot - sign, whole, fraction, m, x);
  }

  /** The digit runs on both sides of the '.' leave only the '.' undigited. */
  lemma DigitsAroundDotRun(s: string, sign: nat, dot: nat, m: nat)
    requires sign <= dot < |s| && s[dot] == '.'
    requires dot == sign + LeadingDigits(s, sign) && m == LeadingDigits(s, dot + 1)
    ensures dot + 1 + m <= |s|
    ensures forall k :: sign <= k < dot + 1 + m && k != dot ==> IsDigit(s[k])
  {
  }

  /** `UnsignedValueWithDot` with its facts about the pieces bundled. */
  lemma DotLiteralValue(u: string, n: nat, whole: nat, fraction: nat, m: nat, x: real)
    requires n < |u| && u[n] == '.' && m == |u| - n - 1 && |u| > 1
    requires (forall k :: 0 <= k < |u| && k != n ==> IsDigit(u[k]))
    requires AllDigits(u[..n]) && NatValue(u[..n]) == whole
    requires AllDigits(u[n + 1..]) && NatValue(u[n + 1..]) == fraction
    requires x == whole as real + fraction as real / Pow10(m) as real
    ensures IsUnsignedLiteral(u) && UnsignedValue(u) == x
  {
    UnsignedValueWithDot(u, n, whole, fraction, m);
  }

  /** The digits before and after the '.' of `s[sign..len]`, as pieces of it. */
  lemma PiecesAroundDot(s: string, sign: nat, dot: nat, len: nat, u: string, whole: nat, fraction: nat)
    requires sign <= dot < len <= |s| && s[dot] == '.'
    requires forall k :: sign <= k < len && k != dot ==> IsDigit(s[k])
    requires u == s[sign..len] && whole == NatValueRange(s, sign, dot) && fraction == NatValueRange(s, dot + 1, len)
    ensures u[dot - sign] == '.'
    ensures forall k :: 0 <= k < |u| && k != dot - sign ==> IsDigit(u[k])
    ensures AllDigits(u[..dot - sign]) && NatValue(u[..dot - sign]) == whole
    ensures AllDigits(u[dot - sign + 1..]) && NatValue(u[dot - sign + 1..]) == fraction
  {
    var n := dot - sign;
    NatValueRangeSlice(s, sign, dot);
    assert u[..n] == s[sign..dot];
    NatValueRangeSlice(s, dot + 1, len);
    assert u[n + 1..] == s[dot + 1..len];
  }

  /** A scan result that matches the value of a literal prefix. */
  lemma ScanMeetsLiteral(s: string, len: nat, negative: bool, x: real)
    requires ScanFloat(s) == Some(Scan(len, Signed(negative, x)))
    requires len <= |s| && IsLiteral(s[..len]) && LiteralValue(s[..len]) == Signed(negative, x)
    ensures var sc := ScanFloat(s).value;
            sc.length <= |s| && IsLiteral(s[..sc.length]) && sc.value == LiteralValue(s[..sc.length])
  {
  }

  /** What the scan through a '.' returns, spelled out. */
  lemma ScanWithDotReads(s: string, sign: nat, dot: nat, m: nat, x: real)
    requires sign == (if 0 < |s| && s[0] == '-' then 1 else 0)
    requires dot == sign + LeadingDigits(s, sign) && dot < |s| && s[dot] == '.'
    requires m == LeadingDigits(s, dot + 1) && dot - sign + m > 0
    requires x == NatValueRange(s, sign, dot) as real + NatValueRange(s, dot + 1, dot + 1 + m) as real / Pow10(m) as real
    ensures ScanFloat(s) == Some(Scan(dot + 1 + m, Signed(sign == 1, x)))
  {
  }

  /** The scan that meets no '.' reads a literal. */
  lemma ScanSoundWhole(s: string, sign: nat, dot: nat)
    requires ScanFloat(s).Some?
    requires sign == (if 0 < |s| && s[0] == '-' then 1 else 0)
    requires dot == sign + LeadingDigits(s, sign) && !(dot < |s| && s[dot] == '.')
    ensures ScanFloat(s).value.length <= |s|
    ensures IsLiteral(s[..ScanFloat(s).value.length])
    ensures ScanFloat(s).value.value == LiteralValue(s[..ScanFloat(s).value.length])
  {
    assert ScanFloat(s).value.length == dot;
    var u := s[sign..dot];
    NatValueRangeSlice(s, sign, dot);
    UnsignedValueNoDot(u);
    SignedLiteral(s, sign, dot);
  }

  /** An unsigned literal after the optional sign makes the prefix a literal
      worth the signed value. */
  lemma SignedLiteral(s: string, sign: nat, len: nat)
    requires sign == (if 0 < |s| && s[0] == '-' then 1 else 0) && sign <= len <= |s|
    requires IsUnsignedLiteral(s[sign..len])
    ensures IsLiteral(s[..len])
    ensures LiteralValue(s[..len]) == Signed(sign == 1, UnsignedValue(s[sign..len]))
  {
    var p, u := s[..len], s[sign..len];
    assert 0 < |p| && p[0] == '-' <==> sign == 1;
    assert sign == 1 ==> p[1..] == u;
    assert sign == 0 ==> p == u;
  }

  /** No longer prefix than the one the scan consumed is a literal. */
  lemma {:induction false} ScanFloatLongest(s: string, k: nat)
    requires ScanFloat(s).Some?
    requires ScanFloat(s).value.length < k <= |s|
    ensures !IsLiteral(s[..k])
  {
    var sign := if 0 < |s| && s[0] == '-' then 1 else 0;
    var n := LeadingDigits(s, sign);
    var dot := sign + n;
    var len := ScanFloat(s).value.length;
    var q := s[..k];
    var u := s[sign..k];
    assert sign == 1 ==> q[1..] == u;
    assert sign == 0 ==> q == u;
    assert 0 < |q| && q[0] == '-' <==> sign == 1;
    assert u[len - sign] == s[len];
    if dot < |s| && s[dot] == '.' {
      assert !IsDigit(s[len]);
      if s[len] == '.' {
        assert u[n] == '.';
        SecondDotBreaksLiteral(u, n, len - sign);
      } else {
        BadCharBreaksLiteral(u, len - sign);
      }
    } else {
      BadCharBreaksLiteral(u, len - sign);
    }
  }

  /** When the scan finds nothing, no prefix at all is a literal. */
  lemma {:induction false} ScanFloatNone(s: string, k: nat)
    requires ScanFloat(s).None?
    requires k <= |s|
    ensures !IsLiteral(s[..k])
  {
    var sign := if 0 < |s| && s[0] == '-' then 1 else 0;
    var q := s[..k];
    if k < sign {
      assert q == [];
    } else {
      var u := s[sign..k];
      assert sign == 1 ==> q[1..] == u;
      assert sign == 0 ==> q == u;
      assert 0 < |q| && q[0] == '-' <==> sign == 1;
      if |u| > 0 {
        assert u[0] == s[sign];
        assert !IsDigit(u[0]);
        if u[0] == '.' {
          if |u| > 1 {
            assert u[1] == s[sign + 1];
            assert !IsDigit(u[1]);
            if u[1] == '.' {
              SecondDotBreaksLiteral(u, 0, 1);
            } else {
              BadCharBreaksLiteral(u, 1);
            }
          } else {
            assert forall j :: 0 <= j < |u| ==> !IsDigit(u[j]);
          }
        } else {
          BadCharBreaksLiteral(u, 0);
        }
      }
    }
  }

  /** `parseFloat(s) || 0`: the value of the longest literal prefix, or 0. */
  function ParseFloatOrZero(s: string): real {
    match ScanFloat(s)
    case None => 0.0
    case Some(sc) => sc.value
  }

  /** The text `parseFloat` finally sees. */
  function Normalised(text: string): (r: string)
    ensures forall x :: x in r ==> IsNumericChar(x)
    ensures AtMostOneDot(r)
    ensures r == NormaliseSeparators(KeepNumeric(text))
  {
    KeepNumericIgnoresCase(text);
    NormaliseSeparators(KeepNumeric(ToLower(text)))
  }

  /** The text branch of `parseFinancialNumber`: empty text is falsy and
      reads as 0; anything else is normalised, parsed and scaled. */
  function ParseFinancialText(s: string): (r: real)
    ensures s == "" ==> r == 0.0
    ensures ScanFloat(Normalised(s)).None? ==> r == 0.0
  {
    if s == "" then 0.0
    else
      var v := ParseFloatOrZero(Normalised(s));
      var lower := ToLower(s);
      if Contains(lower, "bi") then v * 1000000000.0
      else if Contains(lower, "mi") then v * 1000000.0
      else v
  }

  /** `parseFinancialNumber(val)` of services/geminiService.ts. */
  function ParseFinancialNumber(raw: RawValue): (r: real)
    ensures raw.Num? ==> r == raw.n
    ensures raw.Absent? ==> r == 0.0
  {
    match raw
    case Num(n) => n
    case Absent => 0.0
    case Str(s) => ParseFinancialText(s)
  }

  /** `parseFloat(t) || 0` is the value of the longest literal prefix of `t`,
      or 0 when no prefix of `t` is a literal. */
  lemma ParseFloatIsLongestLiteral(t: string)
    ensures ScanFloat(t).None? ==>
              ParseFloatOrZero(t) == 0.0 && forall k :: 0 <= k <= |t| ==> !IsLiteral(t[..k])
    ensures ScanFloat(t).Some? ==>
              var len := ScanFloat(t).value.length;
              && len <= |t|
              && IsLiteral(t[..len])
              && ParseFloatOrZero(t) == LiteralValue(t[..len])
              && forall k :: len < k <= |t| ==> !IsLiteral(t[..k])
  {
    if ScanFloat(t).None? {
      forall k | 0 <= k <= |t| ensures !IsLiteral(t[..k]) {
        ScanFloatNone(t, k);
      }
    } else {
      ScanFloatSound(t);
      forall k | ScanFloat(t).value.length < k <= |t| ensures !IsLiteral(t[..k]) {
        ScanFloatLongest(t, k);
      }
    }
  }

  /** A non-empty text is worth the value of the longest literal prefix of
      its normalised form, scaled by the magnitude its words announce; when
      no prefix is a literal it is worth 0. */
  lemma ParseFinancialTextSpec(s: string)
    requires s != ""
    ensures var t := Normalised(s);
            ScanFloat(t).None? ==>
              ParseFinancialText(s) == 0.0 && forall k :: 0 <= k <= |t| ==> !IsLiteral(t[..k])
    ensures var t := Normalised(s);
            ScanFloat(t).Some? ==>
              var len := ScanFloat(t).value.length;
              && len <= |t|
              && IsLiteral(t[..len])
              && (forall k :: len < k <= |t| ==> !IsLiteral(t[..k]))
              && ParseFinancialText(s) == LiteralValue(t[..len]) * Multiplier(ToLower(s))
  {
    ParseFloatIsLongestLiteral(Normalised(s));
  }

  // ---------------------------------------------------------------------
  // Worked examples, one pipeline stage at a time
  // ---------------------------------------------------------------------

  /** Chains the stages of the text branch. */
  lemma ParseFinancialTextStages(s: string, lower: string, kept: string, norm: string, v: real)
    requires s != "" && ToLower(s) == lower && KeepNumeric(lower) == kept
    requires NormaliseSeparators(kept) == norm && ParseFloatOrZero(norm) == v
    ensures ParseFinancialText(s) == v * Multiplier(lower)
  {
  }

  /** The four ways through the separator rules, each from the facts that
      select it. */
  lemma SeparatorsManyDots(s: string, t: string, r: string)
    requires CountChar(s, '.', 0) > 1 && RemoveAll(s, '.') == t && ReplaceFirst(t, ',', '.') == r
    ensures NormaliseSeparators(s) == r
  {
  }

  lemma SeparatorsDotFirst(s: string, p: nat, q: nat, t: string, r: string)
    requires CountChar(s, '.', 0) <= 1
    requires IndexOf(s, ".", 0) == Some(p) && IndexOf(s, ",", 0) == Some(q) && p < q
    requires RemoveAll(s, '.') == t && ReplaceFirst(t, ',', '.') == r
    ensures NormaliseSeparators(s) == r
  {
  }

  lemma SeparatorsCommaFirst(s: string, p: nat, q: nat, t: string)
    requires CountChar(s, '.', 0) <= 1
    requires IndexOf(s, ".", 0) == Some(p) && IndexOf(s, ",", 0) == Some(q) && q < p
    requires RemoveAll(s, ',') == t
    ensures NormaliseSeparators(s) == t
  {
  }

  lemma SeparatorsCommaOnly(s: string, r: string)
    requires CountChar(s, '.', 0) <= 1 && IndexOf(s, ".", 0).None? && IndexOf(s, ",", 0).Some?
    requires ReplaceFirst(s, ',', '.') == r
    ensures NormaliseSeparators(s) == r
  {
  }

  lemma SeparatorsNone(s: string)
    requires CountChar(s, '.', 0) <= 1 && IndexOf(s, ",", 0).None?
    ensures NormaliseSeparators(s) == s
  {
  }

  // ---------------------------------------------------------------------
  // Grouped amounts in either spelling
  // ---------------------------------------------------------------------

  /** Digit groups run together. */
  function Concat(gs: seq<string>): string {
    if gs == [] then [] else Concat(gs[..|gs| - 1]) + gs[|gs| - 1]
  }

  /** Digit groups written with `sep` between neighbours: ["1", "234"] and
      '.' give "1.234". */
  function JoinGroups(gs: seq<string>, sep: char): string {
    if |gs| <= 1 then Concat(gs)
    else JoinGroups(gs[..|gs| - 1], sep) + [sep] + gs[|gs| - 1]
  }

  predicate DigitGroups(gs: seq<string>) {
    forall i :: 0 <= i < |gs| ==> AllDigits(gs[i])
  }

  lemma {:induction false} ConcatDigits(gs: seq<string>)
    requires DigitGroups(gs)
    ensures AllDigits(Concat(gs))
  {
    if gs != [] {
      ConcatDigits(gs[..|gs| - 1]);
    }
  }

  /** A joined amount holds only digits and the separator, and deleting the
      separator leaves the groups run together. */
  lemma {:induction false} JoinGroupsChars(gs: seq<string>, sep: char)
    requires DigitGroups(gs) && !IsDigit(sep)
    ensures forall k :: 0 <= k < |JoinGroups(gs, sep)| ==>
              JoinGroups(gs, sep)[k] == sep || IsDigit(JoinGroups(gs, sep)[k])
    ensures RemoveAll(JoinGroups(gs, sep), sep) == Concat(gs)
  {
    if |gs| == 1 {
      assert gs[..0] == [];
      assert JoinGroups(gs, sep) == Concat(gs) == gs[0];
      RemoveAllAbsent(gs[0], sep);
    } else if |gs| > 1 {
      var init, g := gs[..|gs| - 1], gs[|gs| - 1];
      JoinGroupsChars(init, sep);
      var j := JoinGroups(init, sep);
      RemoveAllAppend(j + [sep], g, sep);
      RemoveAllAppend(j, [sep], sep);
      RemoveAllAbsent(g, sep);
    }
  }

  /** Deleting the grouping separator from a joined amount followed by the
      decimal separator and the decimals. */
  lemma DropGrouping(gs: seq<string>, sep: char, dec: char, f: string)
    requires DigitGroups(gs) && AllDigits(f) && !IsDigit(sep) && sep != dec
    ensures RemoveAll(JoinGroups(gs, sep) + [dec] + f, sep) == Concat(gs) + [dec] + f
  {
    var j := JoinGroups(gs, sep);
    JoinGroupsChars(gs, sep);
    RemoveAllAppend(j + [dec], f, sep);
    RemoveAllAppend(j, [dec], sep);
    RemoveAllAbsent([dec], sep);
    RemoveAllAbsent(f, sep);
  }

  /** An amount written the Brazilian way, "1.234.567,89": digit groups
      joined by '.', then ',' and the decimals. However many groups there
      are, the separator rules give the groups run together, '.', the
      decimals. */
  lemma BrazilianGrouping(gs: seq<string>, f: string)
    requires DigitGroups(gs) && AllDigits(f)
    ensures NormaliseSeparators(JoinGroups(gs, '.') + "," + f) == Concat(gs) + "." + f
  {
    var j, c := JoinGroups(gs, '.'), Concat(gs);
    var s, t, r := j + "," + f, c + "," + f, c + "." + f;
    ConcatDigits(gs);
    DropGrouping(gs, '.', ',', f);
    DecimalComma(c, f);
    CommaAfterGroups(gs, f);
    if CountChar(s, '.', 0) > 1 {
      SeparatorsManyDots(s, t, r);
    } else if Contains(s, ".") {
      SeparatorsDotFirst(s, IndexOf(s, ".", 0).value, |j|, t, r);
    } else {
      AbsentWhenNotContained(s, '.');
      RemoveAllAbsent(s, '.');
      SeparatorsCommaOnly(s, r);
    }
  }

  /** In a dot-free amount the decimal ',' becomes '.'. */
  lemma DecimalComma(c: string, f: string)
    requires AllDigits(c) && AllDigits(f)
    ensures ReplaceFirst(c + "," + f, ',', '.') == c + "." + f
  {
    FirstCharAt(c + "," + f, ',', |c|);
    ReplaceFirstMatches(c + "," + f, ',', '.', |c|, c + "." + f);
  }

  /** In the Brazilian spelling the first ',' follows the groups, and so
      does every '.'. */
  lemma CommaAfterGroups(gs: seq<string>, f: string)
    requires DigitGroups(gs) && AllDigits(f)
    ensures IndexOf(JoinGroups(gs, '.') + "," + f, ",", 0) == Some(|JoinGroups(gs, '.')|)
    ensures Contains(JoinGroups(gs, '.') + "," + f, ".") ==>
              IndexOf(JoinGroups(gs, '.') + "," + f, ".", 0).value < |JoinGroups(gs, '.')|
  {
    var j := JoinGroups(gs, '.');
    var s := j + "," + f;
    JoinGroupsChars(gs, '.');
    FirstCharAt(s, ',', |j|);
    if Contains(s, ".") {
      OccursChar(s, '.', IndexOf(s, ".", 0).value);
    }
  }

  lemma {:induction false} CountCharAtMostOne(s: string, c: char, p: nat, i: nat)
    requires i <= |s|
    requires forall k :: i <= k < |s| && k != p ==> s[k] != c
    ensures CountChar(s, c, i) <= 1
    decreases |s| - i
  {
    if i < |s| {
      CountCharAtMostOne(s, c, p, i + 1);
    }
  }

  /** The same amount written the US way, "1,234,567.89": groups joined by
      ',', then '.' and the decimals, normalises to the same text. */
  lemma AmericanGrouping(gs: seq<string>, f: string)
    requires DigitGroups(gs) && AllDigits(f)
    ensures NormaliseSeparators(JoinGroups(gs, ',') + "." + f) == Concat(gs) + "." + f
  {
    var j, c := JoinGroups(gs, ','), Concat(gs);
    var s := j + "." + f;
    DropGrouping(gs, ',', '.', f);
    DotAfterGroups(gs, f);
    if Contains(s, ",") {
      SeparatorsCommaFirst(s, |j|, IndexOf(s, ",", 0).value, c + "." + f);
    } else {
      AbsentWhenNotContained(s, ',');
      RemoveAllAbsent(s, ',');
      SeparatorsNone(s);
    }
  }

  /** In the US spelling the one '.' follows the groups, and so does every
      ','. */
  lemma DotAfterGroups(gs: seq<string>, f: string)
    requires DigitGroups(gs) && AllDigits(f)
    ensures CountChar(JoinGroups(gs, ',') + "." + f, '.', 0) <= 1
    ensures IndexOf(JoinGroups(gs, ',') + "." + f, ".", 0) == Some(|JoinGroups(gs, ',')|)
    ensures Contains(JoinGroups(gs, ',') + "." + f, ",") ==>
              IndexOf(JoinGroups(gs, ',') + "." + f, ",", 0).value < |JoinGroups(gs, ',')|
  {
    var j := JoinGroups(gs, ',');
    var s := j + "." + f;
    JoinGroupsChars(gs, ',');
    CountCharAtMostOne(s, '.', |j|, 0);
    FirstCharAt(s, '.', |j|);
    if Contains(s, ",") {
      OccursChar(s, ',', IndexOf(s, ",", 0).value);
    }
  }

  /** Brazilian and US spellings of one amount read the same. */
  lemma SpellingsAgree(gs: seq<string>, f: string)
    requires DigitGroups(gs) && AllDigits(f)
    ensures NormaliseSeparators(JoinGroups(gs, '.') + "," + f)
         == NormaliseSeparators(JoinGroups(gs, ',') + "." + f)
  {
    BrazilianGrouping(gs, f);
    AmericanGrouping(gs, f);
  }

  /** Reading `digits '.' digits` from the facts about its two runs. */
  lemma ScanDecimal(s: string, n: nat, m: nat, whole: nat, fraction: nat)
    requires 0 < |s| && IsDigit(s[0])
    requires LeadingDigits(s, 0) == n && n < |s| && s[n] == '.' && LeadingDigits(s, n + 1) == m
    requires NatValueRange(s, 0, n) == whole && NatValueRange(s, n + 1, n + 1 + m) == fraction
    ensures ParseFloatOrZero(s) == whole as real + fraction as real / Pow10(m) as real
  {
  }

  /** Reading a run of digits not followed by '.'. */
  lemma ScanWhole(s: string, n: nat, whole: nat)
    requires 0 < |s| && IsDigit(s[0])
    requires LeadingDigits(s, 0) == n && (n == |s| || s[n] != '.')
    requires NatValueRange(s, 0, n) == whole
    ensures ParseFloatOrZero(s) == whole as real
  {
  }

  // Each lemma below checks one stage on one literal; the examples chain them.

  lemma BrazilianLower() ensures ToLower("R$ 1.234,56") == "r$ 1.234,56" {
    LowerMatches("R$ 1.234,56", "r$ 1.234,56");
  }
  lemma BrazilianKeep() ensures KeepNumeric("r$ 1.234,56") == "1.234,56" {}
  lemma BrazilianMultiplier() ensures Multiplier("r$ 1.234,56") == 1.0 {}
  lemma BrazilianDotCount() ensures CountChar("1.234,56", '.', 0) == 1 {}
  lemma BrazilianDotAt() ensures IndexOf("1.234,56", ".", 0) == Some(1) {}
  lemma BrazilianCommaAt() ensures IndexOf("1.234,56", ",", 0) == Some(5) {}
  lemma BrazilianDotsDropped() ensures RemoveAll("1.234,56", '.') == "1234,56" {}
  lemma BrazilianComma() ensures ReplaceFirst("1234,56", ',', '.') == "1234.56" {
    assert IndexOfChar("1234,56", ',', 0) == Some(4);
    ReplaceFirstMatches("1234,56", ',', '.', 4, "1234.56");
  }
  lemma BrazilianSeparators() ensures NormaliseSeparators("1.234,56") == "1234.56" {
    BrazilianDotCount(); BrazilianDotAt(); BrazilianCommaAt(); BrazilianDotsDropped(); BrazilianComma();
    SeparatorsDotFirst("1.234,56", 1, 5, "1234,56", "1234.56");
  }
  lemma CentsRuns() ensures LeadingDigits("1234.56", 0) == 4 && LeadingDigits("1234.56", 5) == 2 {}
  lemma CentsValues() ensures NatValueRange("1234.56", 0, 4) == 1234 && NatValueRange("1234.56", 5, 7) == 56 {}
  lemma CentsScan() ensures ParseFloatOrZero("1234.56") == 1234.56 {
    CentsRuns(); CentsValues();
    ScanDecimal("1234.56", 4, 2, 1234, 56);
  }

  /** Brazilian grouping: '.' for thousands, ',' for decimals. */
  lemma BrazilianExample()
    ensures ParseFinancialNumber(Str("R$ 1.234,56")) == 1234.56
  {
    BrazilianLower(); BrazilianKeep(); BrazilianSeparators(); CentsScan(); BrazilianMultiplier();
    ParseFinancialTextStages("R$ 1.234,56", "r$ 1.234,56", "1.234,56", "1234.56", 1234.56);
  }

  lemma AmericanLower() ensures ToLower("$1,234.56") == "$1,234.56" {
    LowerWithoutCapitals("$1,234.56");
  }
  lemma AmericanKeep() ensures KeepNumeric("$1,234.56") == "1,234.56" {
    assert "$1,234.56" == "$" + "1,234.56";
    KeepNumericAppend("$", "1,234.56");
    KeepNumericOne('$');
    KeepNumericFromFixed("1,234.56", 0);
  }
  lemma AmericanMultiplier() ensures Multiplier("$1,234.56") == 1.0 {}
  lemma AmericanDotCount() ensures CountChar("1,234.56", '.', 0) == 1 {}
  lemma AmericanDotAt() ensures IndexOf("1,234.56", ".", 0) == Some(5) {}
  lemma AmericanCommaAt() ensures IndexOf("1,234.56", ",", 0) == Some(1) {}
  lemma AmericanCommasDropped() ensures RemoveAll("1,234.56", ',') == "1234.56" {}
  lemma AmericanSeparators() ensures NormaliseSeparators("1,234.56") == "1234.56" {
    AmericanDotCount(); AmericanDotAt(); AmericanCommaAt(); AmericanCommasDropped();
    SeparatorsCommaFirst("1,234.56", 5, 1, "1234.56");
  }

  /** American grouping: ',' for thousands, '.' for decimals. */
  lemma AmericanExample()
    ensures ParseFinancialNumber(Str("$1,234.56")) == 1234.56
  {
    AmericanLower(); AmericanKeep(); AmericanSeparators(); CentsScan(); AmericanMultiplier();
    ParseFinancialTextStages("$1,234.56", "$1,234.56", "1,234.56", "1234.56", 1234.56);
  }

  lemma BillionsLower() ensures ToLower("35Bi") == "35bi" {
    LowerMatches("35Bi", "35bi");
  }
  lemma BillionsKeep() ensures KeepNumeric("35bi") == "35" {}
  lemma BillionsMultiplier() ensures Multiplier("35bi") == 1000000000.0 {}
  lemma BillionsSeparators() ensures NormaliseSeparators("35") == "35" {
    assert CountChar("35", '.', 0) == 0 && IndexOf("35", ",", 0).None?;
    SeparatorsNone("35");
  }
  lemma BillionsScan() ensures ParseFloatOrZero("35") == 35.0 {
    assert LeadingDigits("35", 0) == 2 && NatValueRange("35", 0, 2) == 35;
    ScanWhole("35", 2, 35);
  }

  /** "bi" scales by a billion. */
  lemma BillionsExample()
    ensures ParseFinancialNumber(Str("35Bi")) == 35000000000.0
  {
    BillionsLower(); BillionsKeep(); BillionsMultiplier(); BillionsSeparators(); BillionsScan();
    ParseFinancialTextStages("35Bi", "35bi", "35", "35", 35.0);
  }

  lemma LongBrazilianLower() ensures ToLower("1.234.567,89") == "1.234.567,89" {
    LowerWithoutCapitals("1.234.567,89");
  }
  lemma LongBrazilianKeep() ensures KeepNumeric("1.234.567,89") == "1.234.567,89" {
    KeepNumericFromFixed("1.234.567,89", 0);
  }
  lemma LongBrazilianMultiplier() ensures Multiplier("1.234.567,89") == 1.0 {}
  lemma LongBrazilianDotCount() ensures CountChar("1.234.567,89", '.', 0) == 2 {}
  lemma LongBrazilianDotsDropped() ensures RemoveAll("1.234.567,89", '.') == "1234567,89" {}
  lemma LongBrazilianComma() ensures ReplaceFirst("1234567,89", ',', '.') == "1234567.89" {
    assert IndexOfChar("1234567,89", ',', 0) == Some(7);
    ReplaceFirstMatches("1234567,89", ',', '.', 7, "1234567.89");
  }
  lemma LongBrazilianSeparators() ensures NormaliseSeparators("1.234.567,89") == "1234567.89" {
    LongBrazilianDotCount(); LongBrazilianDotsDropped(); LongBrazilianComma();
    SeparatorsManyDots("1.234.567,89", "1234567,89", "1234567.89");
  }
  lemma MillionCentsRuns() ensures LeadingDigits("1234567.89", 0) == 7 && LeadingDigits("1234567.89", 8) == 2 {}
  lemma MillionCentsValues()
    ensures NatValueRange("1234567.89", 0, 7) == 1234567 && NatValueRange("1234567.89", 8, 10) == 89
  {}
  lemma MillionCentsScan() ensures ParseFloatOrZero("1234567.89") == 1234567.89 {
    MillionCentsRuns(); MillionCentsValues();
    ScanDecimal("1234567.89", 7, 2, 1234567, 89);
  }

  /** Several '.' are all thousands separators. */
  lemma LongBrazilianExample()
    ensures ParseFinancialNumber(Str("1.234.567,89")) == 1234567.89
  {
    LongBrazilianLower(); LongBrazilianKeep(); LongBrazilianSeparators(); MillionCentsScan(); LongBrazilianMultiplier();
    ParseFinancialTextStages("1.234.567,89", "1.234.567,89", "1.234.567,89", "1234567.89", 1234567.89);
  }

  lemma LongAmericanLower() ensures ToLower("1,234,567.89") == "1,234,567.89" {
    LowerWithoutCapitals("1,234,567.89");
  }
  lemma LongAmericanKeep() ensures KeepNumeric("1,234,567.89") == "1,234,567.89" {
    KeepNumericFromFixed("1,234,567.89", 0);
  }
  lemma LongAmericanMultiplier() ensures Multiplier("1,234,567.89") == 1.0 {}
  lemma LongAmericanDotCount() ensures CountChar("1,234,567.89", '.', 0) == 1 {}
  lemma LongAmericanDotAt() ensures IndexOf("1,234,567.89", ".", 0) == Some(9) {}
  lemma LongAmericanCommaAt() ensures IndexOf("1,234,567.89", ",", 0) == Some(1) {}
  lemma LongAmericanCommasDropped() ensures RemoveAll("1,234,567.89", ',') == "1234567.89" {}
  lemma LongAmericanSeparators() ensures NormaliseSeparators("1,234,567.89") == "1234567.89" {
    LongAmericanDotCount(); LongAmericanDotAt(); LongAmericanCommaAt(); LongAmericanCommasDropped();
    SeparatorsCommaFirst("1,234,567.89", 9, 1, "1234567.89");
  }

  /** A '.' after the last ',' is the decimal point. */
  lemma LongAmericanExample()
    ensures ParseFinancialNumber(Str("1,234,567.89")) == 1234567.89
  {
    LongAmericanLower(); LongAmericanKeep(); LongAmericanSeparators(); MillionCentsScan(); LongAmericanMultiplier();
    ParseFinancialTextStages("1,234,567.89", "1,234,567.89", "1,234,567.89", "1234567.89", 1234567.89);
  }

  lemma LoneCommaLower() ensures ToLower("12,5") == "12,5" {
    LowerWithoutCapitals("12,5");
  }
  lemma LoneCommaKeep() ensures KeepNumeric("12,5") == "12,5" {}
  lemma LoneCommaMultiplier() ensures Multiplier("12,5") == 1.0 {}
  lemma LoneCommaFound() ensures CountChar("12,5", '.', 0) == 0 && IndexOf("12,5", ".", 0).None? && IndexOf("12,5", ",", 0).Some? {}
  lemma LoneCommaReplaced() ensures ReplaceFirst("12,5", ',', '.') == "12.5" {
    assert IndexOfChar("12,5", ',', 0) == Some(2);
    ReplaceFirstMatches("12,5", ',', '.', 2, "12.5");
  }
  lemma LoneCommaSeparators() ensures NormaliseSeparators("12,5") == "12.5" {
    LoneCommaFound(); LoneCommaReplaced();
    SeparatorsCommaOnly("12,5", "12.5");
  }
  lemma HalfScan() ensures ParseFloatOrZero("12.5") == 12.5 {
    assert LeadingDigits("12.5", 0) == 2 && LeadingDigits("12.5", 3) == 1;
    assert NatValueRange("12.5", 0, 2) == 12 && NatValueRange("12.5", 3, 4) == 5;
    ScanDecimal("12.5", 2, 1, 12, 5);
  }

  /** A lone ',' is the decimal point. */
  lemma LoneCommaExample()
    ensures ParseFinancialNumber(Str("12,5")) == 12.5
  {
    LoneCommaLower(); LoneCommaKeep(); LoneCommaMultiplier(); LoneCommaSeparators(); HalfScan();
    ParseFinancialTextStages("12,5", "12,5", "12,5", "12.5", 12.5);
  }

  lemma CommaGroupsLower() ensures ToLower("1,234,567") == "1,234,567" {
    LowerWithoutCapitals("1,234,567");
  }
  lemma CommaGroupsKeep() ensures KeepNumeric("1,234,567") == "1,234,567" {
    KeepNumericFromFixed("1,234,567", 0);
  }
  lemma CommaGroupsMultiplier() ensures Multiplier("1,234,567") == 1.0 {}
  lemma CommaGroupsDotCount() ensures CountChar("1,234,567", '.', 0) == 0 {}
  lemma CommaGroupsFound() ensures IndexOf("1,234,567", ".", 0).None? && IndexOf("1,234,567", ",", 0).Some? {}
  lemma CommaGroupsReplaced() ensures ReplaceFirst("1,234,567", ',', '.') == "1.234,567" {
    assert IndexOfChar("1,234,567", ',', 0) == Some(1);
    ReplaceFirstMatches("1,234,567", ',', '.', 1, "1.234,567");
  }
  lemma CommaGroupsSeparators() ensures NormaliseSeparators("1,234,567") == "1.234,567" {
    CommaGroupsDotCount(); CommaGroupsFound(); CommaGroupsReplaced();
    SeparatorsCommaOnly("1,234,567", "1.234,567");
  }
  lemma CommaGroupsRuns() ensures LeadingDigits("1.234,567", 0) == 1 && LeadingDigits("1.234,567", 2) == 3 {}
  lemma CommaGroupsValues() ensures NatValueRange("1.234,567", 0, 1) == 1 && NatValueRange("1.234,567", 2, 5) == 234 {}
  lemma CommaGroupsScan() ensures ParseFloatOrZero("1.234,567") == 1.234 {
    CommaGroupsRuns(); CommaGroupsValues();
    ScanDecimal("1.234,567", 1, 3, 1, 234);
  }

  /** Only the first ',' becomes a '.', so ',' used for thousands without a
      fraction reads as a small decimal. */
  lemma CommaGroupsExample()
    ensures ParseFinancialNumber(Str("1,234,567")) == 1.234
  {
    CommaGroupsLower(); CommaGroupsKeep(); CommaGroupsSeparators(); CommaGroupsScan(); CommaGroupsMultiplier();
    ParseFinancialTextStages("1,234,567", "1,234,567", "1,234,567", "1.234,567", 1.234);
  }

  lemma MillionsLower() ensures ToLower("12.5mi") == "12.5mi" {
    LowerWithoutCapitals("12.5mi");
  }
  lemma MillionsKeep() ensures KeepNumeric("12.5mi") == "12.5" {}
  lemma MillionsMultiplier() ensures Multiplier("12.5mi") == 1000000.0 {}
  lemma MillionsSeparators() ensures NormaliseSeparators("12.5") == "12.5" {
    assert CountChar("12.5", '.', 0) == 1 && IndexOf("12.5", ",", 0).None?;
    SeparatorsNone("12.5");
  }

  /** "mi" scales by a million. */
  lemma MillionsExample()
    ensures ParseFinancialNumber(Str("12.5mi")) == 12500000.0
  {
    MillionsLower(); MillionsKeep(); MillionsMultiplier(); MillionsSeparators(); HalfScan();
    ParseFinancialTextStages("12.5mi", "12.5mi", "12.5", "12.5", 12.5);
  }

  lemma LoneMinus() ensures Normalised("-") == "-" && ScanFloat("-").None? {}
  lemma LoneDot() ensures Normalised(".") == "." && ScanFloat(".").None? {}
  lemma DoubleMinus() ensures Normalised("--5") == "--5" && ScanFloat("--5").None? {
    DoubleMinusNormalised();
    assert LeadingDigits("--5", 1) == 0;
  }
  lemma DoubleMinusNormalised() ensures Normalised("--5") == "--5" {
    DoubleMinusLower(); DoubleMinusKeep(); DoubleMinusSeparators();
  }
  lemma DoubleMinusLower() ensures ToLower("--5") == "--5" {
    LowerWithoutCapitals("--5");
  }
  lemma DoubleMinusKeep() ensures KeepNumeric("--5") == "--5" {
    KeepNumericFromFixed("--5", 0);
  }
  lemma DoubleMinusSeparators() ensures NormaliseSeparators("--5") == "--5" {
    assert CountChar("--5", '.', 0) == 0 && IndexOf("--5", ",", 0).None?;
    SeparatorsNone("--5");
  }

  /** Text with no digit-bearing prefix reads as 0. */
  lemma NoDigitsExamples()
    ensures ParseFinancialNumber(Str("-")) == 0.0
    ensures ParseFinancialNumber(Str(".")) == 0.0
    ensures ParseFinancialNumber(Str("--5")) == 0.0
  {
    LoneMinus(); LoneDot(); DoubleMinus();
  }
}
