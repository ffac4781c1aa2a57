/** The what-if panel of the dividend-projection tab
    (components/DividendProjectionTab.tsx): the starting values taken from
    the projection, the two digits-only input fields, the pt-BR display the
    fields are re-read from, and the dividend per share they imply. */
module DividendProjection {
  import opened Types
  import opened Text
  import opened Digits
  import opened RealMath

  // ---------------------------------------------------------------------
  // Digits-only input fields
  // ---------------------------------------------------------------------

  /** `s.replace(/\D/g, '')`: the ASCII digits of `s`, in order. */
  function DigitsOnly(s: string): (r: string)
    ensures AllDigits(r)
    ensures |r| <= |s|
    ensures AllDigits(s) ==> r == s
  {
    if s == [] then []
    else
      var init, last := s[..|s| - 1], s[|s| - 1];
      assert s == init + [last];
      DigitsOnly(init) + (if IsDigit(last) then [last] else [])
  }

  /** Removing the non-digits works piece by piece. */
  lemma {:induction false} DigitsOnlyAppend(a: string, b: string)
    ensures DigitsOnly(a + b) == DigitsOnly(a) + DigitsOnly(b)
    decreases |b|
  {
    if b == [] {
      assert a + b == a;
    } else {
      var init, last := b[..|b| - 1], b[|b| - 1];
      assert b == init + [last];
      assert a + b == (a + init) + [last];
      DigitsOnlyAppend(a, init);
      var tail := if IsDigit(last) then [last] else [];
      assert DigitsOnly(a + b) == DigitsOnly(a + init) + tail;
      assert DigitsOnly(b) == DigitsOnly(init) + tail;
    }
  }

  /** A string of only non-digits leaves nothing. */
  lemma DigitsOnlyOfSymbol(c: char)
    requires !IsDigit(c)
    ensures DigitsOnly([c]) == []
  {
    assert [c][..0] == [];
  }

  /** A one-digit string spells its digit. */
  lemma NatValueOfDigit(c: char)
    requires IsDigit(c)
    ensures AllDigits([c]) && NatValue([c]) == DigitValue(c)
  {
    assert NatValueRange([c], 0, 0) == 0;
  }

  /** `handleNetIncomeChange`: the digits typed, read as cents
      (`Number(rawValue) / 100`). */
  function NetIncomeFromInput(s: string): (r: real)
    ensures r >= 0.0
    ensures (r * 100.0).Floor as real == r * 100.0
  {
    var cents := NatValue(DigitsOnly(s));
    cents as real / 100.0
  }

  /** Typing a digit at the end of the net-income field shifts the amount
      one place left and adds the digit as cents; any other key leaves the
      amount alone. */
  lemma NetIncomeTyping(s: string, c: char)
    ensures IsDigit(c) ==>
              NetIncomeFromInput(s + [c]) == NetIncomeFromInput(s) * 10.0 + DigitValue(c) as real / 100.0
    ensures !IsDigit(c) ==> NetIncomeFromInput(s + [c]) == NetIncomeFromInput(s)
  {
    assert (s + [c])[..|s|] == s;
    var d := DigitsOnly(s);
    if IsDigit(c) {
      assert DigitsOnly(s + [c]) == d + [c];
      NatValueAppend(d, [c]);
      NatValueOfDigit(c);
      var n := NatValue(d);
      assert NatValue(d + [c]) == n * 10 + DigitValue(c);
    } else {
      assert DigitsOnly(s + [c]) == d;
    }
  }

  /** `handleSharesChange`: the digits typed, as a whole number; an empty
      field is 0 (`Number('')`). */
  function SharesFromInput(s: string): (r: real)
    ensures r >= 0.0 && r.Floor as real == r
    ensures DigitsOnly(s) == [] ==> r == 0.0
  {
    NatValue(DigitsOnly(s)) as real
  }

  // ---------------------------------------------------------------------
  // pt-BR display of the fields
  // ---------------------------------------------------------------------

  /** Groups of three digits from the right, joined by '.'. */
  function GroupThousands(d: string): (r: string)
    requires AllDigits(d)
    ensures |d| > 0 ==> |r| == |d| + (|d| - 1) / 3
    ensures forall k :: 0 <= k < |r| ==> IsDigit(r[k]) || r[k] == '.'
    decreases |d|
  {
    if |d| <= 3 then d
    else GroupThousands(d[..|d| - 3]) + "." + d[|d| - 3..]
  }

  /** The separators are the only thing grouping adds. */
  lemma {:induction false} GroupThousandsDigits(d: string)
    requires AllDigits(d)
    ensures DigitsOnly(GroupThousands(d)) == d
    decreases |d|
  {
    if |d| > 3 {
      var hi, lo := d[..|d| - 3], d[|d| - 3..];
      GroupThousandsDigits(hi);
      StripGroupSeparator(hi, lo, GroupThousands(hi));
      assert hi + lo == d;
    }
  }

  lemma StripGroupSeparator(hi: string, lo: string, g: string)
    requires DigitsOnly(g) == hi && AllDigits(lo)
    ensures DigitsOnly(g + "." + lo) == hi + lo
  {
    StripSymbol(g, '.');
    DigitsOnlyAppend(g + ".", lo);
  }

  /** Two digits, with a leading zero below ten. */
  function TwoDigits(n: nat): (r: string)
    requires n < 100
    ensures |r| == 2 && AllDigits(r) && NatValue(r) == n
  {
    var r := [DigitChar(n / 10), DigitChar(n % 10)];
    NatValueAppend([DigitChar(n / 10)], [DigitChar(n % 10)]);
    r
  }

  /** An amount of `cents` in pt-BR with two decimals: '-' for a negative
      amount, '.' between thousands, ',' before the cents. */
  function FormatCents(cents: int): (r: string)
    ensures |r| >= 4 && r[|r| - 3] == ','
    ensures r[0] == '-' <==> cents < 0
    ensures AllDigits(r[|r| - 2..]) && NatValue(r[|r| - 2..]) == (if cents < 0 then -cents else cents) % 100
  {
    var a: nat := if cents < 0 then -cents else cents;
    var whole := GroupThousands(NatToDigits(a / 100));
    var r := (if cents < 0 then "-" else "") + whole + "," + TwoDigits(a % 100);
    assert r[|r| - 2..] == TwoDigits(a % 100);
    r
  }

  /** The digits of a formatted amount are those of the whole part and then
      the two cents digits. */
  lemma FormatCentsDigits(cents: int)
    ensures var a: nat := if cents < 0 then -cents else cents;
            DigitsOnly(FormatCents(cents)) == NatToDigits(a / 100) + TwoDigits(a % 100)
  {
    var a: nat := if cents < 0 then -cents else cents;
    var whole := GroupThousands(NatToDigits(a / 100));
    var sign := if cents < 0 then "-" else "";
    var two := TwoDigits(a % 100);
    assert FormatCents(cents) == ((sign + whole) + ",") + two;
    if cents < 0 {
      DigitsOnlyOfSymbol('-');
    }
    StripSeparators(sign, whole, two);
    GroupThousandsDigits(NatToDigits(a / 100));
  }

  /** The sign and the decimal comma leave no digits behind. */
  lemma StripSeparators(sign: string, whole: string, two: string)
    requires DigitsOnly(sign) == [] && AllDigits(two)
    ensures DigitsOnly(((sign + whole) + ",") + two) == DigitsOnly(whole) + two
  {
    var a := sign + whole;
    var b := a + ",";
    StripSign(sign, whole);
    StripSymbol(a, ',');
    DigitsOnlyAppend(b, two);
  }

  lemma StripSign(sign: string, whole: string)
    requires DigitsOnly(sign) == []
    ensures DigitsOnly(sign + whole) == DigitsOnly(whole)
  {
    DigitsOnlyAppend(sign, whole);
  }

  lemma StripSymbol(a: string, c: char)
    requires !IsDigit(c)
    ensures DigitsOnly(a + [c]) == DigitsOnly(a)
  {
    assert (a + [c])[..|a|] == a;
  }

  /** Re-reading a formatted amount gives its size back: the field keeps
      the cents but drops the sign. */
  lemma FormatCentsRoundTrip(cents: int)
    ensures NetIncomeFromInput(FormatCents(cents)) == (if cents < 0 then -cents else cents) as real / 100.0
  {
    var a: nat := if cents < 0 then -cents else cents;
    var hi, two := NatToDigits(a / 100), TwoDigits(a % 100);
    FormatCentsDigits(cents);
    NatValueAppend(hi, two);
    assert Pow10(2) == 100;
    assert NatValue(hi + two) == a / 100 * 100 + a % 100;
  }

  /** Rounding to cents, half away from zero, as the two-decimal display
      does. */
  function RoundCents(v: real): (r: int)
    ensures r as real - 0.5 <= v * 100.0 <= r as real + 0.5
    ensures v >= 0.0 ==> v * 100.0 < r as real + 0.5
    ensures v < 0.0 ==> r as real - 0.5 < v * 100.0
    ensures v >= 0.0 ==> r >= 0
    ensures v < 0.0 ==> r <= 0
    ensures (v * 100.0).Floor as real == v * 100.0 ==> r as real == v * 100.0
  {
    var x := v * 100.0;
    var n := x.Floor;
    if v >= 0.0 then
      RoundHalfBounds(x);
      RoundHalfWhole(n);
      (x + 0.5).Floor
    else
      var y := -x;
      assert y == (-v) * 100.0;
      RoundHalfBounds(y);
      RoundHalfWhole(-n);
      -((y + 0.5).Floor)
  }

  /** Half-up rounding of a non-negative amount lands within half a unit. */
  lemma RoundHalfBounds(x: real)
    requires x >= 0.0
    ensures var r := (x + 0.5).Floor;
            r >= 0 && r as real - 0.5 <= x < r as real + 0.5
  {
  }

  /** Rounding leaves a whole amount alone. */
  lemma RoundHalfWhole(n: int)
    ensures (n as real + 0.5).Floor == n
  {
  }

  /** `simNetIncome.toLocaleString('pt-BR', { minimumFractionDigits: 2, maximumFractionDigits: 2 })`. */
  function DisplayNetIncome(v: real): (r: string)
    ensures |r| >= 4 && r[|r| - 3] == ','
    ensures r[0] == '-' <==> v * 100.0 <= -0.5
  {
    FormatCents(RoundCents(v))
  }

  /** Re-reading the displayed net income gives the amount rounded to cents,
      without its sign. */
  lemma DisplayNetIncomeRoundTrip(v: real)
    ensures v >= 0.0 ==> NetIncomeFromInput(DisplayNetIncome(v)) == RoundCents(v) as real / 100.0
    ensures v < 0.0 ==> NetIncomeFromInput(DisplayNetIncome(v)) == -RoundCents(v) as real / 100.0
  {
    FormatCentsRoundTrip(RoundCents(v));
  }

  /** An amount the field itself produced is displayed and re-read
      unchanged, so editing never drifts. */
  lemma NetIncomeFieldStable(s: string)
    ensures NetIncomeFromInput(DisplayNetIncome(NetIncomeFromInput(s))) == NetIncomeFromInput(s)
  {
    var v := NetIncomeFromInput(s);
    DisplayNetIncomeRoundTrip(v);
    assert RoundCents(v) as real == v * 100.0;
  }

  /** A negative projected income shows with a '-' that the field drops on
      the next keystroke. */
  lemma NegativeIncomeLosesSign()
    ensures DisplayNetIncome(-12.5)[0] == '-'
    ensures NetIncomeFromInput(DisplayNetIncome(-12.5)) == 12.5
  {
    assert RoundCents(-12.5) == -1250;
    FormatCentsRoundTrip(-1250);
  }

  /** `simShares.toLocaleString('pt-BR')` for a whole number of shares. */
  function DisplayShares(n: nat): (r: string)
    ensures forall k :: 0 <= k < |r| ==> IsDigit(r[k]) || r[k] == '.'
    ensures DigitsOnly(r) == NatToDigits(n)
  {
    GroupThousandsDigits(NatToDigits(n));
    GroupThousands(NatToDigits(n))
  }

  /** The shares field re-reads its own display. */
  lemma SharesRoundTrip(n: nat)
    ensures SharesFromInput(DisplayShares(n)) == n as real
  {
    GroupThousandsDigits(NatToDigits(n));
  }

  // ---------------------------------------------------------------------
  // The simulation
  // ---------------------------------------------------------------------

  /** The three figures the user can change. */
  datatype Simulation = Simulation(netIncome: real, payout: real, shares: real)

  /** The starting point after a projection arrives: each figure or 0
      (`x || 0`); over the reals only 0 itself is falsy, so the fallback
      leaves every value as it is. */
  function InitialSimulation(result: DividendProjectionResult): (s: Simulation)
    ensures s.netIncome == result.reportedNetIncome
    ensures s.payout == result.payoutRatio
    ensures s.shares == result.sharesOutstanding
  {
    Simulation(
      if result.reportedNetIncome != 0.0 then result.reportedNetIncome else 0.0,
      if result.payoutRatio != 0.0 then result.payoutRatio else 0.0,
      if result.sharesOutstanding != 0.0 then result.sharesOutstanding else 0.0)
  }

  /** `calculatedDividend`: the share of the income paid out, per share; 0
      without shares. */
  function CalculatedDividend(s: Simulation): (r: real)
    ensures s.shares <= 0.0 ==> r == 0.0
    ensures s.shares > 0.0 ==> r * s.shares * 100.0 == s.netIncome * s.payout
  {
    if s.shares > 0.0 then (s.netIncome * (s.payout / 100.0)) / s.shares else 0.0
  }

  /** With shares and a positive payout, a larger income never lowers the
      dividend per share. */
  lemma CalculatedDividendMonotone(s: Simulation, income: real)
    requires s.shares > 0.0 && s.payout > 0.0 && s.netIncome <= income
    ensures CalculatedDividend(s) <= CalculatedDividend(s.(netIncome := income))
  {
    var t := s.(netIncome := income);
    var a, b := CalculatedDividend(s), CalculatedDividend(t);
    var k := s.shares * 100.0;
    assert a * k == s.netIncome * s.payout;
    assert b * k == income * s.payout;
    assert s.netIncome * s.payout <= income * s.payout;
    CancelPositiveFactor(a, b, k);
  }
}
