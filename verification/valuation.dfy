/** The intrinsic-value calculators of the valuation tab
    (components/ValuationDashboard.tsx) and the Graham figure of the summary
    card (components/FundamentalCard.tsx).  Every calculator answers 0 when
    its formula does not apply; 0 therefore means "not computable". */
module Valuation {
  import opened Types
  import opened RealMath

  // ---------------------------------------------------------------------
  // Parameters
  // ---------------------------------------------------------------------

  /** The growth the DCF assumes at first: the three-year revenue growth
      capped at 15%, or 5% when that growth is not positive. */
  function DefaultDcfGrowth(revenueGrowth3y: real): (g: real)
    ensures 0.0 < g <= 15.0
    ensures revenueGrowth3y <= 0.0 ==> g == 5.0
    ensures 0.0 < revenueGrowth3y <= 15.0 ==> g == revenueGrowth3y
    ensures revenueGrowth3y > 15.0 ==> g == 15.0
  {
    if revenueGrowth3y > 0.0 then
      if revenueGrowth3y < 15.0 then revenueGrowth3y else 15.0
    else 5.0
  }

  /** The parameters the tab opens with. */
  function DefaultParams(revenueGrowth3y: real): (p: ValuationParams)
    ensures p.dcfGrowthRate == DefaultDcfGrowth(revenueGrowth3y)
    ensures p.grahamConstant == 22.5 && p.bazinYieldTarget == 6.0
    ensures p.gordonGrowthRate == 2.0 && p.gordonRequiredReturn == 10.0
    ensures p.dcfDiscountRate == 12.0 && p.dcfYears == 10 && p.marginOfSafety == 30.0
  {
    ValuationParams(
      grahamConstant := 22.5,
      bazinYieldTarget := 6.0,
      gordonGrowthRate := 2.0,
      gordonRequiredReturn := 10.0,
      dcfGrowthRate := DefaultDcfGrowth(revenueGrowth3y),
      dcfDiscountRate := 12.0,
      dcfYears := 10,
      marginOfSafety := 30.0)
  }

  /** The default parameters keep every formula in its domain: Gordon's
      required return exceeds its growth and the DCF discount rate exceeds
      the 2% terminal growth. */
  lemma DefaultParamsUsable(revenueGrowth3y: real)
    ensures var p := DefaultParams(revenueGrowth3y);
            && p.gordonRequiredReturn > p.gordonGrowthRate
            && p.dcfDiscountRate / 100.0 > TerminalGrowth
            && p.bazinYieldTarget > 0.0
            && 0.0 <= p.marginOfSafety <= 100.0
  {
  }

  // ---------------------------------------------------------------------
  // Graham
  // ---------------------------------------------------------------------

  /** `grahamValue`: √(constant × EPS × BVPS) for positive EPS and BVPS.
      The constant comes from a slider between 10 and 30. */
  function GrahamValue(eps: real, bvps: real, constant: real, sqrt: real -> real): (r: real)
    requires IsSqrt(sqrt) && constant >= 0.0
    ensures eps <= 0.0 || bvps <= 0.0 ==> r == 0.0
    ensures eps > 0.0 && bvps > 0.0 ==> r >= 0.0 && r * r == constant * eps * bvps
  {
    if eps <= 0.0 || bvps <= 0.0 then 0.0
    else
      NonNegativeProduct(constant, eps, bvps);
      sqrt(constant * eps * bvps)
  }

  lemma NonNegativeProduct(c: real, a: real, b: real)
    requires c >= 0.0 && a > 0.0 && b > 0.0
    ensures c * a * b >= 0.0
  {
    assert a * b > 0.0;
    assert c * a * b == c * (a * b);
  }

  /** With a positive constant the Graham value is positive exactly when it
      applies. */
  lemma GrahamPositive(eps: real, bvps: real, constant: real, sqrt: real -> real)
    requires IsSqrt(sqrt) && constant > 0.0
    ensures GrahamValue(eps, bvps, constant, sqrt) > 0.0 <==> eps > 0.0 && bvps > 0.0
  {
    if eps > 0.0 && bvps > 0.0 {
      assert eps * bvps > 0.0;
      assert constant * eps * bvps == constant * (eps * bvps);
      SqrtOfPositive(sqrt, constant * eps * bvps);
    }
  }

  /** `calculateGraham` of the summary card, with its constant fixed at 22.5. */
  function CardGraham(eps: real, bvps: real, sqrt: real -> real): (r: real)
    requires IsSqrt(sqrt)
    ensures eps <= 0.0 || bvps <= 0.0 ==> r == 0.0
    ensures eps > 0.0 && bvps > 0.0 ==> r >= 0.0 && r * r == 22.5 * eps * bvps
  {
    if eps <= 0.0 || bvps <= 0.0 then 0.0
    else
      NonNegativeProduct(22.5, eps, bvps);
      sqrt(22.5 * eps * bvps)
  }

  /** The card and the tab agree while the tab's constant is at its default. */
  lemma CardGrahamIsDefaultGraham(eps: real, bvps: real, sqrt: real -> real, revenueGrowth3y: real)
    requires IsSqrt(sqrt)
    ensures CardGraham(eps, bvps, sqrt)
              == GrahamValue(eps, bvps, DefaultParams(revenueGrowth3y).grahamConstant, sqrt)
  {
    assert DefaultParams(revenueGrowth3y).grahamConstant == 22.5;
    assert CardGraham(eps, bvps, sqrt) == GrahamValue(eps, bvps, 22.5, sqrt);
  }

  /** The card prints "N/A" for a Graham price of 0, which happens exactly
      when EPS or BVPS is not positive. */
  lemma CardGrahamNotAvailable(eps: real, bvps: real, sqrt: real -> real)
    requires IsSqrt(sqrt)
    ensures !(CardGraham(eps, bvps, sqrt) > 0.0) <==> eps <= 0.0 || bvps <= 0.0
  {
    GrahamPositive(eps, bvps, 22.5, sqrt);
  }

  /** The card's worked example: EPS 5 and BVPS 20 give √2250 ≈ 47.43. */
  lemma CardGrahamExample(sqrt: real -> real)
    requires IsSqrt(sqrt)
    ensures CardGraham(5.0, 20.0, sqrt) * CardGraham(5.0, 20.0, sqrt) == 2250.0
    ensures 47.43 < CardGraham(5.0, 20.0, sqrt) < 47.44
  {
    var r := CardGraham(5.0, 20.0, sqrt);
    assert r >= 0.0 && r * r == 2250.0;
    if r <= 47.43 {
      SquareMonotone(r, 47.43);
    }
    if r >= 47.44 {
      SquareMonotone(47.44, r);
    }
  }

  // ---------------------------------------------------------------------
  // Bazin and Gordon
  // ---------------------------------------------------------------------

  /** `bazinValue`: the price at which the last twelve months of dividends
      yield `targetPct` percent. */
  function BazinValue(lastDividend: real, targetPct: real): (r: real)
    requires targetPct != 0.0
    ensures lastDividend <= 0.0 ==> r == 0.0
    ensures lastDividend > 0.0 ==> r * (targetPct / 100.0) == lastDividend
    ensures lastDividend > 0.0 && targetPct > 0.0 ==> r > 0.0
  {
    if lastDividend <= 0.0 then 0.0 else lastDividend / (targetPct / 100.0)
  }

  /** `gordonValue`: next year's dividend over the spread between the
      required return and the growth, both given in percent. */
  function GordonValue(lastDividend: real, growthPct: real, requiredPct: real): (r: real)
    ensures lastDividend <= 0.0 || requiredPct / 100.0 <= growthPct / 100.0 ==> r == 0.0
    ensures lastDividend > 0.0 && requiredPct / 100.0 > growthPct / 100.0 ==>
              r * (requiredPct / 100.0 - growthPct / 100.0) == lastDividend * (1.0 + growthPct / 100.0)
  {
    if lastDividend <= 0.0 then 0.0
    else
      var k := requiredPct / 100.0;
      var g := growthPct / 100.0;
      if k <= g then 0.0
      else lastDividend * (1.0 + g) / (k - g)
  }

  /** Growth above -100% keeps an applicable Gordon value positive. */
  lemma GordonPositive(lastDividend: real, growthPct: real, requiredPct: real)
    requires lastDividend > 0.0 && requiredPct > growthPct && growthPct > -100.0
    ensures GordonValue(lastDividend, growthPct, requiredPct) > 0.0
  {
    var k, g := requiredPct / 100.0, growthPct / 100.0;
    assert k - g > 0.0 && 1.0 + g > 0.0;
    assert lastDividend * (1.0 + g) > 0.0;
    QuotientPositive(lastDividend * (1.0 + g), k - g);
  }

  /** D = 2, k = 10%, g = 2%: 2.04 / 0.08 = 25.5. */
  lemma GordonExample()
    ensures GordonValue(2.0, 2.0, 10.0) == 25.5
  {
  }

  // ---------------------------------------------------------------------
  // Discounted cash flow
  // ---------------------------------------------------------------------

  /** The perpetual growth assumed after the explicit years. */
  const TerminalGrowth: real := 0.02

  /** The present value of years 1..n of a cash flow `fcf` growing at `g`
      and discounted at `r`: Σ fcf(1+g)^j / (1+r)^j. */
  function PresentValueSum(fcf: real, g: real, r: real, n: nat): real
    requires 1.0 + r != 0.0
  {
    if n == 0 then 0.0
    else
      PresentValueSum(fcf, g, r, n - 1) + fcf * Pow(1.0 + g, n) / Pow(1.0 + r, n)
  }

  /** The Gordon-style value, at the end of the explicit years, of a cash
      flow `cf` growing at the terminal rate and discounted at `r`. */
  function TerminalValue(cf: real, r: real): (tv: real)
    requires r != TerminalGrowth
    ensures tv * (r - TerminalGrowth) == cf * (1.0 + TerminalGrowth)
    ensures cf > 0.0 && r > TerminalGrowth ==> tv > 0.0
  {
    cf * (1.0 + TerminalGrowth) / (r - TerminalGrowth)
  }

  /** The DCF value as a formula: the explicit years plus the discounted
      terminal value; 0 for a cash flow that is not positive. */
  function DcfFormula(fcf: real, growthPct: real, discountPct: real, years: nat): (v: real)
    requires 1.0 + discountPct / 100.0 != 0.0 && discountPct / 100.0 != TerminalGrowth
    ensures fcf <= 0.0 ==> v == 0.0
    ensures fcf > 0.0 && years == 0 ==> v == TerminalValue(fcf, discountPct / 100.0)
  {
    if fcf <= 0.0 then 0.0
    else
      var g, r := growthPct / 100.0, discountPct / 100.0;
      PresentValueSum(fcf, g, r, years) + TerminalValue(fcf * Pow(1.0 + g, years), r) / Pow(1.0 + r, years)
  }

  /** One more year of growth. */
  lemma GrowOneYear(fcf: real, x: real, i: nat)
    ensures fcf * Pow(x, i) * x == fcf * Pow(x, i + 1)
  {
    assert Pow(x, i + 1) == x * Pow(x, i);
  }

  /** `dcfValue`: the loop of the source, year by year, then the terminal value. */
  method DcfValue(fcf: real, growthPct: real, discountPct: real, years: nat) returns (value: real)
    requires 1.0 + discountPct / 100.0 != 0.0 && discountPct / 100.0 != TerminalGrowth
    ensures value == DcfFormula(fcf, growthPct, discountPct, years)
  {
    if fcf <= 0.0 {
      return 0.0;
    }
    var r := discountPct / 100.0;
    var g := growthPct / 100.0;
    var sumPv, currentFcf := ExplicitYears(fcf, g, r, years);
    var terminalValue := currentFcf * (1.0 + TerminalGrowth) / (r - TerminalGrowth);
    var pvTerminal := terminalValue / Pow(1.0 + r, years);
    value := sumPv + pvTerminal;
    DcfFormulaParts(fcf, growthPct, discountPct, years, sumPv, currentFcf, value);
  }

  /** The loop over the explicit years: the discounted sum, and the cash
      flow of the last year. */
  method ExplicitYears(fcf: real, g: real, r: real, years: nat) returns (sumPv: real, currentFcf: real)
    requires 1.0 + r != 0.0
    ensures sumPv == PresentValueSum(fcf, g, r, years)
    ensures currentFcf == fcf * Pow(1.0 + g, years)
  {
    sumPv := 0.0;
    currentFcf := fcf;
    var i := 1;
    while i <= years
      invariant 1 <= i <= years + 1
      invariant currentFcf == fcf * Pow(1.0 + g, i - 1)
      invariant sumPv == PresentValueSum(fcf, g, r, i - 1)
    {
      GrowOneYear(fcf, 1.0 + g, i - 1);
      currentFcf := currentFcf * (1.0 + g);
      PresentValueStep(fcf, g, r, i, sumPv, currentFcf);
      sumPv := sumPv + currentFcf / Pow(1.0 + r, i);
      i := i + 1;
    }
  }

  /** Adding year `i` to the sum of the years before it. */
  lemma PresentValueStep(fcf: real, g: real, r: real, i: nat, sum: real, cf: real)
    requires 1.0 + r != 0.0 && i > 0
    requires sum == PresentValueSum(fcf, g, r, i - 1) && cf == fcf * Pow(1.0 + g, i)
    ensures sum + cf / Pow(1.0 + r, i) == PresentValueSum(fcf, g, r, i)
  {
  }

  lemma DcfFormulaParts(fcf: real, growthPct: real, discountPct: real, years: nat, sumPv: real, grown: real, value: real)
    requires 1.0 + discountPct / 100.0 != 0.0 && discountPct / 100.0 != TerminalGrowth && fcf > 0.0
    requires sumPv == PresentValueSum(fcf, growthPct / 100.0, discountPct / 100.0, years)
    requires grown == fcf * Pow(1.0 + growthPct / 100.0, years)
    requires Pow(1.0 + discountPct / 100.0, years) != 0.0
    requires value == sumPv + TerminalValue(grown, discountPct / 100.0) / Pow(1.0 + discountPct / 100.0, years)
    ensures value == DcfFormula(fcf, growthPct, discountPct, years)
  {
  }

  /** When growth equals the discount rate every explicit year is worth
      exactly one year's cash flow today. */
  lemma {:induction false} PresentValueSumFlat(fcf: real, r: real, n: nat)
    requires 1.0 + r > 0.0
    ensures PresentValueSum(fcf, r, r, n) == n as real * fcf
  {
    if n > 0 {
      PresentValueSumFlat(fcf, r, n - 1);
      PowPositive(1.0 + r, n);
      assert fcf * Pow(1.0 + r, n) / Pow(1.0 + r, n) == fcf;
    }
  }

  /** A positive cash flow, growth above -100% and a discount rate above the
      terminal growth give a positive DCF value. */
  lemma DcfPositive(fcf: real, growthPct: real, discountPct: real, years: nat)
    requires fcf > 0.0 && growthPct > -100.0 && discountPct / 100.0 > TerminalGrowth
    ensures DcfFormula(fcf, growthPct, discountPct, years) > 0.0
  {
    var g, r := growthPct / 100.0, discountPct / 100.0;
    PresentValueSumNonNegative(fcf, g, r, years);
    PowPositive(1.0 + g, years);
    PowPositive(1.0 + r, years);
    var grown := fcf * Pow(1.0 + g, years);
    assert grown > 0.0;
    var terminal := TerminalValue(grown, r);
    assert grown * (1.0 + TerminalGrowth) > 0.0;
    QuotientPositive(grown * (1.0 + TerminalGrowth), r - TerminalGrowth);
    QuotientPositive(terminal, Pow(1.0 + r, years));
  }

  lemma {:induction false} PresentValueSumNonNegative(fcf: real, g: real, r: real, n: nat)
    requires fcf > 0.0 && 1.0 + g > 0.0 && 1.0 + r > 0.0
    ensures PresentValueSum(fcf, g, r, n) >= 0.0
  {
    if n > 0 {
      PresentValueSumNonNegative(fcf, g, r, n - 1);
      PowPositive(1.0 + g, n);
      PowPositive(1.0 + r, n);
      assert fcf * Pow(1.0 + g, n) > 0.0;
    }
  }

  // ---------------------------------------------------------------------
  // Combining the estimates
  // ---------------------------------------------------------------------

  /** `values.filter(v => v > 0)`. */
  function Positives(s: seq<real>): (r: seq<real>)
    ensures forall i :: 0 <= i < |r| ==> r[i] > 0.0
    ensures forall x :: x in r <==> x in s && x > 0.0
    ensures |r| <= |s|
  {
    if s == [] then []
    else
      var init := Positives(s[..|s| - 1]);
      assert s == s[..|s| - 1] + [s[|s| - 1]];
      if s[|s| - 1] > 0.0 then init + [s[|s| - 1]] else init
  }

  /** A lone estimate is kept exactly when it is positive. */
  lemma PositivesOne(x: real)
    ensures Positives([x]) == if x > 0.0 then [x] else []
  {
    assert [x][..0] == [];
  }

  /** The filter works piece by piece: every positive estimate is kept, as
      often as it occurs and in its place. */
  lemma {:induction false} PositivesAppend(a: seq<real>, b: seq<real>)
    ensures Positives(a + b) == Positives(a) + Positives(b)
    decreases |b|
  {
    if b == [] {
      assert a + b == a;
    } else {
      var init, last := b[..|b| - 1], b[|b| - 1];
      assert (a + b)[..|a + b| - 1] == a + init;
      assert (a + b)[|a + b| - 1] == last;
      PositivesAppend(a, init);
    }
  }

  lemma {:induction false} SumPositive(s: seq<real>)
    requires |s| > 0 && forall i :: 0 <= i < |s| ==> s[i] > 0.0
    ensures Sum(s) > 0.0
    decreases |s|
  {
    if |s| > 1 {
      SumPositive(s[..|s| - 1]);
    }
  }

  lemma {:induction false} SumAtMost(s: seq<real>, bound: real)
    requires forall i :: 0 <= i < |s| ==> s[i] <= bound
    ensures Sum(s) <= |s| as real * bound
    decreases |s|
  {
    if |s| > 0 {
      SumAtMost(s[..|s| - 1], bound);
    }
  }

  /** The arithmetic mean of a non-empty list. */
  function Mean(s: seq<real>): (r: real)
    requires |s| > 0
    ensures r * |s| as real == Sum(s)
  {
    var n := |s| as real;
    QuotientTimesDivisor(Sum(s), n);
    Sum(s) / n
  }

  /** `avgIntrinsicValue`: the mean of the positive estimates, or 0. */
  function AverageIntrinsic(estimates: seq<real>): (r: real)
    ensures Positives(estimates) == [] ==> r == 0.0
    ensures Positives(estimates) != [] ==> r == Mean(Positives(estimates)) && r > 0.0
  {
    var valid := Positives(estimates);
    if |valid| > 0 then
      MeanPositive(valid);
      Mean(valid)
    else 0.0
  }

  lemma MeanPositive(s: seq<real>)
    requires |s| > 0 && forall i :: 0 <= i < |s| ==> s[i] > 0.0
    ensures Mean(s) > 0.0
  {
    SumPositive(s);
    QuotientPositive(Sum(s), |s| as real);
  }

  lemma MeanAtMost(s: seq<real>, bound: real)
    requires |s| > 0 && forall i :: 0 <= i < |s| ==> s[i] <= bound
    ensures Mean(s) <= bound
  {
    SumAtMost(s, bound);
    var n := |s| as real;
    assert Mean(s) * n <= bound * n;
    CancelPositiveFactor(Mean(s), bound, n);
  }

  /** The mean lies within the positive estimates: it never exceeds the
      largest of them. */
  lemma AverageAtMostLargest(estimates: seq<real>, bound: real)
    requires forall i :: 0 <= i < |estimates| ==> estimates[i] <= bound
    ensures AverageIntrinsic(estimates) <= bound || Positives(estimates) == []
  {
    var valid := Positives(estimates);
    if valid != [] {
      assert forall i :: 0 <= i < |valid| ==> valid[i] in estimates;
      MeanAtMost(valid, bound);
    }
  }

  /** Graham 0, Bazin 20, Gordon 0 and DCF 0 average to 20. */
  lemma AverageIntrinsicExample()
    ensures AverageIntrinsic([0.0, 20.0, 0.0, 0.0]) == 20.0
  {
    assert [0.0, 20.0, 0.0, 0.0][..3] == [0.0, 20.0, 0.0];
    assert [0.0, 20.0, 0.0][..2] == [0.0, 20.0];
    assert [0.0, 20.0][..1] == [0.0];
    assert Positives([0.0, 20.0, 0.0, 0.0]) == [20.0];
  }

  /** `buyPrice`: the average less the margin of safety. */
  function BuyPrice(average: real, marginPct: real): (r: real)
    ensures (average - r) * 100.0 == average * marginPct
    ensures average >= 0.0 && 0.0 <= marginPct <= 100.0 ==> 0.0 <= r <= average
    ensures average > 0.0 ==> (r < average <==> marginPct > 0.0)
  {
    average * (1.0 - marginPct / 100.0)
  }

  /** `upside` (and the card's `grahamUpside`): the percentage by which
      `value` exceeds `price`, or 0 when there is no positive value. */
  function Upside(value: real, price: real): (r: real)
    requires value > 0.0 ==> price != 0.0
    ensures value <= 0.0 ==> r == 0.0
    ensures value > 0.0 ==> price * (1.0 + r / 100.0) == value
  {
    if value > 0.0 then (value - price) / price * 100.0 else 0.0
  }

  /** For a positive price the upside is positive exactly when the value
      is above the price. */
  lemma UpsideSign(value: real, price: real)
    requires price > 0.0
    ensures Upside(value, price) > 0.0 <==> value > price
  {
  }
}
