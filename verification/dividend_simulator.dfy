/** The income simulator (components/DividendSimulator.tsx): what a position
    pays at a projected yield, and the "magic number" of shares whose
    dividends reach a monthly income target. */
module DividendSimulator {
  import opened RealMath

  /** The yield the slider starts at: the asset's dividend yield, or 6% when
      that is 0 (`data.dividendYield || 6`). */
  function InitialYield(dividendYield: real): (y: real)
    ensures y != 0.0
    ensures dividendYield != 0.0 ==> y == dividendYield
  {
    if dividendYield != 0.0 then dividendYield else 6.0
  }

  /** The share count the simulator starts with, and its income target. */
  const InitialQuantity: real := 100.0
  const InitialMonthlyTarget: real := 1000.0

  /** `projectedDps`: the dividend per share a price pays at `yieldPct`. */
  function ProjectedDps(price: real, yieldPct: real): (dps: real)
    ensures dps * 100.0 == price * yieldPct
  {
    price * (yieldPct / 100.0)
  }

  /** The yield of the projected dividend on the price is the projected
      yield: the two conversions are inverse. */
  lemma ProjectedDpsYield(price: real, yieldPct: real)
    requires price != 0.0
    ensures ProjectedDps(price, yieldPct) / price * 100.0 == yieldPct
  {
    var dps := ProjectedDps(price, yieldPct);
    assert dps == price * yieldPct / 100.0;
  }

  /** `magicNumberShares`: the shares needed for `target` a month, rounded
      up; 0 when the position pays nothing. */
  function MagicNumberShares(target: real, dps: real): (n: int)
    ensures dps <= 0.0 ==> n == 0
    ensures dps > 0.0 ==> n as real * dps >= target * 12.0
    ensures dps > 0.0 ==> (n as real - 1.0) * dps < target * 12.0
  {
    if dps <= 0.0 then 0
    else
      CeilOfQuotient(target * 12.0, dps);
      Ceil(target * 12.0 / dps)
  }

  /** The ceiling of `a / d` for a positive `d`, multiplied back by `d`,
      reaches `a`, and one less falls short. */
  lemma CeilOfQuotient(a: real, d: real)
    requires d > 0.0
    ensures Ceil(a / d) as real * d >= a
    ensures (Ceil(a / d) as real - 1.0) * d < a
  {
    var x := a / d;
    QuotientTimesDivisor(a, d);
    ScaleStrict(Ceil(x) as real, x, d);
    OneBelowFallsShort(x, Ceil(x) as real, d, a);
  }

  /** Multiplying `m < x + 1` through by a positive `d`, where `x * d == a`. */
  lemma OneBelowFallsShort(x: real, m: real, d: real, a: real)
    requires d > 0.0 && m < x + 1.0 && x * d == a
    ensures (m - 1.0) * d < a
  {
    var k := m - 1.0;
    ScaleStrict(k, x, d);
    assert k * d < a;
  }

  /** No smaller number of shares reaches the target. */
  lemma MagicNumberSharesLeast(target: real, dps: real, m: int)
    requires dps > 0.0 && m as real * dps >= target * 12.0
    ensures MagicNumberShares(target, dps) <= m
  {
    var x := target * 12.0 / dps;
    QuotientTimesDivisor(target * 12.0, dps);
    ScaleStrict(m as real, x, dps);
    CeilLeast(x, m);
  }

  /** Everything the simulator shows. */
  datatype Simulation = Simulation(
    projectedDps: real,
    totalInvestment: real,
    annualIncome: real,
    monthlyIncome: real,
    magicNumberShares: int,
    magicNumberInvestment: real)

  function Simulate(price: real, quantity: real, yieldPct: real, monthlyTarget: real): (s: Simulation)
    ensures s.projectedDps == ProjectedDps(price, yieldPct)
    ensures s.totalInvestment == quantity * price
    ensures s.annualIncome == quantity * s.projectedDps
    ensures s.monthlyIncome * 12.0 == s.annualIncome
    ensures s.magicNumberShares == MagicNumberShares(monthlyTarget, s.projectedDps)
    ensures s.magicNumberInvestment == s.magicNumberShares as real * price
  {
    var dps := ProjectedDps(price, yieldPct);
    var annual := quantity * dps;
    var shares := MagicNumberShares(monthlyTarget, dps);
    Simulation(
      projectedDps := dps,
      totalInvestment := quantity * price,
      annualIncome := annual,
      monthlyIncome := annual / 12.0,
      magicNumberShares := shares,
      magicNumberInvestment := shares as real * price)
  }

  /** The annual income is the projected yield on the amount invested. */
  lemma AnnualIncomeIsYieldOnInvestment(price: real, quantity: real, yieldPct: real, monthlyTarget: real)
    ensures var s := Simulate(price, quantity, yieldPct, monthlyTarget);
            s.annualIncome * 100.0 == s.totalInvestment * yieldPct
  {
    var s := Simulate(price, quantity, yieldPct, monthlyTarget);
    var dps := ProjectedDps(price, yieldPct);
    assert s.annualIncome * 100.0 == quantity * (dps * 100.0);
    assert s.totalInvestment * yieldPct == quantity * (price * yieldPct);
  }

  /** Holding the magic number of shares does pay the monthly target. */
  lemma MagicNumberReachesTarget(price: real, quantity: real, yieldPct: real, monthlyTarget: real)
    requires ProjectedDps(price, yieldPct) > 0.0
    ensures var s := Simulate(price, quantity, yieldPct, monthlyTarget);
            var magic := Simulate(price, s.magicNumberShares as real, yieldPct, monthlyTarget);
            magic.monthlyIncome >= monthlyTarget
  {
    var s := Simulate(price, quantity, yieldPct, monthlyTarget);
    var magic := Simulate(price, s.magicNumberShares as real, yieldPct, monthlyTarget);
    assert magic.annualIncome == s.magicNumberShares as real * s.projectedDps;
    assert magic.annualIncome >= monthlyTarget * 12.0;
  }

  /** R$ 1000 a month from a share of R$ 50 yielding 10% (R$ 5 a year)
      takes 2400 shares, that is R$ 120000. */
  lemma MagicNumberExample()
    ensures var s := Simulate(50.0, InitialQuantity, 10.0, 1000.0);
            s.projectedDps == 5.0 && s.magicNumberShares == 2400 && s.magicNumberInvestment == 120000.0
  {
  }
}
