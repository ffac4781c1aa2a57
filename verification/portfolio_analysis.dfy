/** The decision table of the portfolio (components/PortfolioAnalysis.tsx):
    a fair value per holding from its current multiples, the safety margin
    of the current price against it, and a four-way status. */
module PortfolioAnalysis {
  import opened Wrappers
  import opened Types
  import opened RealMath
  import opened Holdings
  import Valuation

  /** The multiples are usable when both are present and positive
      (`!pl || !pvp || pl <= 0 || pvp <= 0` rules the rest out). */
  predicate HasMultiples(pl: Option<real>, pvp: Option<real>) {
    pl.Some? && pvp.Some? && pl.value > 0.0 && pvp.value > 0.0
  }

  /** `calculateGraham`: Graham's number written through the multiples,
      `price * sqrt(22.5 / (P/L * P/VP))`, or 0 without usable multiples.
      The source's `factor < 0` test can never fire once both multiples
      are positive, so it has no branch here. */
  function GrahamFromMultiples(price: real, pl: Option<real>, pvp: Option<real>, sqrt: real -> real): (r: real)
    requires IsSqrt(sqrt)
    ensures !HasMultiples(pl, pvp) ==> r == 0.0
    ensures HasMultiples(pl, pvp) ==> r * r == price * price * (22.5 / (pl.value * pvp.value))
    ensures HasMultiples(pl, pvp) ==> (r > 0.0 <==> price > 0.0) && (r < 0.0 <==> price < 0.0)
  {
    if !HasMultiples(pl, pvp) then 0.0
    else
      var factor := 22.5 / (pl.value * pvp.value);
      assert pl.value * pvp.value > 0.0;
      QuotientPositive(22.5, pl.value * pvp.value);
      SqrtOfPositive(sqrt, factor);
      ScaledRoot(price, factor, sqrt(factor));
      price * sqrt(factor)
  }

  /** Multiplying a positive root `s` of `f` by `p` gives a root of
      `p * p * f` with the sign of `p`. */
  lemma ScaledRoot(p: real, f: real, s: real)
    requires s > 0.0 && s * s == f
    ensures (p * s) * (p * s) == p * p * f
    ensures p * s > 0.0 <==> p > 0.0
    ensures p * s < 0.0 <==> p < 0.0
  {
    assert (p * s) * (p * s) == p * p * (s * s);
  }

  /** For a non-negative price the value is THE non-negative root of
      `price² * 22.5 / (P/L * P/VP)`: any other candidate coincides with it. */
  lemma GrahamFromMultiplesIsRoot(price: real, pl: Option<real>, pvp: Option<real>, sqrt: real -> real, y: real)
    requires IsSqrt(sqrt) && HasMultiples(pl, pvp) && price >= 0.0
    requires y >= 0.0 && y * y == price * price * (22.5 / (pl.value * pvp.value))
    ensures GrahamFromMultiples(price, pl, pvp, sqrt) == y
  {
    var g := GrahamFromMultiples(price, pl, pvp, sqrt);
    assert g >= 0.0;
    SquareInjective(g, y);
  }

  /** The yield the portfolio's Bazin value asks of a price. */
  const BazinTarget: real := 0.06

  /** `calculateBazin`: the price at which the dividend implied by the
      current yield pays 6%; 0 without a usable yield.  A negative yield
      gives a negative value, which the source does not guard. */
  function BazinFromYield(price: real, dy: Option<real>): (r: real)
    ensures !HasYield(dy) ==> r == 0.0
    ensures HasYield(dy) ==> r * BazinTarget * 100.0 == price * dy.value
  {
    if !HasYield(dy) then 0.0
    else price * (dy.value / 100.0) / BazinTarget
  }

  /** With a positive price and yield the portfolio's Bazin value is the
      dashboard's Bazin value at a 6% target, applied to the dividend per
      share that the yield implies. */
  lemma BazinFromYieldIsBazin(price: real, dy: real)
    requires price > 0.0 && dy > 0.0
    ensures BazinFromYield(price, Some(dy)) == Valuation.BazinValue(price * (dy / 100.0), 6.0)
  {
    var dividend := price * (dy / 100.0);
    QuotientPositive(dy, 100.0);
    assert dividend > 0.0;
    var v := Valuation.BazinValue(dividend, 6.0);
    assert v * 0.06 == dividend;
    assert BazinFromYield(price, Some(dy)) * 0.06 == dividend;
  }

  /** The target price: a stock (ACAO) uses Graham when that is positive
      and Bazin otherwise; funds, ETFs and BDRs always use Bazin. */
  function TargetValue(category: AssetCategory, graham: real, bazin: real): (r: real)
    ensures r == graham || r == bazin
    ensures r == graham <== category == Acao && graham > 0.0
    ensures r == bazin <== category != Acao || graham <= 0.0
    ensures category == Acao && r > 0.0 ==> graham > 0.0 || bazin > 0.0
  {
    if category == Acao && graham > 0.0 then graham else bazin
  }

  /** The safety margin in percent of the target, 0 without a positive target. */
  function Margin(target: real, price: real): (r: real)
    ensures target <= 0.0 ==> r == 0.0
    ensures target > 0.0 ==> price == target * (1.0 - r / 100.0)
    ensures target > 0.0 && price >= 0.0 ==> r <= 100.0
  {
    if target > 0.0 then (target - price) / target * 100.0 else 0.0
  }

  /** The margin at the source's two cutoffs, restated on prices. */
  lemma MarginCutoffs(target: real, price: real)
    requires target > 0.0
    ensures Margin(target, price) > 15.0 <==> price < 0.85 * target
    ensures Margin(target, price) < -10.0 <==> price > 1.1 * target
  {
    var m := Margin(target, price);
    assert m * target == 100.0 * (target - price);
    ScaleStrict(15.0, m, target);
    assert m > 15.0 <==> 15.0 * target < m * target;
    assert 15.0 * target < m * target <==> price < 0.85 * target;
    ScaleStrict(m, -10.0, target);
  }

  /** 'MANTER' (nothing to compare against), 'COMPRA' (buy), 'CARO'
      (expensive) and 'AGUARDAR' (wait). */
  datatype Status = Manter | Compra | Caro | Aguardar

  /** The status ladder: a zero target first, then the margin cutoffs. */
  function Classify(target: real, margin: real): (s: Status)
    ensures s == Manter <==> target == 0.0
    ensures s == Compra <==> target != 0.0 && margin > 15.0
    ensures s == Caro <==> target != 0.0 && margin <= 15.0 && margin < -10.0
    ensures s == Aguardar <==> target != 0.0 && -10.0 <= margin <= 15.0
  {
    if target == 0.0 then Manter
    else if margin > 15.0 then Compra
    else if margin < -10.0 then Caro
    else Aguardar
  }

  /** One row of the table. */
  datatype Analysis = Analysis(graham: real, bazin: real, target: real, margin: real, status: Status)

  function Analyse(item: PortfolioItem, sqrt: real -> real): (a: Analysis)
    requires IsSqrt(sqrt)
    ensures a.graham == GrahamFromMultiples(item.currentPrice, item.pl, item.pvp, sqrt)
    ensures a.bazin == BazinFromYield(item.currentPrice, item.dy)
    ensures a.target == TargetValue(item.category, a.graham, a.bazin)
    ensures a.margin == Margin(a.target, item.currentPrice)
    ensures a.status == Classify(a.target, a.margin)
  {
    var graham := GrahamFromMultiples(item.currentPrice, item.pl, item.pvp, sqrt);
    var bazin := BazinFromYield(item.currentPrice, item.dy);
    var target := TargetValue(item.category, graham, bazin);
    var margin := Margin(target, item.currentPrice);
    Analysis(graham, bazin, target, margin, Classify(target, margin))
  }

  /** The table has one row per holding, in portfolio order. */
  function AnalysePortfolio(portfolio: seq<PortfolioItem>, sqrt: real -> real): (rows: seq<Analysis>)
    requires IsSqrt(sqrt)
    ensures |rows| == |portfolio|
    ensures forall i :: 0 <= i < |rows| ==> rows[i] == Analyse(portfolio[i], sqrt)
  {
    seq(|portfolio|, i requires 0 <= i < |portfolio| => Analyse(portfolio[i], sqrt))
  }

  /** For a positive target the status is decided by the price alone:
      buy below 85% of the target, expensive above 110%, wait in between. */
  lemma StatusByPrice(target: real, price: real)
    requires target > 0.0
    ensures var s := Classify(target, Margin(target, price));
            (s == Compra <==> price < 0.85 * target) &&
            (s == Caro <==> price > 1.1 * target) &&
            (s == Aguardar <==> 0.85 * target <= price <= 1.1 * target)
  {
    MarginCutoffs(target, price);
  }

  /** A negative target (a negative yield, say) is never 'MANTER': its
      margin is 0, so it waits. */
  lemma NegativeTargetWaits(target: real, price: real)
    requires target < 0.0
    ensures Classify(target, Margin(target, price)) == Aguardar
  {
  }

  /** A holding with a positive price is 'MANTER' exactly when the model
      has nothing to value it by: no yield, and for a stock no multiples. */
  lemma ManterWhenNothingToValue(item: PortfolioItem, sqrt: real -> real)
    requires IsSqrt(sqrt) && item.currentPrice > 0.0
    ensures Analyse(item, sqrt).status == Manter <==>
            !HasYield(item.dy) && (item.category != Acao || !HasMultiples(item.pl, item.pvp))
  {
    var a := Analyse(item, sqrt);
  }

  /** A stock at 100 whose multiples value it at 130 is a buy; one valued
      at 85 is expensive. */
  lemma StatusExamples()
    ensures Classify(130.0, Margin(130.0, 100.0)) == Compra
    ensures Classify(85.0, Margin(85.0, 100.0)) == Caro
  {
    StatusByPrice(130.0, 100.0);
    StatusByPrice(85.0, 100.0);
  }
}
