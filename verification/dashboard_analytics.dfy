/** The analytics tab (components/DashboardAnalytics.tsx): the balance, the
    yearly dividend estimate, and the three allocation charts (by type, by
    asset, domestic against foreign). */
module DashboardAnalytics {
  import opened Wrappers
  import opened Types
  import opened Sequences
  import opened Holdings
  import opened RealMath

  /** A point of a chart: `{ name, value }`. */
  datatype Slice = Slice(name: string, value: real)

  function Values(slices: seq<Slice>): (r: seq<real>)
    ensures |r| == |slices| && forall i :: 0 <= i < |r| ==> r[i] == slices[i].value
  {
    seq(|slices|, i requires 0 <= i < |slices| => slices[i].value)
  }

  // ---------------------------------------------------------------------
  // Yearly dividends
  // ---------------------------------------------------------------------

  /** What one holding pays in a year at its current yield; nothing without
      a yield (`if (!item.dy) return acc`). */
  function ItemDividend(item: PortfolioItem): (r: real)
    ensures !HasYield(item.dy) ==> r == 0.0
    ensures HasYield(item.dy) ==> r * 100.0 == Value(item) * item.dy.value
  {
    if !HasYield(item.dy) then 0.0 else Value(item) * (item.dy.value / 100.0)
  }

  /** `annualDividendsEstimate`. */
  function AnnualDividendsEstimate(p: seq<PortfolioItem>): (r: real)
    ensures |p| == 1 ==> r == ItemDividend(p[0])
  {
    if p == [] then 0.0 else AnnualDividendsEstimate(p[..|p| - 1]) + ItemDividend(p[|p| - 1])
  }

  lemma AnnualDividendsSnoc(p: seq<PortfolioItem>, x: PortfolioItem)
    ensures AnnualDividendsEstimate(p + [x]) == AnnualDividendsEstimate(p) + ItemDividend(x)
  {
    assert (p + [x])[..|p|] == p;
  }

  /** `!item.dy`'s complement: the holdings that pay. */
  function Yielding(): (r: PortfolioItem -> bool)
    ensures forall x :: r(x) <==> HasYield(x.dy)
  {
    (x: PortfolioItem) => HasYield(x.dy)
  }

  /** Holdings without a yield add nothing to the estimate. */
  lemma {:induction false} AnnualDividendsOfYielding(p: seq<PortfolioItem>)
    ensures AnnualDividendsEstimate(p) == AnnualDividendsEstimate(Filter(p, Yielding()))
    decreases |p|
  {
    if p != [] {
      var init, last := p[..|p| - 1], p[|p| - 1];
      AnnualDividendsOfYielding(init);
      if HasYield(last.dy) {
        AnnualDividendsSnoc(Filter(init, Yielding()), last);
      }
    }
  }

  /** When every holding yields the same `y`, the estimate is `y` percent of
      the balance. */
  lemma {:induction false} AnnualDividendsAtUniformYield(p: seq<PortfolioItem>, y: real)
    requires y != 0.0
    requires forall i :: 0 <= i < |p| ==> p[i].dy == Some(y)
    ensures AnnualDividendsEstimate(p) * 100.0 == TotalBalance(p) * y
    decreases |p|
  {
    if p != [] {
      var init, last := p[..|p| - 1], p[|p| - 1];
      AnnualDividendsAtUniformYield(init, y);
      var e, d := AnnualDividendsEstimate(init), ItemDividend(last);
      var t, v := TotalBalance(init), Value(last);
      assert AnnualDividendsEstimate(p) == e + d;
      assert TotalBalance(p) == t + v;
      ProportionalSum(e, d, t, v, y);
    }
  }

  /** Two amounts each proportional to their base add up proportionally. */
  lemma ProportionalSum(e: real, d: real, t: real, v: real, y: real)
    requires e * 100.0 == t * y && d * 100.0 == v * y
    ensures (e + d) * 100.0 == (t + v) * y
  {
    assert (e + d) * 100.0 == e * 100.0 + d * 100.0;
    assert (t + v) * y == t * y + v * y;
  }

  /** Non-negative holdings and yields give a non-negative estimate. */
  lemma {:induction false} AnnualDividendsNonNegative(p: seq<PortfolioItem>)
    requires forall i :: 0 <= i < |p| ==> p[i].currentPrice >= 0.0 && p[i].quantity >= 0.0
    requires forall i :: 0 <= i < |p| ==> p[i].dy.Some? ==> p[i].dy.value >= 0.0
    ensures AnnualDividendsEstimate(p) >= 0.0
    decreases |p|
  {
    if p != [] {
      var init, last := p[..|p| - 1], p[|p| - 1];
      AnnualDividendsNonNegative(init);
      ValueNonNegative(last);
      if HasYield(last.dy) {
        var d := ItemDividend(last);
        assert d * 100.0 >= 0.0;
      }
    }
  }

  // ---------------------------------------------------------------------
  // Allocation by type
  // ---------------------------------------------------------------------

  /** The key the grouping files a category under. */
  function CategoryName(c: AssetCategory): string {
    match c
    case Acao => "ACAO"
    case Fii => "FII"
    case Etf => "ETF"
    case Bdr => "BDR"
  }

  /** One entry of the `Record<string, number>` the grouping builds. */
  datatype Group = Group(category: AssetCategory, total: real)

  function Keys(g: seq<Group>): (r: seq<AssetCategory>)
    ensures |r| == |g| && forall i :: 0 <= i < |g| ==> r[i] == g[i].category
  {
    seq(|g|, i requires 0 <= i < |g| => g[i].category)
  }

  function Totals(g: seq<Group>): (r: seq<real>)
    ensures |r| == |g| && forall i :: 0 <= i < |g| ==> r[i] == g[i].total
  {
    seq(|g|, i requires 0 <= i < |g| => g[i].total)
  }

  /** `acc[c] = (acc[c] || 0) + v`: an existing key keeps its place, a new
      one goes last, as the keys of a JavaScript object do. */
  function AddTo(g: seq<Group>, c: AssetCategory, v: real): (r: seq<Group>)
    ensures Keys(r) == if c in Keys(g) then Keys(g) else Keys(g) + [c]
    ensures Sum(Totals(r)) == Sum(Totals(g)) + v
  {
    if c in Keys(g) then
      var k := FirstIndex(Keys(g), c);
      var r := g[k := Group(c, g[k].total + v)];
      assert Keys(r) == Keys(g);
      assert Totals(r) == Totals(g)[k := g[k].total + v];
      SumUpdate(Totals(g), k, g[k].total + v);
      r
    else
      var r := g + [Group(c, v)];
      assert Keys(r) == Keys(g) + [c];
      assert Totals(r) == Totals(g) + [v];
      SumSnoc(Totals(g), v);
      r
  }

  /** With distinct keys, adding to `c` adds to the entry of `c` alone. */
  lemma AddToTotals(g: seq<Group>, c: AssetCategory, v: real)
    requires forall i, j :: 0 <= i < j < |g| ==> g[i].category != g[j].category
    ensures var r := AddTo(g, c, v);
            && (forall i :: 0 <= i < |g| ==> r[i].total == g[i].total + (if g[i].category == c then v else 0.0))
            && (c !in Keys(g) ==> r[|g|].total == v)
  {
    if c in Keys(g) {
      var k := FirstIndex(Keys(g), c);
      assert forall i :: 0 <= i < |g| && g[i].category == c ==> i == k;
    }
  }

  /** The categories of the holdings, in portfolio order. */
  function Categories(p: seq<PortfolioItem>): (r: seq<AssetCategory>)
    ensures |r| == |p| && forall i :: 0 <= i < |p| ==> r[i] == p[i].category
  {
    seq(|p|, i requires 0 <= i < |p| => p[i].category)
  }

  /** The `portfolio.reduce(...)` of the type view. */
  function Accumulate(p: seq<PortfolioItem>): (r: seq<Group>)
    ensures |r| <= |p|
    ensures forall i, j :: 0 <= i < j < |r| ==> r[i].category != r[j].category
  {
    if p == [] then [] else AddTo(Accumulate(p[..|p| - 1]), p[|p| - 1].category, Value(p[|p| - 1]))
  }

  /** A category no holding has has a zero subtotal. */
  lemma CategoryTotalAbsent(p: seq<PortfolioItem>, c: AssetCategory)
    requires c !in Categories(p)
    ensures CategoryTotal(p, c) == 0.0
  {
    assert forall i :: 0 <= i < |p| ==> Categories(p)[i] != c;
    FilterKeepsNone(p, InCategory(c));
  }

  /** The grouping's keys are the distinct categories in order of first
      appearance. */
  lemma {:induction false} AccumulateKeys(p: seq<PortfolioItem>)
    ensures Keys(Accumulate(p)) == Dedup(Categories(p))
    decreases |p|
  {
    if p != [] {
      var init := p[..|p| - 1];
      AccumulateKeys(init);
      var cs := Categories(p);
      assert cs[..|cs| - 1] == Categories(init);
    }
  }

  /** The grouping's entries add up to the balance. */
  lemma {:induction false} AccumulateSum(p: seq<PortfolioItem>)
    ensures Sum(Totals(Accumulate(p))) == TotalBalance(p)
    decreases |p|
  {
    if p != [] {
      AccumulateSum(p[..|p| - 1]);
    }
  }

  /** Each entry of the grouping holds its category's subtotal. */
  lemma {:induction false} AccumulateTotals(p: seq<PortfolioItem>)
    ensures forall i :: 0 <= i < |Accumulate(p)| ==>
              Accumulate(p)[i].total == CategoryTotal(p, Accumulate(p)[i].category)
    decreases |p|
  {
    if p != [] {
      var init, x := p[..|p| - 1], p[|p| - 1];
      assert p == init + [x];
      AccumulateTotals(init);
      AccumulateKeys(init);
      AccumulateStep(init, x, Accumulate(init));
    }
  }

  /** One step of the grouping keeps every entry equal to its subtotal. */
  lemma AccumulateStep(init: seq<PortfolioItem>, x: PortfolioItem, a: seq<Group>)
    requires Keys(a) == Dedup(Categories(init))
    requires forall i :: 0 <= i < |a| ==> a[i].total == CategoryTotal(init, a[i].category)
    ensures var r := AddTo(a, x.category, Value(x));
            forall i :: 0 <= i < |r| ==> r[i].total == CategoryTotal(init + [x], r[i].category)
  {
    var c, v := x.category, Value(x);
    var r := AddTo(a, c, v);
    KeysDistinct(a, Categories(init));
    AddToTotals(a, c, v);
    forall i | 0 <= i < |r|
      ensures r[i].total == CategoryTotal(init + [x], r[i].category)
    {
      if i < |a| {
        assert Keys(r)[i] == Keys(a)[i];
        StepOnExistingKey(init, x, a, r, i);
      } else {
        assert c !in Keys(a);
        assert Keys(r)[i] == c;
        StepOnNewKey(init, x, r, i);
      }
    }
  }

  /** Keys produced by `Dedup` are distinct. */
  lemma KeysDistinct(a: seq<Group>, cats: seq<AssetCategory>)
    requires Keys(a) == Dedup(cats)
    ensures forall i, j :: 0 <= i < j < |a| ==> a[i].category != a[j].category
  {
    forall i, j | 0 <= i < j < |a|
      ensures a[i].category != a[j].category
    {
      assert Keys(a)[i] == a[i].category && Keys(a)[j] == a[j].category;
    }
  }

  /** An entry that was already there grows by the holding's value when the
      holding is of its category, as the subtotal does. */
  lemma StepOnExistingKey(init: seq<PortfolioItem>, x: PortfolioItem, a: seq<Group>, r: seq<Group>, i: nat)
    requires i < |a| && i < |r| && r[i].category == a[i].category
    requires r[i].total == a[i].total + (if a[i].category == x.category then Value(x) else 0.0)
    requires a[i].total == CategoryTotal(init, a[i].category)
    ensures r[i].total == CategoryTotal(init + [x], r[i].category)
  {
    CategoryTotalSnoc(init, x, a[i].category);
  }

  /** A new entry holds the value of the first holding of its category. */
  lemma StepOnNewKey(init: seq<PortfolioItem>, x: PortfolioItem, r: seq<Group>, k: nat)
    requires k < |r| && r[k].category == x.category && r[k].total == Value(x)
    requires x.category !in Categories(init)
    ensures r[k].total == CategoryTotal(init + [x], r[k].category)
  {
    CategoryTotalSnoc(init, x, x.category);
    CategoryTotalAbsent(init, x.category);
  }

  /** The "type" chart: `Object.entries(groups)` as `{ name, value }` slices. */
  function TypeView(p: seq<PortfolioItem>): (r: seq<Slice>)
    ensures |r| <= |p|
    ensures forall i, j :: 0 <= i < j < |r| ==> r[i].name != r[j].name
  {
    var g := Accumulate(p);
    seq(|g|, i requires 0 <= i < |g| => Slice(CategoryName(g[i].category), g[i].total))
  }

  /** The type chart has one slice per category present, in order of first
      appearance, worth that category's subtotal. */
  lemma TypeViewByCategory(p: seq<PortfolioItem>)
    ensures var cats := Dedup(Categories(p));
            && |TypeView(p)| == |cats|
            && (forall i :: 0 <= i < |cats| ==> TypeView(p)[i] == Slice(CategoryName(cats[i]), CategoryTotal(p, cats[i])))
  {
    AccumulateKeys(p);
    AccumulateTotals(p);
  }

  /** The type slices add up to the balance. */
  lemma TypeViewSum(p: seq<PortfolioItem>)
    ensures Sum(Values(TypeView(p))) == TotalBalance(p)
  {
    AccumulateSum(p);
    assert Values(TypeView(p)) == Totals(Accumulate(p));
  }

  /** Every category held shows up once in the chart, under its own name. */
  lemma TypeViewCoversCategories(p: seq<PortfolioItem>, c: AssetCategory)
    requires c in Categories(p)
    ensures exists i :: 0 <= i < |TypeView(p)| && TypeView(p)[i].name == CategoryName(c)
  {
    var cats := Dedup(Categories(p));
    TypeViewByCategory(p);
    var i :| 0 <= i < |cats| && cats[i] == c;
    assert TypeView(p)[i].name == CategoryName(c);
  }

  // ---------------------------------------------------------------------
  // Allocation by asset
  // ---------------------------------------------------------------------

  /** The "asset" chart: one slice per holding, named by its ticker. */
  function AssetView(p: seq<PortfolioItem>): (r: seq<Slice>)
    ensures |r| == |p| && forall i :: 0 <= i < |p| ==> r[i].name == p[i].ticker && r[i].value == Value(p[i])
  {
    seq(|p|, i requires 0 <= i < |p| => Slice(p[i].ticker, Value(p[i])))
  }

  /** The asset slices add up to the balance. */
  lemma {:induction false} AssetViewSum(p: seq<PortfolioItem>)
    ensures Sum(Values(AssetView(p))) == TotalBalance(p)
    decreases |p|
  {
    if p != [] {
      var init := p[..|p| - 1];
      AssetViewSum(init);
      assert Values(AssetView(p)) == Values(AssetView(init)) + [Value(p[|p| - 1])];
      SumSnoc(Values(AssetView(init)), Value(p[|p| - 1]));
    }
  }

  // ---------------------------------------------------------------------
  // Domestic against foreign exposure
  // ---------------------------------------------------------------------

  /** The Brazilian-listed funds that track foreign markets. */
  const InternationalTickers: seq<string> := ["IVVB11", "WRLD11", "SPXI11", "GOLD11", "EURP11", "XINA11"]

  /** A BDR or one of the foreign-index funds. */
  function IsInternational(): (r: PortfolioItem -> bool)
    ensures forall x :: r(x) <==> x.category == Bdr || x.ticker in InternationalTickers
  {
    (x: PortfolioItem) => x.category == Bdr || x.ticker in InternationalTickers
  }

  /** The "exposure" chart: 'Nacional' is the balance less the foreign part,
      which is the balance of the domestic holdings; 'Exterior' is the
      foreign part. */
  function ExposureView(p: seq<PortfolioItem>): (r: seq<Slice>)
    ensures |r| == 2 && r[0].name == "Nacional" && r[1].name == "Exterior"
    ensures r[0].value + r[1].value == TotalBalance(p)
  {
    var total := TotalBalance(p);
    var international := TotalBalance(Filter(p, IsInternational()));
    [Slice("Nacional", total - international), Slice("Exterior", international)]
  }

  /** 'Exterior' is the balance of the foreign holdings. */
  lemma ExposureForeign(p: seq<PortfolioItem>)
    ensures |ExposureView(p)| == 2
    ensures ExposureView(p)[1].value == TotalBalance(Filter(p, IsInternational()))
  {
  }

  /** 'Nacional', the balance less the foreign part, is the balance of the
      domestic holdings. */
  lemma ExposureDomestic(p: seq<PortfolioItem>)
    ensures ExposureView(p)[0].value == TotalBalance(Filter(p, Not(IsInternational())))
  {
    PartitionTotal(p, IsInternational());
  }

  /** The two exposure slices add up to the balance. */
  lemma ExposureSum(p: seq<PortfolioItem>)
    ensures Sum(Values(ExposureView(p))) == TotalBalance(p)
  {
    var r := ExposureView(p);
    assert Values(r) == [r[0].value, r[1].value];
    SumPair(r[0].value, r[1].value);
  }

  /** A part of a list of non-negative holdings has a non-negative balance. */
  lemma FilterNonNegative(p: seq<PortfolioItem>, keep: PortfolioItem -> bool)
    requires forall i :: 0 <= i < |p| ==> p[i].currentPrice >= 0.0 && p[i].quantity >= 0.0
    ensures TotalBalance(Filter(p, keep)) >= 0.0
  {
    var r := Filter(p, keep);
    forall i | 0 <= i < |r|
      ensures r[i].currentPrice >= 0.0 && r[i].quantity >= 0.0
    {
      assert r[i] in r;
      var j :| 0 <= j < |p| && p[j] == r[i];
    }
    TotalBalanceNonNegative(r);
  }

  /** With non-negative prices and quantities both slices of the exposure
      chart (the foreign part and the domestic part) lie between 0 and the
      balance. */
  lemma ExposureBounds(p: seq<PortfolioItem>)
    requires forall i :: 0 <= i < |p| ==> p[i].currentPrice >= 0.0 && p[i].quantity >= 0.0
    ensures 0.0 <= TotalBalance(Filter(p, IsInternational())) <= TotalBalance(p)
    ensures 0.0 <= TotalBalance(Filter(p, Not(IsInternational()))) <= TotalBalance(p)
  {
    FilterNonNegative(p, IsInternational());
    FilterNonNegative(p, Not(IsInternational()));
    PartitionTotal(p, IsInternational());
  }

  // ---------------------------------------------------------------------
  // The chart shown
  // ---------------------------------------------------------------------

  /** `allocationView`. */
  datatype AllocationView = ByType | ByAsset | ByExposure

  /** `allocationData`: whichever chart is shown shares out the balance. */
  function AllocationData(view: AllocationView, p: seq<PortfolioItem>): (r: seq<Slice>)
    ensures Sum(Values(r)) == TotalBalance(p)
    ensures view == ByAsset ==> |r| == |p|
    ensures view == ByExposure ==> |r| == 2
    ensures view == ByType ==> |r| == |Dedup(Categories(p))|
  {
    match view
    case ByType => TypeViewByCategory(p); TypeViewSum(p); TypeView(p)
    case ByAsset => AssetViewSum(p); AssetView(p)
    case ByExposure => ExposureSum(p); ExposureView(p)
  }
}
