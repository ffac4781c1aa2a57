/** The records the dashboard passes around (types.ts).  Every number is a
    `real`; an optional TypeScript field (`dy?: number`) is an `Option`. */
module Types {
  import opened Wrappers

  /** 'ACAO' (stock), 'FII' (real-estate fund), 'ETF', 'BDR' (depositary receipt). */
  datatype AssetCategory = Acao | Fii | Etf | Bdr

  datatype DividendHistoryItem = DividendHistoryItem(
    month: string,
    value: real,
    kind: Option<string>)

  /** A sector indicator's value is either preformatted text or a number. */
  datatype MetricValue = MetricText(text: string) | MetricNumber(number: real)

  datatype SectorMetric = SectorMetric(
    title: string,
    value: MetricValue,
    unit: Option<string>,
    tooltip: Option<string>)

  datatype FinancialData = FinancialData(
    ticker: string,
    name: string,
    assetClass: Option<AssetCategory>,
    currency: string,
    currentPrice: real,
    sector: string,
    description: string,
    eps: real,
    bvps: real,
    dividendYield: real,
    peRatio: real,
    pbRatio: real,
    roe: real,
    debtToEquity: real,
    netMargin: real,
    lastDividend: real,
    dividendHistory: seq<DividendHistoryItem>,
    sectorMetrics: seq<SectorMetric>,
    freeCashFlowPerShare: real,
    revenueGrowth3y: real)

  datatype DividendProjectionResult = DividendProjectionResult(
    ticker: string,
    latestReportDate: string,
    reportHighlights: string,
    reportedNetIncome: real,
    reportedRevenue: real,
    sharesOutstanding: real,
    payoutRatio: real,
    projectedDividendPerShare: real,
    reasoning: string,
    riskFactors: string)

  /** User-tunable valuation assumptions; rates are percentages. */
  datatype ValuationParams = ValuationParams(
    grahamConstant: real,
    bazinYieldTarget: real,
    gordonGrowthRate: real,
    gordonRequiredReturn: real,
    dcfGrowthRate: real,
    dcfDiscountRate: real,
    dcfYears: nat,
    marginOfSafety: real)

  datatype PortfolioItem = PortfolioItem(
    ticker: string,
    category: AssetCategory,
    sector: Option<string>,
    quantity: real,
    averagePrice: real,
    currentPrice: real,
    dy: Option<real>,
    pvp: Option<real>,
    pl: Option<real>,
    roe: Option<real>,
    payout: Option<real>)
}
