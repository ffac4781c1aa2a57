# ValuationPro core, modelled in Dafny

ValuationPro is a React dashboard for the Brazilian and US stock markets.
It asks a language model for a company's fundamentals. It then values the
company by Graham, Bazin, Gordon and discounted cash flow. It also keeps a
portfolio of holdings in four categories: stocks (ACAO), real-estate funds
(FII), ETFs and BDRs. For the portfolio it shows tables, an allocation
chart, a decision table and a dividend projection.

This project models the parts of that program that compute something.

- `numeric_normaliser.dfy` models `parseFinancialNumber`. It covers the
  lower-casing, the "bi"/"mi" magnitudes, the cleaning, and the four
  separator rules. `parseFloat` is modelled as the longest literal prefix.
- `response_decoding.dfy` models `extractJSON`/`extractJSONArray`, the
  `cleanData` record built from a parsed reply, `parseResult`, and the
  de-duplicated grounding links.
- `valuation.dfy` covers the valuation screen and the fundamentals card:
  the default parameters, Graham, Bazin, Gordon, the discounted cash flow
  loop, the mean of the positive estimates, the buy price and the upside.
- `dividend_simulator.dfy` covers the dividend simulator: the projected
  dividend per share, the incomes, and the "magic number" of shares.
- `portfolio_analysis.dfy` covers the decision table: the fair value from
  the multiples, the target price, the margin and the status.
- `holdings.dfy` holds the portfolio primitives: the value of a holding,
  the balance as a left fold, `filter`, and the category tables.
- `portfolio_dashboard.dfy` covers the portfolio screen: editing, deleting
  and adding a holding, category inference, and the per-row metrics.
- `dashboard_analytics.dfy` covers the analytics screen: the dividend
  estimate and the three allocation views.
- `dividend_projection.dfy` covers the dividend projection tab: the
  digit-only input fields, the pt-BR display of the values, and the
  dividend per share.
- `wrappers.dfy`, `realmath.dfy`, `text.dfy`, `digits.dfy`,
  `sequences.dfy` and `types.dfy` are support modules. They hold Option,
  real-number helpers, JavaScript string operations, decimal digit
  strings, first-occurrence de-duplication, and the records of `types.ts`.

JavaScript numbers are modelled as `real`, so there is no rounding, NaN or
Infinity. Where the source would divide by zero, the model asks for a
non-zero divisor. `Math.sqrt` is a parameter constrained by `IsSqrt`.

The code is modelled as written, including behaviour a user might not
expect:

- `parseFinancialNumber("1,234,567")` is 1.234. Only the first ',' becomes
  a '.', so the rest of the number is cut off (`NumericNormaliser.CommaGroupsExample`).
- A negative net income shown in the projection tab loses its sign once
  the field is edited, because the edit handler keeps only digits
  (`DividendProjection.NegativeIncomeLosesSign`).

## Model

| member | source | states |
|---|---|---|
| NumericNormaliser.ParseFinancialNumber | services/geminiService.ts:44-78 | a number is returned unchanged and a missing value is 0 |
| NumericNormaliser.ParseFinancialText | services/geminiService.ts:46-77 | empty text is 0, and text with no readable number is 0 |
| NumericNormaliser.ParseFinancialTextSpec | services/geminiService.ts:48-77 | non-empty text is worth the longest literal prefix of its normalised form times the announced magnitude; with no literal prefix it is worth 0 |
| NumericNormaliser.ParseFloatIsLongestLiteral | services/geminiService.ts:77 | parseFloat(t) is the value of the longest prefix of t that is a decimal literal; with no such prefix the result is 0 |
| NumericNormaliser.Multiplier | services/geminiService.ts:51-53 | the scale is a billion exactly when "bi" occurs, a million exactly when "mi" occurs without "bi", and 1 otherwise |
| NumericNormaliser.KeepNumeric | services/geminiService.ts:56 | only digits, ',', '.' and '-' survive the cleaning |
| NumericNormaliser.KeepNumericOne | services/geminiService.ts:56 | a single character survives exactly when it is a digit, ',', '.' or '-' |
| NumericNormaliser.KeepNumericAppend | services/geminiService.ts:56 | the cleaning works character by character: the kept characters of a + b are those of a followed by those of b, in order |
| NumericNormaliser.KeepNumericIgnoresCase | services/geminiService.ts:48-56 | lower-casing before the cleaning changes nothing that the cleaning keeps |
| NumericNormaliser.KeepNumericFromFixed | services/geminiService.ts:56 | text already made of those characters is left unchanged |
| NumericNormaliser.NormaliseSeparators | services/geminiService.ts:58-75 | after the separator rules at most one '.' is left, and no new character kinds appear |
| NumericNormaliser.BrazilianGrouping | services/geminiService.ts:58-75 | digit groups joined by '.', then ',' and decimals, become the groups run together, '.', the decimals, for any number of groups |
| NumericNormaliser.AmericanGrouping | services/geminiService.ts:58-75 | digit groups joined by ',', then '.' and decimals, become the groups run together, '.', the decimals, for any number of groups |
| NumericNormaliser.SpellingsAgree | services/geminiService.ts:58-75 | the Brazilian and the US spelling of one amount normalise to the same text |
| NumericNormaliser.Normalised | services/geminiService.ts:48-75 | the text given to parseFloat has only numeric characters and at most one '.', and it is the separator rules applied to the cleaned text whatever the letter case |
| NumericNormaliser.SeparatorsManyDots | services/geminiService.ts:60-62 | with several dots, the dots are dropped and the first comma becomes the decimal point |
| NumericNormaliser.SeparatorsDotFirst | services/geminiService.ts:63-68 | "1.000,00": the dots are dropped and the comma becomes the decimal point |
| NumericNormaliser.SeparatorsCommaFirst | services/geminiService.ts:69-72 | "1,000.00": the commas are dropped |
| NumericNormaliser.SeparatorsCommaOnly | services/geminiService.ts:73-75 | a lone comma becomes the decimal point |
| NumericNormaliser.SeparatorsNone | services/geminiService.ts:58-75 | text without a comma and with at most one dot is left alone |
| NumericNormaliser.BrazilianExample | services/geminiService.ts:44-78 | "R$ 1.234,56" reads as 1234.56 |
| NumericNormaliser.AmericanExample | services/geminiService.ts:44-78 | "$1,234.56" reads as 1234.56 |
| NumericNormaliser.BillionsExample | services/geminiService.ts:51-52 | "35Bi" reads as 35 billion |
| NumericNormaliser.MillionsExample | services/geminiService.ts:53 | "12.5mi" reads as 12.5 million |
| NumericNormaliser.LongBrazilianExample | services/geminiService.ts:60-62 | "1.234.567,89" reads as 1234567.89 |
| NumericNormaliser.LongAmericanExample | services/geminiService.ts:63-72 | "1,234,567.89" reads as 1234567.89 |
| NumericNormaliser.LoneCommaExample | services/geminiService.ts:73-75 | "12,5" reads as 12.5 |
| NumericNormaliser.CommaGroupsExample | services/geminiService.ts:73-77 | "1,234,567" reads as 1.234, because only its first comma is replaced |
| NumericNormaliser.NoDigitsExamples | services/geminiService.ts:77 | "-", "." and "--5" read as 0 |
| ResponseDecoding.FenceBody | services/geminiService.ts:11 | there is a capture exactly when some "```json" is later closed by "```"; it is the text between the first "```json" and the first "```" at or after its end |
| ResponseDecoding.BracketSpan | services/geminiService.ts:16-19 | a span exists iff an opening character precedes a closing one; it runs from the first opener to the last closer, so no opener lies before it and no closer after it |
| ResponseDecoding.Extract | services/geminiService.ts:8-41 | a non-empty fence body wins and is trimmed; otherwise the bracket span; otherwise the empty document |
| ResponseDecoding.ExtractJson | services/geminiService.ts:8-24 | the trimmed non-empty fence body, else the span from the first '{' to the last '}', else "{}" |
| ResponseDecoding.ExtractJsonArray | services/geminiService.ts:27-41 | the trimmed non-empty fence body, else the span from the first '[' to the last ']', else "[]" |
| ResponseDecoding.FencedReply | services/geminiService.ts:11-14 | a reply whose preamble holds no "```json" and whose non-empty body holds no "```" (and does not end in '`') yields the trimmed body, whatever follows |
| ResponseDecoding.FenceBodyOfFencedReply | services/geminiService.ts:11 | under the same conditions the lazy capture is exactly the body |
| ResponseDecoding.NoFence | services/geminiService.ts:11-12 | a reply without a backtick has no fence |
| ResponseDecoding.BareDocument | services/geminiService.ts:16-18 | a reply that is only the document comes back unchanged |
| ResponseDecoding.NothingToExtract | services/geminiService.ts:20 | with no fence and no opener before a closer, the default is returned |
| ResponseDecoding.EmptyFence | services/geminiService.ts:12-19 | after a preamble without "```json", an empty fence body is falsy, so the bracket rule decides |
| ResponseDecoding.TextOr | services/geminiService.ts:165-170 | a falsy field falls back: the result is the fallback or the field, and is never empty when the fallback is not |
| ResponseDecoding.DecodeHistory | services/geminiService.ts:187-190 | a missing history is empty; otherwise there is one entry per item, with its value parsed |
| ResponseDecoding.Decode | services/geminiService.ts:164-192 | each text field is the reply's when truthy, else the upper-cased request, 'Unknown', 'BRL', 'Geral' or ''; the class is the reply's or ACAO; each of the twelve figures is parseFinancialNumber of the reply's; the history is parsed item by item; the sector metrics are the reply's array, or empty when it is not one |
| ResponseDecoding.DecodeEmptyReply | services/geminiService.ts:164-192 | an empty reply gives the upper-cased request, 'Unknown', ACAO, 'BRL', 'Geral' and zero figures |
| ResponseDecoding.DecodeEncode | services/geminiService.ts:164-192 | decoding a clean record sent as numbers gives the record back |
| ResponseDecoding.DecodeProjection | services/geminiService.ts:247-258 | the text fields pass through and each of the five figures is parseFinancialNumber of the reply's |
| ResponseDecoding.DecodeProjectionEncode | services/geminiService.ts:250-257 | figures sent as numbers come back unchanged |
| ResponseDecoding.DecodeProjectionMissing | services/geminiService.ts:252-254 | a missing net income or share count becomes 0 |
| ResponseDecoding.ChunkUris | services/geminiService.ts:152-161 | a link is collected iff some chunk has a truthy web uri equal to it |
| ResponseDecoding.ChunkUrisOne | services/geminiService.ts:156-160 | a lone chunk contributes its uri when truthy, else nothing |
| ResponseDecoding.ChunkUrisAppend | services/geminiService.ts:156-160 | the links keep the order of their chunks: those of the first chunks come first |
| ResponseDecoding.GroundingUrls | services/geminiService.ts:196 | at most five distinct links, each from a chunk, in first-seen order; every link is kept when fewer than five were found |
| Valuation.DefaultDcfGrowth | components/ValuationDashboard.tsx:17 | the default growth is the 3-year growth capped at 15, or 5 when that growth is not positive |
| Valuation.DefaultParams | components/ValuationDashboard.tsx:12-21 | the default parameters: 22.5, 6%, 2%, 10%, 12%, 10 years and 30% |
| Valuation.DefaultParamsUsable | components/ValuationDashboard.tsx:12-21 | the defaults satisfy what the Bazin, Gordon and DCF formulas need |
| Valuation.GrahamValue | components/ValuationDashboard.tsx:23-26 | 0 unless EPS and BVPS are positive, else the non-negative root of constant*EPS*BVPS |
| Valuation.GrahamPositive | components/ValuationDashboard.tsx:23-26 | the Graham value is positive exactly when EPS and BVPS are |
| Valuation.CardGraham | components/FundamentalCard.tsx:54-57 | the card's Graham price is the root of 22.5*EPS*BVPS, or 0 |
| Valuation.CardGrahamIsDefaultGraham | components/FundamentalCard.tsx:54-57 | the card agrees with the valuation screen at its default constant |
| Valuation.CardGrahamNotAvailable | components/FundamentalCard.tsx:60 | the card shows no upside exactly when EPS or BVPS is not positive |
| Valuation.CardGrahamExample | components/FundamentalCard.tsx:54-57 | EPS 5 and BVPS 20 give a price between 47.43 and 47.44 |
| Valuation.BazinValue | components/ValuationDashboard.tsx:28-31 | 0 without a dividend; otherwise the price at which the dividend yields the target |
| Valuation.GordonValue | components/ValuationDashboard.tsx:33-40 | 0 without a dividend or when return <= growth; otherwise next dividend over (k - g) |
| Valuation.GordonPositive | components/ValuationDashboard.tsx:33-40 | a positive dividend with return above growth gives a positive value |
| Valuation.GordonExample | components/ValuationDashboard.tsx:33-40 | a dividend of 2 at 2% growth and 10% return is worth 25.5 |
| Valuation.TerminalValue | components/ValuationDashboard.tsx:57 | the terminal value times (r - 2%) is the last cash flow grown by 2%, and it is positive for a positive flow when r exceeds 2% |
| Valuation.DcfFormula | components/ValuationDashboard.tsx:42-61 | 0 for a cash flow that is not positive; with no explicit years it is the terminal value of today's flow |
| Valuation.DcfValue | components/ValuationDashboard.tsx:42-61 | the loop computes the closed form: discounted grown cash flows plus the discounted terminal value |
| Valuation.ExplicitYears | components/ValuationDashboard.tsx:52-55 | after the loop the sum is the present value of the explicit years and the cash flow is grown n times |
| Valuation.PresentValueSumFlat | components/ValuationDashboard.tsx:52-55 | when growth equals the discount rate, every year is worth today's cash flow |
| Valuation.DcfPositive | components/ValuationDashboard.tsx:42-61 | positive cash flow, growth above -100% and a discount rate above 2% give a positive value |
| Valuation.Positives | components/ValuationDashboard.tsx:76 | keeps exactly the positive estimates |
| Valuation.PositivesOne | components/ValuationDashboard.tsx:76 | a single estimate is kept exactly when it is positive |
| Valuation.PositivesAppend | components/ValuationDashboard.tsx:76 | the filter distributes over concatenation, so order and repetitions of the positive estimates are kept |
| Valuation.AverageIntrinsic | components/ValuationDashboard.tsx:76-79 | 0 when no estimate is positive, else the positive mean of the positive ones |
| Valuation.AverageAtMostLargest | components/ValuationDashboard.tsx:76-79 | the average never exceeds a bound on all estimates |
| Valuation.AverageIntrinsicExample | components/ValuationDashboard.tsx:76-79 | estimates 0, 20, 0, 0 average to 20, not 5 |
| Valuation.BuyPrice | components/ValuationDashboard.tsx:81 | the average less the buy price is the margin's percentage of the average; the buy price lies between 0 and the average, and is below it exactly when the margin is positive |
| Valuation.Upside | components/ValuationDashboard.tsx:82 | 0 without a value; otherwise the price grown by the upside percentage is the value |
| Valuation.UpsideSign | components/ValuationDashboard.tsx:82 | the upside is positive exactly when the value exceeds the price |
| DividendSimulator.InitialYield | components/DividendSimulator.tsx:12 | the starting yield is the company's, or 6 when that is 0 |
| DividendSimulator.ProjectedDps | components/DividendSimulator.tsx:20-22 | the dividend per share is the price times the yield percentage |
| DividendSimulator.ProjectedDpsYield | components/DividendSimulator.tsx:20-22 | the projected dividend over the price gives back the yield |
| DividendSimulator.MagicNumberShares | components/DividendSimulator.tsx:28-31 | 0 without a dividend; otherwise enough shares to pay 12 monthly targets, and one share fewer is not enough |
| DividendSimulator.MagicNumberSharesLeast | components/DividendSimulator.tsx:28-31 | no smaller share count reaches the target |
| DividendSimulator.Simulate | components/DividendSimulator.tsx:18-33 | the investment is quantity times price, the annual income quantity times the projected dividend, the monthly income a twelfth of it, and the magic-number investment that many shares at the price |
| DividendSimulator.AnnualIncomeIsYieldOnInvestment | components/DividendSimulator.tsx:24-26 | the annual income is the yield applied to the total investment |
| DividendSimulator.MagicNumberReachesTarget | components/DividendSimulator.tsx:28-33 | buying the magic number of shares pays at least the monthly target |
| DividendSimulator.MagicNumberExample | components/DividendSimulator.tsx:20-33 | at 50 with a 10% yield, 2400 shares reach 1000 a month |
| PortfolioAnalysis.GrahamFromMultiples | components/PortfolioAnalysis.tsx:14-19 | 0 without usable multiples; otherwise a root of price^2*22.5/(P/L*P/VP) with the price's sign |
| PortfolioAnalysis.GrahamFromMultiplesIsRoot | components/PortfolioAnalysis.tsx:14-19 | for a non-negative price it is the only non-negative such root |
| PortfolioAnalysis.BazinFromYield | components/PortfolioAnalysis.tsx:21-25 | 0 without a yield; otherwise the price at which the implied dividend yields 6% |
| PortfolioAnalysis.BazinFromYieldIsBazin | components/PortfolioAnalysis.tsx:21-25 | agrees with the valuation screen's Bazin value at a 6% target |
| PortfolioAnalysis.TargetValue | components/PortfolioAnalysis.tsx:70-78 | a stock uses Graham when positive and Bazin otherwise; the other categories use Bazin |
| PortfolioAnalysis.Margin | components/PortfolioAnalysis.tsx:80 | 0 without a positive target; otherwise the price is the target discounted by the margin |
| PortfolioAnalysis.MarginCutoffs | components/PortfolioAnalysis.tsx:90-97 | a margin above 15 means a price under 85% of the target; below -10 means over 110% |
| PortfolioAnalysis.Classify | components/PortfolioAnalysis.tsx:86-102 | each status holds exactly under its condition of the ladder |
| PortfolioAnalysis.Analyse | components/PortfolioAnalysis.tsx:66-102 | one row ties the two fair values, target, margin and status together |
| PortfolioAnalysis.AnalysePortfolio | components/PortfolioAnalysis.tsx:63 | one row per holding, in portfolio order |
| PortfolioAnalysis.StatusByPrice | components/PortfolioAnalysis.tsx:80-102 | for a positive target: buy below 85%, expensive above 110%, wait in between |
| PortfolioAnalysis.NegativeTargetWaits | components/PortfolioAnalysis.tsx:80-102 | a negative target is never 'MANTER': it waits |
| PortfolioAnalysis.ManterWhenNothingToValue | components/PortfolioAnalysis.tsx:66-87 | a priced holding is 'MANTER' exactly when it has no yield and, for a stock, no multiples |
| PortfolioAnalysis.StatusExamples | components/PortfolioAnalysis.tsx:86-97 | 100 against 130 is a buy; 100 against 85 is expensive |
| Holdings.TotalBalance | components/PortfolioDashboard.tsx:118 | the balance of a single holding is its value (with TotalBalanceSnoc and TotalBalanceAppend, the balance is the fold of the values) |
| Holdings.TotalBalanceAppend | components/PortfolioDashboard.tsx:118 | the balance of two lists laid end to end is the sum of their balances |
| Holdings.TotalBalanceNonNegative | components/PortfolioDashboard.tsx:118 | non-negative prices and quantities give a non-negative balance |
| Holdings.Filter | components/PortfolioDashboard.tsx:121 | filtering keeps exactly the holdings that pass, and never grows the list |
| Holdings.FilterAppend | components/PortfolioDashboard.tsx:121 | filtering works piece by piece, so order is kept |
| Holdings.FilterIdempotent | components/PortfolioDashboard.tsx:121 | filtering twice by the same test changes nothing |
| Holdings.PartitionTotal | components/DashboardAnalytics.tsx:37-45 | a test and its opposite share the whole balance |
| Holdings.CategoryItems | components/PortfolioDashboard.tsx:121 | a category table holds exactly the holdings of that category |
| Holdings.CategoryTotalsSum | components/PortfolioDashboard.tsx:121-134 | the four table subtotals add up to the balance |
| PortfolioDashboard.EditHolding | components/PortfolioDashboard.tsx:62-66 | a holding with another ticker is untouched; the matching one takes the new quantity and average price and keeps everything else |
| PortfolioDashboard.EditHoldings | components/PortfolioDashboard.tsx:62-66 | each holding is edited on its own, and the length is kept |
| PortfolioDashboard.SaveEdit | components/PortfolioDashboard.tsx:55-68 | no edit without a ticker or a number; otherwise only the matching holdings change, and only in quantity and average price |
| PortfolioDashboard.SaveEditIdempotent | components/PortfolioDashboard.tsx:55-68 | saving the same edit twice is the same as saving it once |
| PortfolioDashboard.DeleteAsset | components/PortfolioDashboard.tsx:70-74 | unconfirmed does nothing; confirmed keeps exactly the holdings with another ticker |
| PortfolioDashboard.DeleteAssetAppend | components/PortfolioDashboard.tsx:72 | deleting distributes over concatenation, so order is kept |
| PortfolioDashboard.DeleteAssetIdempotent | components/PortfolioDashboard.tsx:72 | deleting a ticker twice is deleting it once |
| PortfolioDashboard.DeleteAbsentTicker | components/PortfolioDashboard.tsx:72 | deleting a ticker the portfolio lacks changes nothing |
| PortfolioDashboard.DeleteAssetTotal | components/PortfolioDashboard.tsx:72 | the balance drops by exactly the value of the deleted holdings |
| PortfolioDashboard.DeleteAfterEdit | components/PortfolioDashboard.tsx:55-74 | deleting after editing the same ticker leaves what deleting alone leaves |
| PortfolioDashboard.MentionsAny | components/PortfolioDashboard.tsx:88 | the case-insensitive test holds iff some keyword occurs in the lower-cased text |
| PortfolioDashboard.IsBdrTicker | components/PortfolioDashboard.tsx:86 | a BDR ticker is one whose last two characters are "33" or "34" |
| PortfolioDashboard.LikelyEtf | components/PortfolioDashboard.tsx:87-88 | the fund looks like an ETF iff a name keyword occurs in the lower-cased name or a description keyword in the lower-cased description |
| PortfolioDashboard.InferCategory | components/PortfolioDashboard.tsx:83-91 | a given class is kept; otherwise tickers ending 33/34 are BDRs, 11 is an ETF iff the keywords match and else a FII, and the rest are stocks |
| PortfolioDashboard.InferCategoryOfDecoded | components/PortfolioDashboard.tsx:83-91 | after decoding the class is always set, so inference yields the reply's class or ACAO |
| PortfolioDashboard.NewItem | components/PortfolioDashboard.tsx:93-105 | the new holding copies ticker and sector, has quantity 1 bought at today's price, takes dy, P/VP, P/L and ROE from the yield, P/B, P/E and ROE of the data, payout 0, and is worth today's price |
| PortfolioDashboard.AddAsset | components/PortfolioDashboard.tsx:76-116 | nothing happens without a ticker or a lookup; otherwise exactly the new holding for the inferred category is appended after the others |
| PortfolioDashboard.AddAssetTotal | components/PortfolioDashboard.tsx:93-107 | adding raises the balance by the new holding's price |
| PortfolioDashboard.AddDecodedAsset | components/PortfolioDashboard.tsx:80-107 | a decoded holding carries the reply's class, or ACAO |
| PortfolioDashboard.BdrExample | components/PortfolioDashboard.tsx:86 | an unclassified AAPL34 is a BDR |
| PortfolioDashboard.StockExample | components/PortfolioDashboard.tsx:83-91 | an unclassified PETR4 is a stock |
| PortfolioDashboard.EtfExample | components/PortfolioDashboard.tsx:87-89 | an unclassified IVVB11 named "S&P 500" is an ETF |
| PortfolioDashboard.FiiExample | components/PortfolioDashboard.tsx:87-89 | an unclassified HGLG11 named "CSHG" is a FII |
| PortfolioDashboard.PriceVar | components/PortfolioDashboard.tsx:149 | the price variation is the percentage change from the average price |
| PortfolioDashboard.RentabReal | components/PortfolioDashboard.tsx:150 | the real return is the quantity times the price difference |
| PortfolioDashboard.RentabRealFollowsPriceVar | components/PortfolioDashboard.tsx:149-150 | for a held position the return and the variation have the same sign |
| PortfolioDashboard.Yoc | components/PortfolioDashboard.tsx:151 | 0 without a yield; otherwise the dividend on today's price over the average price |
| PortfolioDashboard.Share | components/PortfolioDashboard.tsx:152 | the share is the holding's value as a percentage of the balance |
| PortfolioDashboard.NewItemBreaksEven | components/PortfolioDashboard.tsx:93-105 | a new holding starts with no variation and no return |
| PortfolioDashboard.SumSharesScaled | components/PortfolioDashboard.tsx:152 | the shares scaled by the balance add up to 100 times the balance |
| PortfolioDashboard.SharesSumTo100 | components/PortfolioDashboard.tsx:118-152 | with a non-zero balance the shares add up to 100 |
| DashboardAnalytics.ItemDividend | components/DashboardAnalytics.tsx:18-20 | 0 without a yield, else the value times the yield percentage |
| DashboardAnalytics.AnnualDividendsEstimate | components/DashboardAnalytics.tsx:17-21 | the estimate of a single holding is its dividend (with AnnualDividendsSnoc, the fold of the dividends) |
| DashboardAnalytics.AnnualDividendsSnoc | components/DashboardAnalytics.tsx:17-21 | the fold adds each holding's dividend |
| DashboardAnalytics.AnnualDividendsOfYielding | components/DashboardAnalytics.tsx:17-21 | holdings without a yield add nothing |
| DashboardAnalytics.AnnualDividendsAtUniformYield | components/DashboardAnalytics.tsx:16-21 | at one common yield the estimate is that yield on the balance |
| DashboardAnalytics.AnnualDividendsNonNegative | components/DashboardAnalytics.tsx:17-21 | non-negative holdings and yields give a non-negative estimate |
| DashboardAnalytics.AddTo | components/DashboardAnalytics.tsx:30 | a new category key is appended, an old one keeps its place, and the total grows by the value |
| DashboardAnalytics.AddToTotals | components/DashboardAnalytics.tsx:30 | only the entry for the category changes, by the value |
| DashboardAnalytics.Accumulate | components/DashboardAnalytics.tsx:29-33 | no more entries than holdings, and no category twice |
| DashboardAnalytics.AccumulateKeys | components/DashboardAnalytics.tsx:29-33 | the keys are the categories in order of first appearance |
| DashboardAnalytics.AccumulateTotals | components/DashboardAnalytics.tsx:29-33 | each entry is its category's subtotal |
| DashboardAnalytics.AccumulateSum | components/DashboardAnalytics.tsx:29-32 | the entries add up to the balance |
| DashboardAnalytics.TypeView | components/DashboardAnalytics.tsx:29-33 | no more slices than holdings, and no two slices with the same name |
| DashboardAnalytics.TypeViewByCategory | components/DashboardAnalytics.tsx:29-33 | one slice per category in first-seen order, named by the category and worth its subtotal |
| DashboardAnalytics.TypeViewSum | components/DashboardAnalytics.tsx:29-33 | the type slices add up to the balance |
| DashboardAnalytics.TypeViewCoversCategories | components/DashboardAnalytics.tsx:29-33 | every category present gets a slice |
| DashboardAnalytics.AssetView | components/DashboardAnalytics.tsx:35 | one slice per holding, named by ticker and worth its value |
| DashboardAnalytics.AssetViewSum | components/DashboardAnalytics.tsx:35 | the asset slices add up to the balance |
| DashboardAnalytics.IsInternational | components/DashboardAnalytics.tsx:37-39 | BDRs and the six listed foreign-index tickers are foreign |
| DashboardAnalytics.ExposureView | components/DashboardAnalytics.tsx:37-45 | two slices, 'Nacional' then 'Exterior', adding up to the balance |
| DashboardAnalytics.ExposureForeign | components/DashboardAnalytics.tsx:37-45 | the second slice is the balance of the foreign holdings |
| DashboardAnalytics.ExposureDomestic | components/DashboardAnalytics.tsx:42-45 | the first slice is the balance of the domestic holdings |
| DashboardAnalytics.ExposureSum | components/DashboardAnalytics.tsx:42-45 | the two slices add up to the balance |
| DashboardAnalytics.ExposureBounds | components/DashboardAnalytics.tsx:37-45 | with non-negative holdings both sides lie between 0 and the balance |
| DashboardAnalytics.AllocationData | components/DashboardAnalytics.tsx:27-47 | every view adds up to the balance, with one slice per category, per holding, or two |
| DividendProjection.DigitsOnly | components/DividendProjectionTab.tsx:38 | only digits remain, and digit text is unchanged |
| DividendProjection.DigitsOnlyAppend | components/DividendProjectionTab.tsx:38 | stripping works piece by piece |
| DividendProjection.NetIncomeFromInput | components/DividendProjectionTab.tsx:37-41 | the field gives a non-negative amount in whole cents |
| DividendProjection.NetIncomeTyping | components/DividendProjectionTab.tsx:37-41 | typing a digit shifts the amount one place and adds it in cents; any other key changes nothing |
| DividendProjection.SharesFromInput | components/DividendProjectionTab.tsx:43-46 | the share field gives a non-negative whole number, 0 when no digit was typed |
| DividendProjection.GroupThousands | components/DividendProjectionTab.tsx:174 | grouping inserts one '.' per full group of three digits and nothing else |
| DividendProjection.GroupThousandsDigits | components/DividendProjectionTab.tsx:174 | stripping the grouping gives the digits back |
| DividendProjection.FormatCents | components/DividendProjectionTab.tsx:146 | the pt-BR amount has a ',' before two cent digits, and a '-' exactly when negative |
| DividendProjection.FormatCentsRoundTrip | components/DividendProjectionTab.tsx:37-41 | reading back the amount the field shows (line 146) gives its magnitude in cents |
| DividendProjection.RoundCents | components/DividendProjectionTab.tsx:146 | rounding to cents is within half a cent, keeps the sign, keeps whole cents, and sends a half cent away from zero |
| DividendProjection.DisplayNetIncome | components/DividendProjectionTab.tsx:146 | the shown income ends in ',' and two cent digits, and starts with '-' exactly when it is at most minus half a cent |
| DividendProjection.DisplayShares | components/DividendProjectionTab.tsx:174 | the shown share count has only digits and '.', and its digits are those of the count |
| DividendProjection.DisplayNetIncomeRoundTrip | components/DividendProjectionTab.tsx:37-41 | reading back the income the field shows (line 146) gives the rounded magnitude |
| DividendProjection.NetIncomeFieldStable | components/DividendProjectionTab.tsx:37-41 | re-reading the shown value (line 146) of a typed amount gives the same amount |
| DividendProjection.NegativeIncomeLosesSign | components/DividendProjectionTab.tsx:38-39 | -12.5 is shown (line 146) with a '-', and reads back as 12.5 |
| DividendProjection.SharesRoundTrip | components/DividendProjectionTab.tsx:43-46 | a whole share count shown with grouping (line 174) reads back as itself |
| DividendProjection.InitialSimulation | components/DividendProjectionTab.tsx:27-29 | the simulation starts from the reported figures |
| DividendProjection.CalculatedDividend | components/DividendProjectionTab.tsx:48 | 0 without shares; otherwise the payout of the income spread over the shares |
| DividendProjection.CalculatedDividendMonotone | components/DividendProjectionTab.tsx:48 | a larger income never gives a smaller dividend per share |

## Left out

- The calls to the Gemini API, their retries and fallbacks, and `JSON.parse` are left out. Decoding starts from the already-parsed reply.
- `generateDashboardHistory` is left out. Its output is synthetic and random.
- `getMarketOverview` and `generateMockPortfolio` are left out, with their hard-coded fallback lists. They are provider calls. Their per-item mapping reuses `extractJSONArray` and `parseFinancialNumber`, which are modelled, and `Number(x) || 0`, which is not.
- `parseFinancialNumber(NaN)` returns NaN; NaN is not a value of the model.
- `App.tsx`, `MarketTicker`, `LoadingState` and `DividendHistoryChart` are left out. They are presentation only.
- React state, rendering, colours and icons are left out.
- `confirm`/`alert` are left out. The user's answer to `confirm` is the `confirmed` parameter of `PortfolioDashboard.DeleteAsset`.
- A failed lookup in `handleAddAsset` is the `lookup = None` case of `PortfolioDashboard.AddAsset`.
- IEEE 754 doubles, NaN and Infinity are not modelled. Numbers are exact reals, and divisions the source could make by zero are excluded by preconditions.
- `Math.sqrt` is a parameter characterised by `IsSqrt`. `Math.pow` with a whole exponent is the recursive `Pow`.
- Text.ToLower and Text.ToUpper: `toLowerCase`, `toUpperCase` and the `/i` regex flag are modelled as ASCII case mapping; other letters are left as they are. JavaScript also maps non-ASCII letters, so the ticker fallback of `cleanData` (line 165 of `services/geminiService.ts`) turns "ç" into "Ç" and "ß" into "SS" where the model keeps them, and "İ" lower-cases to "i" plus a combining dot, so "35 Bİ" contains "bi" in JavaScript (a billion) but not in the model.
- ResponseDecoding.RawFinancialData: the reply's `assetClass` is modelled as one of the four categories or missing. The request asks for one of "ACAO", "FII", "ETF" or "BDR" (line 111 of `services/geminiService.ts`), but `cleanData` copies any truthy value; another string, such as "STOCK", would match none of the category tables and get a chart slice of its own. That case is not modelled.
- `parseFloat` is modelled only on the characters the cleaning leaves (digits, ',', '.', '-'). Exponents, "Infinity" and leading spaces cannot reach it.
- `parseFloat` of the two edit-form fields is modelled as an `Option<real>` per field, with `None` for NaN.
- `Intl` formatting (`toLocaleString`, `formatCurrency`) is modelled only where a value is read back: the two-decimal net income and the grouped share count.
- DividendProjection.RoundCents: "-0,00" for negative amounts under half a cent is not modelled; the displayed sign follows the rounded value.
- DividendProjection.DisplayShares: only whole share counts are modelled; fractional counts would also show decimals.
- `Number()` of a long digit string loses precision above 2^53; the model reads it exactly.
- The four-decimal display of the dividend per share and the currency displays are not modelled.
- Object key order is modelled as insertion order. That is JavaScript's order for the non-numeric category keys.
