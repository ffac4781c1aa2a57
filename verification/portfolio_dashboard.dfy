/** The portfolio screen (components/PortfolioDashboard.tsx): editing,
    deleting and adding holdings, the category a new holding is filed
    under, and the figures of each table row. */
module PortfolioDashboard {
  import opened Wrappers
  import opened Types
  import opened Text
  import opened Holdings
  import opened RealMath
  import ResponseDecoding

  // ---------------------------------------------------------------------
  // Editing a holding
  // ---------------------------------------------------------------------

  /** One holding once the edit form for `ticker` is saved. */
  function EditHolding(item: PortfolioItem, ticker: string, quantity: real, averagePrice: real): (r: PortfolioItem)
    ensures item.ticker != ticker ==> r == item
    ensures item.ticker == ticker ==> r.quantity == quantity && r.averagePrice == averagePrice
    ensures r.(quantity := item.quantity, averagePrice := item.averagePrice) == item
  {
    if item.ticker == ticker then item.(quantity := quantity, averagePrice := averagePrice) else item
  }

  /** The `prev.map(...)` of `saveEdit`, item by item. */
  function EditHoldings(p: seq<PortfolioItem>, ticker: string, quantity: real, averagePrice: real): (r: seq<PortfolioItem>)
    ensures |r| == |p|
    ensures forall i :: 0 <= i < |p| ==> r[i] == EditHolding(p[i], ticker, quantity, averagePrice)
  {
    if p == [] then []
    else EditHoldings(p[..|p| - 1], ticker, quantity, averagePrice) + [EditHolding(p[|p| - 1], ticker, quantity, averagePrice)]
  }

  /** `saveEdit`: nothing happens without a ticker being edited or when a
      field does not parse (`parseFloat` gave NaN, here `None`); otherwise
      every holding with that ticker takes the new quantity and average
      price, and nothing else changes. */
  function SaveEdit(p: seq<PortfolioItem>, editing: Option<string>, quantity: Option<real>, averagePrice: Option<real>)
    : (r: seq<PortfolioItem>)
    ensures editing.None? || editing.value == "" || quantity.None? || averagePrice.None? ==> r == p
    ensures |r| == |p|
    ensures forall i :: 0 <= i < |p| ==> r[i].ticker == p[i].ticker
    ensures forall i :: 0 <= i < |p| && (editing.None? || p[i].ticker != editing.value) ==> r[i] == p[i]
    ensures editing.Some? && editing.value != "" && quantity.Some? && averagePrice.Some? ==>
              forall i :: 0 <= i < |p| && p[i].ticker == editing.value ==>
                && r[i].quantity == quantity.value
                && r[i].averagePrice == averagePrice.value
                && r[i].(quantity := p[i].quantity, averagePrice := p[i].averagePrice) == p[i]
  {
    if editing.None? || editing.value == "" then p
    else if quantity.None? || averagePrice.None? then p
    else EditHoldings(p, editing.value, quantity.value, averagePrice.value)
  }

  /** Saving the same form twice is the same as saving it once. */
  lemma SaveEditIdempotent(p: seq<PortfolioItem>, editing: Option<string>, quantity: Option<real>, averagePrice: Option<real>)
    ensures SaveEdit(SaveEdit(p, editing, quantity, averagePrice), editing, quantity, averagePrice)
              == SaveEdit(p, editing, quantity, averagePrice)
  {
    var once := SaveEdit(p, editing, quantity, averagePrice);
    var twice := SaveEdit(once, editing, quantity, averagePrice);
    assert forall i :: 0 <= i < |p| ==> twice[i] == once[i];
  }

  // ---------------------------------------------------------------------
  // Deleting a holding
  // ---------------------------------------------------------------------

  /** `p.ticker === ticker`. */
  function HasTicker(ticker: string): (r: PortfolioItem -> bool)
    ensures forall x :: r(x) <==> x.ticker == ticker
  {
    (x: PortfolioItem) => x.ticker == ticker
  }

  /** `deleteAsset`: once the user confirms, every holding with the ticker
      goes and the rest stay. */
  function DeleteAsset(p: seq<PortfolioItem>, ticker: string, confirmed: bool): (r: seq<PortfolioItem>)
    ensures !confirmed ==> r == p
    ensures confirmed ==> forall x :: x in r <==> x in p && x.ticker != ticker
    ensures |r| <= |p|
  {
    if confirmed then Filter(p, Not(HasTicker(ticker))) else p
  }

  /** Deleting works piece by piece, so the holdings left keep their order. */
  lemma DeleteAssetAppend(p: seq<PortfolioItem>, q: seq<PortfolioItem>, ticker: string)
    ensures DeleteAsset(p + q, ticker, true) == DeleteAsset(p, ticker, true) + DeleteAsset(q, ticker, true)
  {
    FilterAppend(p, q, Not(HasTicker(ticker)));
  }

  /** Deleting a ticker twice is deleting it once. */
  lemma DeleteAssetIdempotent(p: seq<PortfolioItem>, ticker: string)
    ensures DeleteAsset(DeleteAsset(p, ticker, true), ticker, true) == DeleteAsset(p, ticker, true)
  {
    FilterIdempotent(p, Not(HasTicker(ticker)));
  }

  /** Deleting a ticker the portfolio does not hold changes nothing. */
  lemma DeleteAbsentTicker(p: seq<PortfolioItem>, ticker: string)
    requires forall i :: 0 <= i < |p| ==> p[i].ticker != ticker
    ensures DeleteAsset(p, ticker, true) == p
  {
    FilterKeepsAll(p, Not(HasTicker(ticker)));
  }

  /** The balance falls by exactly the value of the holdings deleted. */
  lemma DeleteAssetTotal(p: seq<PortfolioItem>, ticker: string)
    ensures TotalBalance(DeleteAsset(p, ticker, true)) == TotalBalance(p) - TotalBalance(Filter(p, HasTicker(ticker)))
  {
    PartitionTotal(p, HasTicker(ticker));
  }

  /** An edit followed by deleting the edited ticker leaves what deleting
      alone leaves: the edit touched nothing else. */
  lemma {:induction false} DeleteAfterEdit(p: seq<PortfolioItem>, ticker: string, quantity: real, averagePrice: real)
    ensures DeleteAsset(EditHoldings(p, ticker, quantity, averagePrice), ticker, true) == DeleteAsset(p, ticker, true)
    decreases |p|
  {
    if p != [] {
      var init, last := p[..|p| - 1], p[|p| - 1];
      var edited := EditHoldings(init, ticker, quantity, averagePrice);
      DeleteAfterEdit(init, ticker, quantity, averagePrice);
      assert p == init + [last];
      assert EditHoldings(p, ticker, quantity, averagePrice) == edited + [EditHolding(last, ticker, quantity, averagePrice)];
      FilterSnoc(edited, EditHolding(last, ticker, quantity, averagePrice), Not(HasTicker(ticker)));
      FilterSnoc(init, last, Not(HasTicker(ticker)));
    }
  }

  // ---------------------------------------------------------------------
  // Adding a holding
  // ---------------------------------------------------------------------

  /** The words that mark a fund ending in "11" as an ETF: `/ETF|Index|Indice|Gold|S&P|Small/i`
      on the name and `/ETF|Index/i` on the description, in lower case. */
  const NameKeywords: seq<string> := ["etf", "index", "indice", "gold", "s&p", "small"]
  const DescriptionKeywords: seq<string> := ["etf", "index"]

  /** Whether one of `keywords` occurs in `lower`. */
  function MentionsAny(lower: string, keywords: seq<string>): (b: bool)
    ensures b <==> exists k :: 0 <= k < |keywords| && Contains(lower, keywords[k])
  {
    if keywords == [] then false
    else Contains(lower, keywords[0]) || MentionsAny(lower, keywords[1..])
  }

  /** A case-insensitive regular-expression test of a list of ASCII words is
      a search of the lower-cased text: some name keyword occurs somewhere in
      the lower-cased name, or some description keyword in the description. */
  function LikelyEtf(name: string, description: string): (b: bool)
    ensures b <==>
              || (exists k, i: nat :: 0 <= k < |NameKeywords| && OccursAt(ToLower(name), NameKeywords[k], i))
              || (exists k, i: nat :: 0 <= k < |DescriptionKeywords| && OccursAt(ToLower(description), DescriptionKeywords[k], i))
  {
    MentionsAny(ToLower(name), NameKeywords) || MentionsAny(ToLower(description), DescriptionKeywords)
  }

  /** The ticker ends in "33" or "34". */
  function IsBdrTicker(ticker: string): (b: bool)
    ensures b <==> |ticker| >= 2 && ticker[|ticker| - 2] == '3' && (ticker[|ticker| - 1] == '3' || ticker[|ticker| - 1] == '4')
  {
    EndsWithPair(ticker, '3', '3');
    EndsWithPair(ticker, '3', '4');
    EndsWith(ticker, "33") || EndsWith(ticker, "34")
  }

  /** A two-character suffix test reads the last two characters. */
  lemma EndsWithPair(s: string, a: char, b: char)
    ensures EndsWith(s, [a, b]) <==> |s| >= 2 && s[|s| - 2] == a && s[|s| - 1] == b
  {
    var n := |s|;
    if n >= 2 {
      OccursAtSlice(s, [a, b], n - 2);
      assert s[n - 2..n] == [s[n - 2], s[n - 1]];
    }
  }

  /** The category of `handleAddAsset`: the one the data names, else BDR for
      a ticker ending in 33 or 34, ETF or FII for one ending in 11, and a
      stock (ACAO) for anything else. */
  function InferCategory(data: FinancialData): (c: AssetCategory)
    ensures data.assetClass.Some? ==> c == data.assetClass.value
    ensures data.assetClass.None? ==> (c == Bdr <==> IsBdrTicker(data.ticker))
    ensures data.assetClass.None? ==>
              (c == Etf <==> !IsBdrTicker(data.ticker) && EndsWith(data.ticker, "11") && LikelyEtf(data.name, data.description))
    ensures data.assetClass.None? ==>
              (c == Fii <==> !IsBdrTicker(data.ticker) && EndsWith(data.ticker, "11") && !LikelyEtf(data.name, data.description))
    ensures data.assetClass.None? ==>
              (c == Acao <==> !IsBdrTicker(data.ticker) && !EndsWith(data.ticker, "11"))
  {
    if data.assetClass.Some? then data.assetClass.value
    else if IsBdrTicker(data.ticker) then Bdr
    else if EndsWith(data.ticker, "11") then
      if LikelyEtf(data.name, data.description) then Etf else Fii
    else Acao
  }

  /** The decoder always fills in the asset class, so on its output the
      suffix rules never apply: the holding gets the class the reply named,
      or ACAO. */
  lemma InferCategoryOfDecoded(raw: ResponseDecoding.RawFinancialData, request: string)
    ensures InferCategory(ResponseDecoding.Decode(raw, request)) == raw.assetClass.GetOr(Acao)
  {
  }

  /** The record `handleAddAsset` appends. */
  function NewItem(data: FinancialData, category: AssetCategory): (r: PortfolioItem)
    ensures r.ticker == data.ticker && r.category == category && r.sector == Some(data.sector)
    ensures r.quantity == 1.0 && r.averagePrice == r.currentPrice == data.currentPrice
    ensures r.dy == Some(data.dividendYield) && r.pvp == Some(data.pbRatio) && r.pl == Some(data.peRatio)
    ensures r.roe == Some(data.roe) && r.payout == Some(0.0)
    ensures Value(r) == data.currentPrice
  {
    PortfolioItem(
      ticker := data.ticker,
      category := category,
      sector := Some(data.sector),
      quantity := 1.0,
      averagePrice := data.currentPrice,
      currentPrice := data.currentPrice,
      dy := Some(data.dividendYield),
      pvp := Some(data.pbRatio),
      pl := Some(data.peRatio),
      roe := Some(data.roe),
      payout := Some(0.0))
  }

  /** `handleAddAsset`: nothing happens for an empty ticker or when the
      lookup fails (`None`); otherwise one share bought at today's price is
      appended after the existing holdings. */
  function AddAsset(p: seq<PortfolioItem>, request: string, lookup: Option<FinancialData>): (r: seq<PortfolioItem>)
    ensures request == "" || lookup.None? ==> r == p
    ensures request != "" && lookup.Some? ==>
              && |r| == |p| + 1 && r[..|p|] == p
              && r[|p|] == NewItem(lookup.value, InferCategory(lookup.value))
              && r[|p|].ticker == lookup.value.ticker
              && r[|p|].category == InferCategory(lookup.value)
              && r[|p|].quantity == 1.0 && r[|p|].payout == Some(0.0)
              && r[|p|].averagePrice == r[|p|].currentPrice == lookup.value.currentPrice
  {
    if request == "" then p
    else
      match lookup
      case None => p
      case Some(data) => p + [NewItem(data, InferCategory(data))]
  }

  /** Adding a holding raises the balance by one share at today's price. */
  lemma AddAssetTotal(p: seq<PortfolioItem>, request: string, data: FinancialData)
    requires request != ""
    ensures TotalBalance(AddAsset(p, request, Some(data))) == TotalBalance(p) + data.currentPrice
  {
    TotalBalanceSnoc(p, NewItem(data, InferCategory(data)));
  }

  /** A holding added from a decoded reply is filed under the class the
      reply named, or ACAO. */
  lemma AddDecodedAsset(p: seq<PortfolioItem>, request: string, raw: ResponseDecoding.RawFinancialData)
    requires request != ""
    ensures var r := AddAsset(p, request, Some(ResponseDecoding.Decode(raw, request)));
            r[|p|].category == raw.assetClass.GetOr(Acao)
  {
    InferCategoryOfDecoded(raw, request);
  }

  // ---------------------------------------------------------------------
  // Category examples
  // ---------------------------------------------------------------------

  function Unclassified(ticker: string, name: string): FinancialData {
    FinancialData(ticker, name, None, "BRL", 10.0, "", "", 0.0, 0.0, 0.0, 0.0, 0.0, 0.0, 0.0, 0.0, 0.0, [], [], 0.0, 0.0)
  }

  lemma BdrExample()
    ensures InferCategory(Unclassified("AAPL34", "Apple")) == Bdr
  {
    assert "AAPL34"[4..6] == "34";
  }

  lemma StockExample()
    ensures InferCategory(Unclassified("PETR4", "Petrobras")) == Acao
  {
    assert "PETR4"[3] == 'R';
  }

  lemma EtfExample()
    ensures InferCategory(Unclassified("IVVB11", "S&P 500")) == Etf
  {
    FundSuffix();
    SandPMentioned();
  }

  lemma FundSuffix()
    ensures EndsWith("IVVB11", "11") && !IsBdrTicker("IVVB11")
  {
    assert "IVVB11"[4] == '1';
  }

  lemma SandPMentioned()
    ensures LikelyEtf("S&P 500", "")
  {
    LowerWithoutCapitalsExample();
    assert OccursAt("s&p 500", NameKeywords[4], 0);
    assert Contains("s&p 500", NameKeywords[4]);
  }

  lemma FiiExample()
    ensures InferCategory(Unclassified("HGLG11", "CSHG")) == Fii
  {
    assert "HGLG11"[4] == '1';
    LowerMatches("CSHG", "cshg");
    NotMentioned("cshg");
  }

  /** A short name with none of the fund words. */
  lemma NotMentioned(lower: string)
    requires lower == "cshg"
    ensures !MentionsAny(lower, NameKeywords) && !MentionsAny(ToLower(""), DescriptionKeywords)
  {
    assert lower[0] == 'c' && lower[3] == 'g';
    assert !OccursAt(lower, "gold", 0);
  }

  lemma LowerWithoutCapitalsExample()
    ensures ToLower("S&P 500") == "s&p 500"
  {
    LowerMatches("S&P 500", "s&p 500");
  }

  // ---------------------------------------------------------------------
  // Figures of a table row
  // ---------------------------------------------------------------------

  /** `priceVar`: the change of the price against the average price, in percent. */
  function PriceVar(item: PortfolioItem): (r: real)
    requires item.averagePrice != 0.0
    ensures r * item.averagePrice == (item.currentPrice - item.averagePrice) * 100.0
  {
    (item.currentPrice - item.averagePrice) / item.averagePrice * 100.0
  }

  /** `rentabReal`: the balance less what was paid. */
  function RentabReal(item: PortfolioItem): (r: real)
    ensures r == item.quantity * (item.currentPrice - item.averagePrice)
  {
    Value(item) - item.averagePrice * item.quantity
  }

  /** The realised return and the price change agree in sign for a holding
      bought at a positive price. */
  lemma RentabRealFollowsPriceVar(item: PortfolioItem)
    requires item.averagePrice > 0.0 && item.quantity > 0.0
    ensures RentabReal(item) > 0.0 <==> PriceVar(item) > 0.0
    ensures RentabReal(item) == 0.0 <==> PriceVar(item) == 0.0
  {
    var d := item.currentPrice - item.averagePrice;
    var v := PriceVar(item);
    assert v * item.averagePrice == d * 100.0;
    if d > 0.0 {
      assert item.quantity * d > 0.0;
      assert v > 0.0;
    } else if d < 0.0 {
      assert item.quantity * d < 0.0;
      assert v < 0.0;
    } else {
      assert v * item.averagePrice == 0.0;
    }
  }

  /** `yoc`: the yield on what was paid, 0 without a yield. */
  function Yoc(item: PortfolioItem): (r: real)
    requires HasYield(item.dy) ==> item.averagePrice != 0.0
    ensures !HasYield(item.dy) ==> r == 0.0
    ensures HasYield(item.dy) ==> r * item.averagePrice == item.currentPrice * item.dy.value
  {
    if !HasYield(item.dy) then 0.0
    else item.currentPrice * (item.dy.value / 100.0) / item.averagePrice * 100.0
  }

  /** `share`: the holding's part of the balance, in percent. */
  function Share(item: PortfolioItem, total: real): (r: real)
    requires total != 0.0
    ensures r * total == Value(item) * 100.0
  {
    Value(item) / total * 100.0
  }

  /** A newly added holding shows no gain, no price change, and a yield on
      cost equal to its yield. */
  lemma NewItemBreaksEven(data: FinancialData, category: AssetCategory)
    requires data.currentPrice != 0.0
    ensures var item := NewItem(data, category);
            && RentabReal(item) == 0.0
            && PriceVar(item) == 0.0
            && Yoc(item) == if data.dividendYield != 0.0 then data.dividendYield else 0.0
  {
    var item := NewItem(data, category);
    var v := PriceVar(item);
    assert v * data.currentPrice == 0.0;
    if data.dividendYield != 0.0 {
      var y := Yoc(item);
      assert y * data.currentPrice == data.currentPrice * data.dividendYield;
      assert (y - data.dividendYield) * data.currentPrice == 0.0;
    }
  }

  /** The `share` column summed over a list of rows. */
  function SumShares(p: seq<PortfolioItem>, total: real): real
    requires total != 0.0
  {
    if p == [] then 0.0 else SumShares(p[..|p| - 1], total) + Share(p[|p| - 1], total)
  }

  lemma {:induction false} SumSharesScaled(p: seq<PortfolioItem>, total: real)
    requires total != 0.0
    ensures SumShares(p, total) * total == TotalBalance(p) * 100.0
    decreases |p|
  {
    if p != [] {
      var init, last := p[..|p| - 1], p[|p| - 1];
      SumSharesScaled(init, total);
      var a, b := SumShares(init, total), Share(last, total);
      assert (a + b) * total == a * total + b * total;
    }
  }

  /** With a non-zero balance the `% Carteira` column adds up to 100. */
  lemma SharesSumTo100(p: seq<PortfolioItem>)
    requires TotalBalance(p) != 0.0
    ensures SumShares(p, TotalBalance(p)) == 100.0
  {
    var t := TotalBalance(p);
    var s := SumShares(p, t);
    SumSharesScaled(p, t);
    CancelFactor(s, 100.0, t);
  }
}
