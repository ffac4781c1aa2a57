/** Turning the language model's reply into dashboard records
    (services/geminiService.ts): cutting the JSON text out of the reply,
    filling in defaults for missing fields, and collecting the grounding
    links. `JSON.parse` itself is not modelled: decoding starts from the
    record it produced, each field either missing or holding a value. */
module ResponseDecoding {
  import opened Wrappers
  import opened Text
  import opened Types
  import opened NumericNormaliser
  import opened Sequences

  // ---------------------------------------------------------------------
  // Extracting the JSON text
  // ---------------------------------------------------------------------

  const Fence: string := "```json"
  const FenceEnd: string := "```"

  /** `k` is where `pat` first occurs in `text` at or after `from`. */
  ghost predicate FirstFrom(text: string, pat: string, from: nat, k: nat) {
    from <= k && OccursAt(text, pat, k) && forall j :: from <= j < k ==> !OccursAt(text, pat, j)
  }

  /** Some "```json" is followed, at or after its end, by a "```". */
  ghost predicate HasFence(text: string) {
    exists o: nat, c: nat :: OccursAt(text, Fence, o) && o + |Fence| <= c && OccursAt(text, FenceEnd, c)
  }

  /** The fence the regular expression matches opens at `o` (the first
      "```json") and closes at `c` (the first "```" after it). */
  ghost predicate FenceAt(text: string, o: nat, c: nat) {
    FirstFrom(text, Fence, 0, o) && FirstFrom(text, FenceEnd, o + |Fence|, c)
  }

  /** The capture group of `/```json([\s\S]*?)```/`: the text between the
      first "```json" and the first "```" after it; there is one exactly
      when some "```json" is closed. */
  function FenceBody(text: string): (r: Option<string>)
    ensures r.Some? <==> HasFence(text)
    ensures r.Some? ==> exists o: nat, c: nat :: FenceAt(text, o, c) && r.value == text[o + |Fence|..c]
    ensures r.Some? ==> IsSubstring(r.value, text)
  {
    match IndexOf(text, Fence, 0)
    case None => None
    case Some(open) =>
      match IndexOf(text, FenceEnd, open + |Fence|)
      case None => None
      case Some(close) =>
        assert FenceAt(text, open, close);
        OccursAtSlice(text, text[open + |Fence|..close], open + |Fence|);
        Some(text[open + |Fence|..close])
  }

  /** The match of `/\{[\s\S]*\}/` (or `/\[[\s\S]*\]/`): from the first
      opening character to the last closing one, when the latter comes later. */
  function BracketSpan(text: string, open: char, close: char): (r: Option<string>)
    ensures r.Some? <==> exists i, j :: 0 <= i < j < |text| && text[i] == open && text[j] == close
    ensures r.Some? ==> exists i: nat, k: nat :: i < k <= |text| && r.value == text[i..k]
                          && open !in text[..i] && close !in text[k..]
    ensures r.Some? ==> |r.value| >= 2 && r.value[0] == open && r.value[|r.value| - 1] == close
    ensures r.Some? ==> IsSubstring(r.value, text)
  {
    var first := IndexOfChar(text, open, 0);
    var last := LastIndexOfChar(text, close, |text|);
    if first.Some? && last.Some? && first.value < last.value then
      assert open !in text[..first.value];
      assert close !in text[last.value + 1..];
      OccursAtSlice(text, text[first.value..last.value + 1], first.value);
      Some(text[first.value..last.value + 1])
    else
      None
  }

  /** `extractJSON` / `extractJSONArray`: the trimmed body of a non-empty
      fence, else the bracketed span, else the empty document `default`. */
  function Extract(text: string, open: char, close: char, default: string): (r: string)
    ensures FenceBody(text).Some? && FenceBody(text).value != "" ==> r == Trim(FenceBody(text).value)
    ensures !(FenceBody(text).Some? && FenceBody(text).value != "") ==>
              r == BracketSpan(text, open, close).GetOr(default)
    ensures r == default || IsSubstring(r, text)
  {
    var body := FenceBody(text);
    if body.Some? && body.value != "" then
      SubstringTransitive(Trim(body.value), body.value, text);
      Trim(body.value)
    else
      match BracketSpan(text, open, close)
      case Some(span) => span
      case None => default
  }

  function ExtractJson(text: string): (r: string)
    ensures FenceBody(text).Some? && FenceBody(text).value != "" ==> r == Trim(FenceBody(text).value)
    ensures !(FenceBody(text).Some? && FenceBody(text).value != "") ==>
              r == BracketSpan(text, '{', '}').GetOr("{}")
    ensures r == "{}" || IsSubstring(r, text)
  {
    Extract(text, '{', '}', "{}")
  }

  function ExtractJsonArray(text: string): (r: string)
    ensures FenceBody(text).Some? && FenceBody(text).value != "" ==> r == Trim(FenceBody(text).value)
    ensures !(FenceBody(text).Some? && FenceBody(text).value != "") ==>
              r == BracketSpan(text, '[', ']').GetOr("[]")
    ensures r == "[]" || IsSubstring(r, text)
  {
    Extract(text, '[', ']', "[]")
  }

  /** An occurrence of a pattern that starts with '`' sits on a '`'. */
  lemma OccurrenceOnBacktick(text: string, pat: string, k: nat)
    requires |pat| > 0 && pat[0] == '`' && OccursAt(text, pat, k)
    ensures k < |text| && text[k] == '`'
  {
    OccursAtSlice(text, pat, k);
    assert text[k..k + |pat|][0] == pat[0];
  }

  /** The first occurrence at or after `from` is the one `IndexOf` finds. */
  lemma IndexOfFirst(text: string, pat: string, from: nat, at: nat)
    requires FirstFrom(text, pat, from, at)
    ensures IndexOf(text, pat, from) == Some(at)
  {
  }

  /** An occurrence lying wholly inside a copy of `piece` would be an
      occurrence in `piece`. */
  lemma NotInside(text: string, pat: string, piece: string, off: nat, j: nat)
    requires off + |piece| <= |text| && text[off..off + |piece|] == piece
    requires !Contains(piece, pat)
    requires off <= j && j + |pat| <= off + |piece|
    ensures !OccursAt(text, pat, j)
  {
    OccursAtSlice(text, pat, j);
    OccursAtSlice(piece, pat, j - off);
    forall t | j <= t < j + |pat| ensures text[t] == piece[t - off] {
      assert text[off..off + |piece|][t - off] == text[t];
    }
    assert text[j..j + |pat|] == piece[j - off..j - off + |pat|];
  }

  /** A text is a fenced reply: a preamble with no "```json", the fence, a
      body that neither holds "```" nor ends with '`', and the closing. */
  predicate FencedParts(pre: string, body: string)
  {
    && !Contains(pre, Fence)
    && !Contains(body, FenceEnd) && (body == [] || body[|body| - 1] != '`')
  }

  lemma FenceBodyOfFencedReply(pre: string, body: string, post: string)
    requires FencedParts(pre, body)
    ensures FenceBody(pre + Fence + body + FenceEnd + post) == Some(body)
  {
    var text := pre + Fence + body + FenceEnd + post;
    FenceOpensAfter(text, pre, body, post);
    FenceClosesAfter(text, pre, body, post);
  }

  /** In a fenced reply the first "```json" follows the preamble: one
      starting inside the preamble would end in the preamble or end on the
      fence's 'n', which "```jso" does not hold. */
  lemma FenceOpensAfter(text: string, pre: string, body: string, post: string)
    requires !Contains(pre, Fence) && text == pre + Fence + body + FenceEnd + post
    ensures IndexOf(text, Fence, 0) == Some(|pre|)
  {
    assert text[|pre|..|pre| + |Fence|] == Fence;
    OccursAtSlice(text, Fence, |pre|);
    assert text[0..|pre|] == pre;
    forall j | 0 <= j < |pre| ensures !OccursAt(text, Fence, j) {
      if j + |Fence| <= |pre| {
        NotInside(text, Fence, pre, 0, j);
      } else {
        OccursAtSlice(text, Fence, j);
        assert text[j + 6] == Fence[j + 6 - |pre|];
      }
    }
    IndexOfFirst(text, Fence, 0, |pre|);
  }

  /** In a fenced reply the first "```" after the opening follows the body,
      and what lies between is the body. */
  lemma FenceClosesAfter(text: string, pre: string, body: string, post: string)
    requires !Contains(body, FenceEnd) && (body == [] || body[|body| - 1] != '`')
    requires text == pre + Fence + body + FenceEnd + post
    ensures var start := |pre| + |Fence|;
            && IndexOf(text, FenceEnd, start) == Some(start + |body|)
            && text[start..start + |body|] == body
  {
    var start := |pre| + |Fence|;
    var end := start + |body|;
    assert text[end..end + |FenceEnd|] == FenceEnd;
    OccursAtSlice(text, FenceEnd, end);
    assert text[start..end] == body;
    forall j | start <= j < end ensures !OccursAt(text, FenceEnd, j) {
      if j + |FenceEnd| <= end {
        NotInside(text, FenceEnd, body, start, j);
      } else {
        OccursAtSlice(text, FenceEnd, j);
        assert text[end - 1] == body[|body| - 1];
        assert text[end - 1] == text[j..j + |FenceEnd|][end - 1 - j];
      }
    }
    IndexOfFirst(text, FenceEnd, start, end);
  }

  /** A reply that wraps a non-empty body in a ```json fence yields the
      trimmed body, whatever follows the fence. */
  lemma FencedReply(pre: string, body: string, post: string, open: char, close: char, default: string)
    requires FencedParts(pre, body) && body != ""
    ensures Extract(pre + Fence + body + FenceEnd + post, open, close, default) == Trim(body)
  {
    FenceBodyOfFencedReply(pre, body, post);
  }

  /** Without a '`' there is no fence. */
  lemma NoFence(text: string)
    requires '`' !in text
    ensures FenceBody(text) == None
  {
    if IndexOf(text, Fence, 0).Some? {
      OccurrenceOnBacktick(text, Fence, IndexOf(text, Fence, 0).value);
    }
  }

  /** A reply that is nothing but the document comes back unchanged. */
  lemma BareDocument(text: string, open: char, close: char, default: string)
    requires '`' !in text && |text| >= 2 && text[0] == open && text[|text| - 1] == close
    ensures Extract(text, open, close, default) == text
  {
    NoFence(text);
    assert text[0..|text|] == text;
  }

  /** With neither a fence nor an opening character before a closing one,
      the result is the empty document. */
  lemma NothingToExtract(text: string, open: char, close: char, default: string)
    requires '`' !in text
    requires forall i, j :: 0 <= i < j < |text| ==> text[i] != open || text[j] != close
    ensures Extract(text, open, close, default) == default
  {
    NoFence(text);
  }

  /** An empty fence is skipped and the bracket rule decides. */
  lemma EmptyFence(pre: string, post: string, open: char, close: char, default: string)
    requires !Contains(pre, Fence)
    ensures var text := pre + Fence + FenceEnd + post;
            Extract(text, open, close, default) == BracketSpan(text, open, close).GetOr(default)
  {
    assert FencedParts(pre, "");
    FenceBodyOfFencedReply(pre, "", post);
    assert pre + Fence + "" + FenceEnd + post == pre + Fence + FenceEnd + post;
  }

  // ---------------------------------------------------------------------
  // Decoding the parsed record
  // ---------------------------------------------------------------------

  /** A field `JSON.parse` produced that ought to be an array: either it is
      one, or it is something else (missing, a string, an object). */
  datatype RawList<T> = NotAList | List(items: seq<T>)

  /** A dividend entry as the provider wrote it; its value may be text. */
  datatype RawHistoryItem = RawHistoryItem(month: string, value: RawValue, kind: Option<string>)

  /** The parsed reply of the analysis request.  A text field is `None` when
      it is missing; `assetClass` is one of the four categories when present. */
  datatype RawFinancialData = RawFinancialData(
    ticker: Option<string>,
    name: Option<string>,
    assetClass: Option<AssetCategory>,
    currency: Option<string>,
    sector: Option<string>,
    description: Option<string>,
    currentPrice: RawValue,
    eps: RawValue,
    bvps: RawValue,
    dividendYield: RawValue,
    peRatio: RawValue,
    pbRatio: RawValue,
    roe: RawValue,
    debtToEquity: RawValue,
    netMargin: RawValue,
    lastDividend: RawValue,
    freeCashFlowPerShare: RawValue,
    revenueGrowth3y: RawValue,
    dividendHistory: RawList<RawHistoryItem>,
    sectorMetrics: RawList<SectorMetric>)

  /** `field || fallback` on a text field: a missing or empty text is falsy. */
  function TextOr(field: Option<string>, fallback: string): (r: string)
    ensures r == fallback || (field.Some? && r == field.value)
    ensures fallback != "" ==> r != ""
  {
    if field.Some? && field.value != "" then field.value else fallback
  }

  function DecodeHistoryItem(item: RawHistoryItem): DividendHistoryItem {
    DividendHistoryItem(item.month, ParseFinancialNumber(item.value), item.kind)
  }

  function DecodeHistory(history: RawList<RawHistoryItem>): (r: seq<DividendHistoryItem>)
    ensures history.NotAList? ==> r == []
    ensures history.List? ==>
              && |r| == |history.items|
              && forall i :: 0 <= i < |r| ==>
                   && r[i].month == history.items[i].month
                   && r[i].kind == history.items[i].kind
                   && r[i].value == ParseFinancialNumber(history.items[i].value)
  {
    match history
    case NotAList => []
    case List(items) => seq(|items|, i requires 0 <= i < |items| => DecodeHistoryItem(items[i]))
  }

  /** The `cleanData` record `analyzeTicker` builds for the ticker `request`. */
  function Decode(raw: RawFinancialData, request: string): (r: FinancialData)
    ensures r.ticker == TextOr(raw.ticker, ToUpper(request))
    ensures r.name == TextOr(raw.name, "Unknown")
    ensures r.currency == TextOr(raw.currency, "BRL")
    ensures r.sector == TextOr(raw.sector, "Geral")
    ensures r.description == TextOr(raw.description, "")
    ensures r.assetClass == Some(raw.assetClass.GetOr(Acao))
    ensures request != "" ==> r.ticker != ""
    ensures r.name != "" && r.currency != "" && r.sector != ""
    ensures && r.currentPrice == ParseFinancialNumber(raw.currentPrice)
            && r.eps == ParseFinancialNumber(raw.eps)
            && r.bvps == ParseFinancialNumber(raw.bvps)
            && r.dividendYield == ParseFinancialNumber(raw.dividendYield)
            && r.peRatio == ParseFinancialNumber(raw.peRatio)
            && r.pbRatio == ParseFinancialNumber(raw.pbRatio)
            && r.roe == ParseFinancialNumber(raw.roe)
            && r.debtToEquity == ParseFinancialNumber(raw.debtToEquity)
            && r.netMargin == ParseFinancialNumber(raw.netMargin)
            && r.lastDividend == ParseFinancialNumber(raw.lastDividend)
            && r.freeCashFlowPerShare == ParseFinancialNumber(raw.freeCashFlowPerShare)
            && r.revenueGrowth3y == ParseFinancialNumber(raw.revenueGrowth3y)
    ensures r.dividendHistory == DecodeHistory(raw.dividendHistory)
    ensures raw.sectorMetrics.List? ==> r.sectorMetrics == raw.sectorMetrics.items
    ensures raw.sectorMetrics.NotAList? ==> r.sectorMetrics == []
  {
    FinancialData(
      ticker := TextOr(raw.ticker, ToUpper(request)),
      name := TextOr(raw.name, "Unknown"),
      assetClass := Some(raw.assetClass.GetOr(Acao)),
      currency := TextOr(raw.currency, "BRL"),
      currentPrice := ParseFinancialNumber(raw.currentPrice),
      sector := TextOr(raw.sector, "Geral"),
      description := TextOr(raw.description, ""),
      eps := ParseFinancialNumber(raw.eps),
      bvps := ParseFinancialNumber(raw.bvps),
      dividendYield := ParseFinancialNumber(raw.dividendYield),
      peRatio := ParseFinancialNumber(raw.peRatio),
      pbRatio := ParseFinancialNumber(raw.pbRatio),
      roe := ParseFinancialNumber(raw.roe),
      debtToEquity := ParseFinancialNumber(raw.debtToEquity),
      netMargin := ParseFinancialNumber(raw.netMargin),
      lastDividend := ParseFinancialNumber(raw.lastDividend),
      dividendHistory := DecodeHistory(raw.dividendHistory),
      sectorMetrics := match raw.sectorMetrics case List(items) => items case NotAList => [],
      freeCashFlowPerShare := ParseFinancialNumber(raw.freeCashFlowPerShare),
      revenueGrowth3y := ParseFinancialNumber(raw.revenueGrowth3y))
  }

  /** A reply with every field missing. */
  const EmptyReply: RawFinancialData := RawFinancialData(
    None, None, None, None, None, None,
    Absent, Absent, Absent, Absent, Absent, Absent, Absent, Absent, Absent, Absent, Absent, Absent,
    NotAList, NotAList)

  /** The defaults: the upper-cased request, 'Unknown', a stock, 'BRL',
      'Geral', an empty description, zeros and empty lists. */
  lemma DecodeEmptyReply(request: string)
    ensures var d := Decode(EmptyReply, request);
            && d.ticker == ToUpper(request) && d.name == "Unknown" && d.assetClass == Some(Acao)
            && d.currency == "BRL" && d.sector == "Geral" && d.description == ""
            && d.currentPrice == 0.0 && d.eps == 0.0 && d.bvps == 0.0 && d.dividendYield == 0.0
            && d.peRatio == 0.0 && d.pbRatio == 0.0 && d.roe == 0.0 && d.debtToEquity == 0.0
            && d.netMargin == 0.0 && d.lastDividend == 0.0 && d.freeCashFlowPerShare == 0.0
            && d.revenueGrowth3y == 0.0 && d.dividendHistory == [] && d.sectorMetrics == []
  {
  }

  /** The reply a provider that already writes clean data would send. */
  function Encode(d: FinancialData): RawFinancialData {
    RawFinancialData(
      Some(d.ticker), Some(d.name), d.assetClass, Some(d.currency), Some(d.sector), Some(d.description),
      Num(d.currentPrice), Num(d.eps), Num(d.bvps), Num(d.dividendYield), Num(d.peRatio), Num(d.pbRatio),
      Num(d.roe), Num(d.debtToEquity), Num(d.netMargin), Num(d.lastDividend),
      Num(d.freeCashFlowPerShare), Num(d.revenueGrowth3y),
      List(seq(|d.dividendHistory|, i requires 0 <= i < |d.dividendHistory| =>
        RawHistoryItem(d.dividendHistory[i].month, Num(d.dividendHistory[i].value), d.dividendHistory[i].kind))),
      List(d.sectorMetrics))
  }

  /** Decoding loses nothing of a record whose text fields are non-empty
      and whose category is set: defaults only fill gaps. */
  lemma DecodeEncode(d: FinancialData, request: string)
    requires d.ticker != "" && d.name != "" && d.currency != "" && d.sector != ""
    requires d.assetClass.Some?
    ensures Decode(Encode(d), request) == d
  {
    var h := Decode(Encode(d), request).dividendHistory;
    assert |h| == |d.dividendHistory|;
    assert forall i :: 0 <= i < |h| ==> h[i] == d.dividendHistory[i];
  }

  /** The parsed reply of the dividend-projection request; its text fields
      are copied as they are by the spread `...parsedData`. */
  datatype RawProjection = RawProjection(
    ticker: string,
    latestReportDate: string,
    reportHighlights: string,
    reportedNetIncome: RawValue,
    reportedRevenue: RawValue,
    sharesOutstanding: RawValue,
    payoutRatio: RawValue,
    projectedDividendPerShare: RawValue,
    reasoning: string,
    riskFactors: string)

  /** `parseResult` of `getDividendProjection`. */
  function DecodeProjection(raw: RawProjection): (r: DividendProjectionResult)
    ensures r.ticker == raw.ticker && r.latestReportDate == raw.latestReportDate
    ensures r.reportHighlights == raw.reportHighlights
    ensures r.reasoning == raw.reasoning && r.riskFactors == raw.riskFactors
    ensures && r.reportedNetIncome == ParseFinancialNumber(raw.reportedNetIncome)
            && r.reportedRevenue == ParseFinancialNumber(raw.reportedRevenue)
            && r.sharesOutstanding == ParseFinancialNumber(raw.sharesOutstanding)
            && r.payoutRatio == ParseFinancialNumber(raw.payoutRatio)
            && r.projectedDividendPerShare == ParseFinancialNumber(raw.projectedDividendPerShare)
  {
    DividendProjectionResult(
      raw.ticker, raw.latestReportDate, raw.reportHighlights,
      ParseFinancialNumber(raw.reportedNetIncome),
      ParseFinancialNumber(raw.reportedRevenue),
      ParseFinancialNumber(raw.sharesOutstanding),
      ParseFinancialNumber(raw.payoutRatio),
      ParseFinancialNumber(raw.projectedDividendPerShare),
      raw.reasoning, raw.riskFactors)
  }

  function EncodeProjection(p: DividendProjectionResult): RawProjection {
    RawProjection(
      p.ticker, p.latestReportDate, p.reportHighlights,
      Num(p.reportedNetIncome), Num(p.reportedRevenue), Num(p.sharesOutstanding),
      Num(p.payoutRatio), Num(p.projectedDividendPerShare),
      p.reasoning, p.riskFactors)
  }

  /** Numbers sent as numbers come back unchanged. */
  lemma DecodeProjectionEncode(p: DividendProjectionResult)
    ensures DecodeProjection(EncodeProjection(p)) == p
  {
  }

  /** Missing figures become 0. */
  lemma DecodeProjectionMissing(raw: RawProjection)
    requires raw.reportedNetIncome == Absent && raw.sharesOutstanding == Absent
    ensures DecodeProjection(raw).reportedNetIncome == 0.0 && DecodeProjection(raw).sharesOutstanding == 0.0
  {
  }

  // ---------------------------------------------------------------------
  // Grounding links
  // ---------------------------------------------------------------------

  datatype Web = Web(uri: Option<string>)

  /** One entry of `groundingMetadata.groundingChunks`. */
  datatype GroundingChunk = GroundingChunk(web: Option<Web>)

  /** `chunk.web?.uri` is truthy. */
  predicate HasUri(chunk: GroundingChunk) {
    chunk.web.Some? && chunk.web.value.uri.Some? && chunk.web.value.uri.value != ""
  }

  /** The links pushed by the `forEach` over the chunks, in order. */
  function ChunkUris(chunks: seq<GroundingChunk>): (r: seq<string>)
    ensures forall u :: u in r <==> exists c :: c in chunks && HasUri(c) && c.web.value.uri.value == u
  {
    if chunks == [] then []
    else
      var rest := ChunkUris(chunks[1..]);
      assert forall c :: c in chunks <==> c == chunks[0] || c in chunks[1..];
      if HasUri(chunks[0]) then [chunks[0].web.value.uri.value] + rest else rest
  }

  /** A lone chunk contributes its link when it has one. */
  lemma ChunkUrisOne(c: GroundingChunk)
    ensures ChunkUris([c]) == if HasUri(c) then [c.web.value.uri.value] else []
  {
    assert [c][1..] == [];
  }

  /** The links keep the order of their chunks: those of `a` come first. */
  lemma {:induction false} ChunkUrisAppend(a: seq<GroundingChunk>, b: seq<GroundingChunk>)
    ensures ChunkUris(a + b) == ChunkUris(a) + ChunkUris(b)
  {
    if a != [] {
      assert (a + b)[1..] == a[1..] + b;
      ChunkUrisAppend(a[1..], b);
    } else {
      assert a + b == b;
    }
  }

  /** The links shown under the analysis: distinct, at most five, each from
      a chunk that carried one. */
  function GroundingUrls(chunks: seq<GroundingChunk>): (r: seq<string>)
    ensures |r| <= 5
    ensures forall i, j :: 0 <= i < j < |r| ==> r[i] != r[j]
    ensures forall u :: u in r ==> exists c :: c in chunks && HasUri(c) && c.web.value.uri.value == u
    ensures forall c :: c in chunks && HasUri(c) && |r| < 5 ==> c.web.value.uri.value in r
    ensures forall u :: u in r ==> u in ChunkUris(chunks)
    ensures forall i, j :: 0 <= i < j < |r| ==>
              FirstIndex(ChunkUris(chunks), r[i]) < FirstIndex(ChunkUris(chunks), r[j])
    ensures forall u, v :: u in ChunkUris(chunks) && u !in r && v in r ==>
              FirstIndex(ChunkUris(chunks), v) < FirstIndex(ChunkUris(chunks), u)
  {
    var uris := ChunkUris(chunks);
    var all := Dedup(uris);
    var n := if |all| <= 5 then |all| else 5;
    DedupPrefix(uris, n);
    assert n < 5 ==> all[..n] == all;
    all[..n]
  }
}
