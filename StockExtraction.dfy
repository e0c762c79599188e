/**
 * The stock-recommendation extractor of `parseGeminiResponse`: the body of a
 * `StockRecommendations` section is split on `- Ticker:`, the text before the
 * first marker is discarded, and each chunk yields a recommendation whose
 * fields are pulled out by independent patterns. A chunk is kept only when
 * its ticker, company name and rationale are all non-empty.
 */
module StockExtraction {
  import opened Wrappers
  import opened Text
  import opened Patterns

  datatype Stock = Stock(
    ticker: string,
    companyName: string,
    rationale: string,
    confidenceScore: Option<nat>,
    allocationPercentage: Option<real>)

  const TickerMarker := "- Ticker:"
  const CompanyNameLabel := "CompanyName:"
  const RationaleLabel := "Rationale:"
  const ConfidenceScoreLabel := "ConfidenceScore:"
  const AllocationPercentageLabel := "AllocationPercentage:"

  /** `/^\s*([\w.-]+)/`, then trimmed */
  function TickerOf(chunk: string): (r: Option<string>)
    ensures r.Some? ==> r.value != [] && AllIn(r.value, TickerSymbol)
  {
    var w := RunEnd(chunk, 0, Space);
    var e := RunEnd(chunk, w, TickerSymbol);
    if e == w then None
    else
      var t := chunk[w..e];
      RunSlice(chunk, w, TickerSymbol);
      TrimTickerRun(t);
      Some(Trim(t))
  }

  /** `/CompanyName:\s*(.*?)\n/s`, then trimmed */
  function CompanyNameOf(chunk: string): (r: Option<string>)
    ensures r.Some? ==> Contains(chunk, CompanyNameLabel)
    ensures r.Some? ==> r.value == [] || (!IsSpace(r.value[0]) && !IsSpace(r.value[|r.value| - 1]))
  {
    TrimmedOption(LabelledCapture(chunk, CompanyNameLabel, LineEnd))
  }

  /** `/Rationale:\s*(.*?)\n(?:- ConfidenceScore|- AllocationPercentage|\s*$)/s`, then trimmed */
  function RationaleOf(chunk: string): (r: Option<string>)
    ensures r.Some? ==> Contains(chunk, RationaleLabel)
    ensures r.Some? ==> r.value == [] || (!IsSpace(r.value[0]) && !IsSpace(r.value[|r.value| - 1]))
  {
    TrimmedOption(LabelledCapture(chunk, RationaleLabel, RationaleEnd))
  }

  /** `/ConfidenceScore:\s*(\d+)/`, then `parseInt(…, 10)`; never clamped to 100 */
  function ConfidenceScoreOf(chunk: string): (r: Option<nat>)
    ensures r.Some? ==> Contains(chunk, ConfidenceScoreLabel)
  {
    match NumeralAfter(chunk, ConfidenceScoreLabel, 0, false)
    case None => None
    case Some(n) => Some(DecimalValue(n.whole))
  }

  /** `/AllocationPercentage:\s*(\d+\.?\d*)/`, then `parseFloat` */
  function AllocationPercentageOf(chunk: string): (r: Option<real>)
    ensures r.Some? ==> r.value >= 0.0
  {
    match NumeralAfter(chunk, AllocationPercentageLabel, 0, true)
    case None => None
    case Some(n) => Some(DecimalReal(n.whole, n.fraction))
  }

  /** The recommendation a chunk yields, or None when a mandatory field is missing or empty */
  function ExtractStock(chunk: string): (r: Option<Stock>)
    ensures r.Some? <==> NonEmpty(TickerOf(chunk)) && NonEmpty(CompanyNameOf(chunk)) && NonEmpty(RationaleOf(chunk))
    ensures r.Some? ==> r.value.ticker != [] && r.value.companyName != [] && r.value.rationale != []
    ensures r.Some? && r.value.allocationPercentage.Some? ==> r.value.allocationPercentage.value >= 0.0
  {
    var ticker := TickerOf(chunk);
    var companyName := CompanyNameOf(chunk);
    var rationale := RationaleOf(chunk);
    if NonEmpty(ticker) && NonEmpty(companyName) && NonEmpty(rationale) then
      Some(Stock(ticker.value, companyName.value, rationale.value,
                 ConfidenceScoreOf(chunk), AllocationPercentageOf(chunk)))
    else
      None
  }

  /** A recommendation with all three mandatory fields non-empty */
  predicate Complete(s: Stock) {
    s.ticker != [] && s.companyName != [] && s.rationale != []
  }

  /** The recommendations the chunks yield, in order of appearance */
  function KeptStocks(chunks: seq<string>): (r: seq<Stock>)
    ensures |r| <= |chunks|
    ensures forall i :: 0 <= i < |r| ==> Complete(r[i])
    ensures forall i :: 0 <= i < |r| ==> r[i].allocationPercentage.Some? ==> r[i].allocationPercentage.value >= 0.0
  {
    if chunks == [] then []
    else
      var init := KeptStocks(chunks[..|chunks| - 1]);
      var stock := ExtractStock(chunks[|chunks| - 1]);
      if stock.None? then init
      else
        assert Complete(stock.value);
        init + [stock.value]
  }

  /** The chunks of a section body: the pieces after each `- Ticker:` */
  function StockChunks(body: string): (chunks: seq<string>)
    ensures forall i :: 0 <= i < |chunks| ==> !Contains(chunks[i], TickerMarker)
    ensures exists pre :: !Contains(pre, TickerMarker) && Join([pre] + chunks, TickerMarker) == body
  {
    var parts := Split(body, TickerMarker);
    assert [parts[0]] + parts[1..] == parts;
    parts[1..]
  }

  /** `stocksText.forEach(…)`: extracts each chunk and pushes the complete ones */
  method PushStocks(stocks: seq<Stock>, chunks: seq<string>) returns (r: seq<Stock>)
    ensures r == stocks + KeptStocks(chunks)
  {
    r := stocks;
    var i := 0;
    while i < |chunks|
      invariant 0 <= i <= |chunks|
      invariant r == stocks + KeptStocks(chunks[..i])
    {
      var stock := ExtractStock(chunks[i]);
      KeptStocksStep(chunks, i);
      if stock.Some? {
        AppendOne(stocks, KeptStocks(chunks[..i]), stock.value);
        r := r + [stock.value];
      }
      i := i + 1;
    }
    assert chunks[..i] == chunks;
  }

  /** One more chunk adds its recommendation, if it yields one. */
  lemma KeptStocksStep(chunks: seq<string>, i: nat)
    requires i < |chunks|
    ensures ExtractStock(chunks[i]).None? ==> KeptStocks(chunks[..i + 1]) == KeptStocks(chunks[..i])
    ensures ExtractStock(chunks[i]).Some? ==> KeptStocks(chunks[..i + 1]) == KeptStocks(chunks[..i]) + [ExtractStock(chunks[i]).value]
  {
    assert chunks[..i + 1][..i] == chunks[..i];
  }

  // ---------------------------------------------------------------------------
  // Properties

  /** Extraction distributes over concatenation: chunks keep their order of appearance. */
  lemma {:induction false} KeptStocksAppend(a: seq<string>, b: seq<string>)
    ensures KeptStocks(a + b) == KeptStocks(a) + KeptStocks(b)
    decreases |b|
  {
    if b == [] {
      assert a + b == a;
    } else {
      var b' := b[..|b| - 1];
      assert (a + b)[..|a + b| - 1] == a + b';
      KeptStocksAppend(a, b');
    }
  }

  /** A chunk yields a kept recommendation exactly when it extracts completely. */
  lemma KeptStocksSingle(c: string)
    ensures KeptStocks([c]) == if ExtractStock(c).Some? then [ExtractStock(c).value] else []
  {
    assert [c][..0] == [];
  }

  /** A chunk without a `CompanyName:` label is dropped, whatever else it holds. */
  lemma ChunkWithoutCompanyNameDropped(chunk: string)
    requires !Contains(chunk, CompanyNameLabel)
    ensures ExtractStock(chunk) == None
  {
  }

  /** The ticker is the whole `[\w.-]+` run after leading white space, so `005930.KS` survives intact. */
  lemma TickerOfLayout(w: string, t: string, rest: string)
    requires AllSpace(w)
    requires t != [] && AllIn(t, TickerSymbol)
    requires rest == [] || !IsTickerChar(rest[0])
    ensures TickerOf(w + t + rest) == Some(t)
  {
    LeadingSpaceRun(w, t, rest);
    TickerRun(w, t, rest);
    TrimTickerRun(t);
  }

  lemma LeadingSpaceRun(w: string, t: string, rest: string)
    requires AllSpace(w)
    requires t != [] && IsTickerChar(t[0])
    ensures RunEnd(w + t + rest, 0, Space) == |w|
  {
    var s := w + t + rest;
    assert t[0] == s[|w|];
    TickerCharNotSpace(t[0]);
    RunEndAt(s, 0, |w|, Space);
  }

  lemma TickerRun(w: string, t: string, rest: string)
    requires AllIn(t, TickerSymbol)
    requires rest == [] || !IsTickerChar(rest[0])
    ensures RunEnd(w + t + rest, |w|, TickerSymbol) == |w| + |t|
    ensures (w + t + rest)[|w|..|w| + |t|] == t
  {
    var s := w + t + rest;
    assert forall m :: |w| <= m < |w| + |t| ==> s[m] == t[m - |w|];
    assert |w| + |t| < |s| ==> s[|w| + |t|] == rest[0];
    RunEndAt(s, |w|, |w| + |t|, TickerSymbol);
  }

  /** A chunk that does not start (after white space) with a ticker character is dropped. */
  lemma ChunkWithoutTickerDropped(chunk: string)
    requires var w := RunEnd(chunk, 0, Space); w == |chunk| || !IsTickerChar(chunk[w])
    ensures ExtractStock(chunk) == None
  {
  }

  /**
   * `ConfidenceScore:` followed by white space and digits gives the digits' value,
   * with no upper bound: a score of 150 stays 150.
   */
  lemma ConfidenceScoreOfLayout(x: string, w: string, ds: string, rest: string)
    requires forall q :: 0 <= q < |x| ==> !HasAt(x + ConfidenceScoreLabel + w + ds + rest, q, ConfidenceScoreLabel)
    requires AllSpace(w)
    requires ds != [] && AllIn(ds, Digit)
    requires rest == [] || !IsDigit(rest[0])
    ensures ConfidenceScoreOf(x + ConfidenceScoreLabel + w + ds + rest) == Some(DecimalValue(ds))
  {
    var s := x + ConfidenceScoreLabel + w + ds + rest;
    var a := |x| + |ConfidenceScoreLabel| + |w|;
    FieldLayout(x, ConfidenceScoreLabel, w, ds, rest);
    NumeralOfField(s, ConfidenceScoreLabel, |x|, a, a + |ds|, false);
  }

  /**
   * `AllocationPercentage:` followed by white space, digits, `.` and digits
   * gives the decimal value of `whole.fraction`.
   */
  lemma AllocationPercentageOfLayout(x: string, w: string, ds: string, fs: string, rest: string)
    requires forall q :: 0 <= q < |x| ==> !HasAt(x + AllocationPercentageLabel + w + ds + "." + fs + rest, q, AllocationPercentageLabel)
    requires AllSpace(w)
    requires ds != [] && AllIn(ds, Digit) && AllIn(fs, Digit)
    requires rest == [] || !IsDigit(rest[0])
    ensures AllocationPercentageOf(x + AllocationPercentageLabel + w + ds + "." + fs + rest) == Some(DecimalReal(ds, fs))
  {
    var s := x + AllocationPercentageLabel + w + ds + "." + fs + rest;
    var a := |x| + |AllocationPercentageLabel| + |w|;
    var d := a + |ds|;
    var e := d + 1 + |fs|;
    var tail := "." + fs + rest;
    assert s == x + AllocationPercentageLabel + w + ds + tail;
    FieldLayout(x, AllocationPercentageLabel, w, ds, tail);
    assert s[d] == '.' && (forall m :: d + 1 <= m < e ==> IsDigit(s[m])) && s[d + 1..e] == fs
           && (e == |s| || !IsDigit(s[e])) by {
      FractionLayout(x + AllocationPercentageLabel + w + ds, fs, rest);
    }
    FractionOfField(s, AllocationPercentageLabel, |x|, a, d, e);
  }

  /**
   * `AllocationPercentage:` followed by white space and digits not followed
   * by a `.` gives the digits' value.
   */
  lemma AllocationPercentageOfWholeLayout(x: string, w: string, ds: string, rest: string)
    requires forall q :: 0 <= q < |x| ==> !HasAt(x + AllocationPercentageLabel + w + ds + rest, q, AllocationPercentageLabel)
    requires AllSpace(w)
    requires ds != [] && AllIn(ds, Digit)
    requires rest == [] || (!IsDigit(rest[0]) && rest[0] != '.')
    ensures AllocationPercentageOf(x + AllocationPercentageLabel + w + ds + rest) == Some(DecimalValue(ds) as real)
  {
    var s := x + AllocationPercentageLabel + w + ds + rest;
    var a := |x| + |AllocationPercentageLabel| + |w|;
    FieldLayout(x, AllocationPercentageLabel, w, ds, rest);
    NumeralOfField(s, AllocationPercentageLabel, |x|, a, a + |ds|, true);
    WholeDecimal(ds);
  }

  /** Label, white space, digits and the rest: where each part lies in the text. */
  lemma FieldLayout(x: string, tag: string, w: string, ds: string, rest: string)
    requires forall q :: 0 <= q < |x| ==> !HasAt(x + tag + w + ds + rest, q, tag)
    requires AllSpace(w) && AllIn(ds, Digit)
    ensures var s, a := x + tag + w + ds + rest, |x| + |tag| + |w|;
      && FirstOccurrence(s, tag, |x|)
      && (forall m :: |x| + |tag| <= m < a ==> IsSpace(s[m]))
      && (forall m :: a <= m < a + |ds| ==> IsDigit(s[m]))
      && s[a..a + |ds|] == ds
      && (a + |ds| < |s| ==> s[a + |ds|] == rest[0])
  {
    var s, a := x + tag + w + ds + rest, |x| + |tag| + |w|;
    assert s[|x|..|x| + |tag|] == tag;
    assert forall m :: |x| + |tag| <= m < a ==> s[m] == w[m - |x| - |tag|];
    assert forall m :: a <= m < a + |ds| ==> s[m] == ds[m - a];
    assert s[a..a + |ds|] == ds;
  }

  /** `.`, fraction digits and a rest that does not start with a digit, after a prefix `p`. */
  lemma FractionLayout(p: string, fs: string, rest: string)
    requires AllIn(fs, Digit)
    requires rest == [] || !IsDigit(rest[0])
    ensures var s, d := p + "." + fs + rest, |p|;
      && s[d] == '.'
      && (forall m :: d + 1 <= m < d + 1 + |fs| ==> IsDigit(s[m]))
      && s[d + 1..d + 1 + |fs|] == fs
      && (d + 1 + |fs| == |s| || !IsDigit(s[d + 1 + |fs|]))
  {
    var s, d := p + "." + fs + rest, |p|;
    assert forall m :: d + 1 <= m < d + 1 + |fs| ==> s[m] == fs[m - d - 1];
    assert s[d + 1..d + 1 + |fs|] == fs;
    assert d + 1 + |fs| < |s| ==> s[d + 1 + |fs|] == rest[0];
  }

  /** A numeral without a fraction reads as its whole part. */
  lemma WholeDecimal(ds: string)
    requires AllIn(ds, Digit)
    ensures DecimalReal(ds, []) == DecimalValue(ds) as real
  {
    assert DecimalValue([]) == 0 && Pow10(0) == 1;
  }

  lemma ConfidenceScoreNotClamped(x: string)
    requires forall q :: 0 <= q < |x| ==> !HasAt(x + ConfidenceScoreLabel + " " + "150", q, ConfidenceScoreLabel)
    ensures ConfidenceScoreOf(x + ConfidenceScoreLabel + " " + "150") == Some(150)
  {
    var s := x + ConfidenceScoreLabel + " " + "150";
    assert s == x + ConfidenceScoreLabel + " " + "150" + "";
    ConfidenceScoreOfLayout(x, " ", "150", "");
    Value150();
  }

  lemma Value150()
    ensures AllIn("150", Digit) && DecimalValue("150") == 150
  {
    assert "150"[..2] == "15" && "15"[..1] == "1" && "1"[..0] == "";
  }
}
