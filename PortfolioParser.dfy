/**
 * `parseGeminiResponse`: turns the model's free-text portfolio answer into a
 * summary, a list of stock recommendations and a list of key insights.
 *
 * The text is stripped of a leading "```json" fence and a closing "```"
 * fence, trimmed, and split on `SECTION: <word>` markers. Each marked section
 * is then handled by its trimmed name: `PortfolioSummary` replaces the
 * summary, `StockRecommendations` appends recommendations and reconciles the
 * allocations of the whole list, `KeyInsights` appends insights, and any other
 * name is ignored. Text before the first marker is ignored.
 */
module PortfolioParser {
  import opened Wrappers
  import opened Text
  import opened Patterns
  import opened Sections
  import opened StockExtraction
  import opened Allocation
  import opened InsightExtraction

  datatype ParseResult = ParseResult(
    portfolioSummary: string,
    stockRecommendations: seq<Stock>,
    keyInsights: seq<KeyInsight>)

  const Empty := ParseResult("", [], [])

  const Fence := "```"
  const JsonFence := "```json"

  // ---------------------------------------------------------------------------
  // Cleaning: `text.replace(/^```json\s*|```\s*$/g, '').trim()`

  /** A "```" at `p` followed by nothing but white space */
  predicate ClosingFenceAt(s: string, p: nat) {
    HasAt(s, p, Fence) && AllSpace(s[p + |Fence|..])
  }

  /** The first position at or after `from` where the `` ```\s*$ `` alternative matches */
  function ClosingFence(s: string, from: nat): (r: Option<nat>)
    requires from <= |s|
    ensures r.Some? ==> from <= r.value && r.value + |Fence| <= |s| && ClosingFenceAt(s, r.value)
    ensures r.Some? ==> forall p :: from <= p < r.value ==> !ClosingFenceAt(s, p)
    ensures r.None? ==> forall p :: from <= p <= |s| ==> !ClosingFenceAt(s, p)
    decreases |s| - from
  {
    if ClosingFenceAt(s, from) then Some(from)
    else if from == |s| then None
    else ClosingFence(s, from + 1)
  }

  /**
   * The global replace: the `` ^```json\s* `` alternative can only match at
   * the start; scanning then resumes after it, and the first closing fence
   * removes everything from there to the end.
   */
  function StripFences(s: string): (r: string)
    ensures |r| <= |s|
  {
    var k := if HasAt(s, 0, JsonFence) then RunEnd(s, |JsonFence|, Space) else 0;
    match ClosingFence(s, k)
    case Some(p) => s[k..p]
    case None => s[k..]
  }

  function CleanText(text: string): (r: string)
    ensures r == [] || (!IsSpace(r[0]) && !IsSpace(r[|r| - 1]))
  {
    Trim(StripFences(text))
  }

  // ---------------------------------------------------------------------------
  // Sections

  /** Each name and content trimmed, as the loop body does */
  function Trimmed(secs: seq<Section>): (r: seq<Section>)
    ensures |r| == |secs|
    ensures forall k :: 0 <= k < |secs| ==> r[k] == Section(Trim(secs[k].name), Trim(secs[k].body))
  {
    if secs == [] then []
    else
      var last := secs[|secs| - 1];
      Trimmed(secs[..|secs| - 1]) + [Section(Trim(last.name), Trim(last.body))]
  }

  /** The (trimmed name, trimmed content) pairs the loop visits */
  function SectionsOf(parts: seq<string>): (secs: seq<Section>)
    requires |parts| % 2 == 1
    ensures |secs| == |parts| / 2
  {
    Trimmed(RawSections(parts))
  }

  /** The `k`-th section the loop dispatches is the trimmed `k`-th captured name and the trimmed text after it. */
  lemma SectionsOfAt(parts: seq<string>, k: nat)
    requires |parts| % 2 == 1 && k < |parts| / 2
    ensures 2 * k + 2 < |parts|
    ensures SectionsOf(parts)[k] == Section(Trim(parts[2 * k + 1]), Trim(parts[2 * k + 2]))
  {
    RawSectionAt(parts, k);
  }

  /** One pass of the loop body: it touches only the field its section names, and insights are only appended. */
  function ApplySection(res: ParseResult, sec: Section): (r: ParseResult)
    ensures sec.name != "PortfolioSummary" ==> r.portfolioSummary == res.portfolioSummary
    ensures sec.name != "StockRecommendations" ==> r.stockRecommendations == res.stockRecommendations
    ensures sec.name != "KeyInsights" ==> r.keyInsights == res.keyInsights
    ensures res.keyInsights <= r.keyInsights
    ensures |res.stockRecommendations| <= |r.stockRecommendations|
  {
    if sec.name == "PortfolioSummary" then
      res.(portfolioSummary := sec.body)
    else if sec.name == "StockRecommendations" then
      res.(stockRecommendations := Reconciled(res.stockRecommendations + KeptStocks(StockChunks(sec.body))))
    else if sec.name == "KeyInsights" then
      res.(keyInsights := res.keyInsights + KeptInsights(InsightChunks(sec.body)))
    else
      res
  }

  /** The loop over all sections: earlier insights stay in front, and no recommendation is lost. */
  function ApplySections(res: ParseResult, secs: seq<Section>): (r: ParseResult)
    ensures res.keyInsights <= r.keyInsights
    ensures |res.stockRecommendations| <= |r.stockRecommendations|
  {
    if secs == [] then res else ApplySection(ApplySections(res, secs[..|secs| - 1]), secs[|secs| - 1])
  }

  /**
   * The result of parsing `text`: every recommendation is complete, either all
   * or none carry an allocation, and every insight has text.
   */
  function ParsedResponse(text: string): (r: ParseResult)
    ensures forall i :: 0 <= i < |r.stockRecommendations| ==> Complete(r.stockRecommendations[i])
    ensures AllHavePercentage(r.stockRecommendations) || NoneHasPercentage(r.stockRecommendations)
    ensures AllInsightsNonEmpty(r.keyInsights)
  {
    var secs := SectionsOf(SplitSections(CleanText(text)));
    StocksCompleteAndAllOrNone(Empty, secs);
    InsightsNonEmpty(Empty, secs);
    ApplySections(Empty, secs)
  }

  /** The loop body for one section: dispatch on its name */
  method HandleSection(result: ParseResult, sectionName: string, sectionContent: string) returns (r: ParseResult)
    ensures r == ApplySection(result, Section(sectionName, sectionContent))
  {
    r := result;
    if sectionName == "PortfolioSummary" {
      r := r.(portfolioSummary := sectionContent);
    } else if sectionName == "StockRecommendations" {
      var stocks := PushStocks(r.stockRecommendations, StockChunks(sectionContent));
      stocks := ReconcileAllocations(stocks);
      r := r.(stockRecommendations := stocks);
    } else if sectionName == "KeyInsights" {
      var insights := PushInsights(r.keyInsights, InsightChunks(sectionContent));
      r := r.(keyInsights := insights);
    }
  }

  /** The `for (let i = 1; i < sections.length; i += 2)` loop over the split parts */
  method HandleSections(sections: seq<string>) returns (result: ParseResult)
    requires |sections| % 2 == 1
    ensures result == ApplySections(Empty, SectionsOf(sections))
  {
    result := Empty;
    ghost var raw := RawSections(sections);
    var i := 1;
    ghost var n := 0;
    while i < |sections|
      invariant i == 2 * n + 1 && n <= |raw|
      invariant result == ApplySections(Empty, Trimmed(raw[..n]))
    {
      RawSectionAt(sections, n);
      TrimmedStep(raw, n);
      var sectionName := Trim(sections[i]);
      var sectionContent := Trim(sections[i + 1]);
      ApplySectionsSnoc(Empty, Trimmed(raw[..n]), Section(sectionName, sectionContent));
      result := HandleSection(result, sectionName, sectionContent);
      i := i + 2;
      n := n + 1;
    }
    assert raw[..n] == raw;
  }

  lemma TrimmedStep(secs: seq<Section>, n: nat)
    requires n < |secs|
    ensures Trimmed(secs[..n + 1]) == Trimmed(secs[..n]) + [Section(Trim(secs[n].name), Trim(secs[n].body))]
  {
    assert secs[..n + 1][..n] == secs[..n];
  }

  lemma ApplySectionsSnoc(res: ParseResult, secs: seq<Section>, sec: Section)
    ensures ApplySections(res, secs + [sec]) == ApplySection(ApplySections(res, secs), sec)
  {
    assert (secs + [sec])[..|secs|] == secs;
  }

  /** `parseGeminiResponse(text)` */
  method ParseGeminiResponse(text: string) returns (result: ParseResult)
    ensures result == ParsedResponse(text)
  {
    var cleanText := CleanText(text);
    var sections := SplitSections(cleanText);
    result := HandleSections(sections);
  }

  // ---------------------------------------------------------------------------
  // Properties

  /** A fenced answer "```json" … "```" cleans to its trimmed content. */
  lemma CleanTextOfFencedJson(b: string, ws: string)
    requires AllSpace(ws)
    ensures CleanText(JsonFence + b + Fence + ws) == Trim(b)
  {
    var s := JsonFence + b + Fence + ws;
    var e := |JsonFence| + |b|;
    FencedLayout(b, ws);
    var k := RunEnd(s, |JsonFence|, Space);
    assert ClosingFence(s, k) == Some(e) by {
      NoEarlierClosingFence(s, k, e);
      ClosingFenceIs(s, k, e);
    }
    assert StripFences(s) == s[k..e];
    assert Trim(s[k..e]) == Trim(b) by {
      assert b == s[|JsonFence|..k] + s[k..e];
      TrimAfterSpace(s[|JsonFence|..k], s[k..e]);
    }
  }

  /** Where the pieces of "```json" + b + "```" + ws sit */
  lemma FencedLayout(b: string, ws: string)
    requires AllSpace(ws)
    ensures var s, e := JsonFence + b + Fence + ws, |JsonFence| + |b|;
      && HasAt(s, 0, JsonFence) && ClosingFenceAt(s, e) && s[e + 2] == '`'
      && RunEnd(s, |JsonFence|, Space) <= e
      && s[|JsonFence|..e] == b
  {
    var s := JsonFence + b + Fence + ws;
    var e := |JsonFence| + |b|;
    assert s[..|JsonFence|] == JsonFence;
    assert s[e..e + |Fence|] == Fence;
    assert s[e + |Fence|..] == ws;
    assert s[e] == '`';
    assert s[|JsonFence|..e] == b;
  }

  /** No closing fence starts before a "`" that is followed by the last fence. */
  lemma NoEarlierClosingFence(s: string, k: nat, e: nat)
    requires k <= e && e + 2 < |s| && s[e + 2] == '`'
    ensures forall p :: k <= p < e ==> !ClosingFenceAt(s, p)
  {
    forall p | k <= p < e
      ensures !ClosingFenceAt(s, p)
    {
      assert s[p + |Fence|..][e + 2 - p - |Fence|] == s[e + 2];
    }
  }

  lemma ClosingFenceIs(s: string, from: nat, p: nat)
    requires from <= p <= |s| && ClosingFenceAt(s, p)
    requires forall q :: from <= q < p ==> !ClosingFenceAt(s, q)
    ensures ClosingFence(s, from) == Some(p)
    decreases p - from
  {
    if from < p {
      ClosingFenceIs(s, from + 1, p);
    }
  }

  /** An answer without any "```" is only trimmed. */
  lemma CleanTextWithoutFence(text: string)
    requires !Contains(text, Fence)
    ensures CleanText(text) == Trim(text)
  {
    JsonFenceOpensFence(text);
    assert ClosingFence(text, 0).None?;
    assert text[0..] == text;
  }

  lemma JsonFenceOpensFence(s: string)
    ensures HasAt(s, 0, JsonFence) ==> HasAt(s, 0, Fence)
  {
    if HasAt(s, 0, JsonFence) {
      assert s[0..3] == JsonFence[0..3];
    }
  }

  /** A section whose name is none of the three known ones leaves the result unchanged. */
  predicate Known(sec: Section) {
    sec.name == "PortfolioSummary" || sec.name == "StockRecommendations" || sec.name == "KeyInsights"
  }

  function KnownSections(secs: seq<Section>): (r: seq<Section>)
    ensures |r| <= |secs|
    ensures forall i :: 0 <= i < |r| ==> Known(r[i])
  {
    if secs == [] then []
    else if Known(secs[|secs| - 1]) then KnownSections(secs[..|secs| - 1]) + [secs[|secs| - 1]]
    else KnownSections(secs[..|secs| - 1])
  }

  /** Sections with other names are ignored: parsing sees only the known ones. */
  lemma {:induction false} UnknownSectionsIgnored(res: ParseResult, secs: seq<Section>)
    ensures ApplySections(res, secs) == ApplySections(res, KnownSections(secs))
    decreases |secs|
  {
    if secs != [] {
      var init := secs[..|secs| - 1];
      UnknownSectionsIgnored(res, init);
      var known := KnownSections(secs);
      if Known(secs[|secs| - 1]) {
        assert known[..|known| - 1] == KnownSections(init);
      }
    }
  }

  /** Without a `PortfolioSummary` section the summary is left as it was. */
  lemma {:induction false} SummaryUnchangedWithoutSection(res: ParseResult, secs: seq<Section>)
    requires forall i :: 0 <= i < |secs| ==> secs[i].name != "PortfolioSummary"
    ensures ApplySections(res, secs).portfolioSummary == res.portfolioSummary
    decreases |secs|
  {
    if secs != [] {
      SummaryUnchangedWithoutSection(res, secs[..|secs| - 1]);
    }
  }

  /** The summary is the body of the last `PortfolioSummary` section. */
  lemma LastSummaryWins(res: ParseResult, secs: seq<Section>, i: nat)
    requires i < |secs| && secs[i].name == "PortfolioSummary"
    requires forall j :: i < j < |secs| ==> secs[j].name != "PortfolioSummary"
    ensures ApplySections(res, secs).portfolioSummary == secs[i].body
  {
    var head, tail := secs[..i + 1], secs[i + 1..];
    var before := ApplySections(res, head);
    assert before.portfolioSummary == secs[i].body by {
      assert head[..i] == secs[..i];
      assert before == ApplySection(ApplySections(res, secs[..i]), secs[i]);
    }
    assert forall j :: 0 <= j < |tail| ==> tail[j].name != "PortfolioSummary" by {
      assert forall j :: 0 <= j < |tail| ==> tail[j] == secs[i + 1 + j];
    }
    SummaryUnchangedWithoutSection(before, tail);
    SplitRejoins(secs, i + 1);
    ApplySectionsConcat(res, head, tail);
  }

  lemma SplitRejoins(secs: seq<Section>, n: nat)
    requires n <= |secs|
    ensures secs[..n] + secs[n..] == secs
  {
  }

  /** Applying two runs of sections one after the other is applying their concatenation. */
  lemma {:induction false} ApplySectionsConcat(res: ParseResult, a: seq<Section>, b: seq<Section>)
    ensures ApplySections(res, a + b) == ApplySections(ApplySections(res, a), b)
    decreases |b|
  {
    if b == [] {
      assert a + b == a;
    } else {
      assert (a + b)[..|a + b| - 1] == a + b[..|b| - 1];
      ApplySectionsConcat(res, a, b[..|b| - 1]);
    }
  }

  /**
   * After any sequence of sections, every recommendation has its three
   * mandatory fields, and either all recommendations carry an allocation or
   * none does.
   */
  lemma {:induction false} StocksCompleteAndAllOrNone(res: ParseResult, secs: seq<Section>)
    requires forall i :: 0 <= i < |res.stockRecommendations| ==> Complete(res.stockRecommendations[i])
    requires AllHavePercentage(res.stockRecommendations) || NoneHasPercentage(res.stockRecommendations)
    ensures var stocks := ApplySections(res, secs).stockRecommendations;
      (forall i :: 0 <= i < |stocks| ==> Complete(stocks[i]))
      && (AllHavePercentage(stocks) || NoneHasPercentage(stocks))
    decreases |secs|
  {
    if secs != [] {
      var before := ApplySections(res, secs[..|secs| - 1]);
      StocksCompleteAndAllOrNone(res, secs[..|secs| - 1]);
      var sec := secs[|secs| - 1];
      if sec.name == "StockRecommendations" {
        var stocks := before.stockRecommendations + KeptStocks(StockChunks(sec.body));
        ReconciledAllOrNone(stocks);
        forall i | 0 <= i < |Reconciled(stocks)|
          ensures Complete(Reconciled(stocks)[i])
        {
          assert SameRecommendation(Reconciled(stocks)[i], stocks[i]);
          assert Complete(stocks[i]);
        }
      }
    }
  }

  predicate AllInsightsNonEmpty(ins: seq<KeyInsight>) {
    forall i :: 0 <= i < |ins| ==> ins[i].insight != []
  }

  /** Every parsed insight has non-empty text. */
  lemma {:induction false} InsightsNonEmpty(res: ParseResult, secs: seq<Section>)
    requires AllInsightsNonEmpty(res.keyInsights)
    ensures AllInsightsNonEmpty(ApplySections(res, secs).keyInsights)
    decreases |secs|
  {
    if secs != [] {
      var before := ApplySections(res, secs[..|secs| - 1]);
      InsightsNonEmpty(res, secs[..|secs| - 1]);
      var sec := secs[|secs| - 1];
      if sec.name == "KeyInsights" {
        var added := KeptInsights(InsightChunks(sec.body));
        var ins := before.keyInsights + added;
        forall i | 0 <= i < |ins|
          ensures ins[i].insight != []
        {
          if i >= |before.keyInsights| {
            assert ins[i] == added[i - |before.keyInsights|];
          } else {
            assert ins[i] == before.keyInsights[i];
          }
        }
        assert ApplySections(res, secs).keyInsights == ins;
      }
    }
  }

  /** The text before the first section marker has no influence on the sections. */
  lemma PreambleIgnored(x: string, y: string, rest: seq<string>)
    requires |rest| % 2 == 0
    ensures SectionsOf([x] + rest) == SectionsOf([y] + rest)
  {
    assert RawSections([x] + rest) == RawSections([y] + rest);
  }
}
