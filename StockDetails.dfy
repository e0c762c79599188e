/**
 * The stock-details page's two pieces of text logic: the links to Google
 * Finance and Yahoo Finance built from the ticker, and the splitting of the
 * detailed analysis into titled items.
 */
module StockDetails {
  import opened Wrappers
  import opened Text
  import opened Sections
  import opened Patterns

  const GoogleFinanceQuote := "https://www.google.com/finance/quote/"
  const YahooFinanceQuote := "https://finance.yahoo.com/quote/"
  const NoContent := "내용 없음"

  /** Google Finance writes `005930.KS` as `005930:KS`. */
  function GoogleFinanceSymbol(ticker: string): (r: string)
    ensures !Contains(r, ".")
    ensures !Contains(ticker, ".") ==> r == ticker
  {
    if Contains(ticker, ".") then
      var parts := Split(ticker, ".");
      NoDotAroundColon(parts[0], parts[1]);
      parts[0] + ":" + parts[1]
    else ticker
  }

  /** The Google Finance link: the quote page followed by a symbol without any dot */
  function GoogleFinanceUrl(ticker: string): (r: string)
    ensures |GoogleFinanceQuote| <= |r| && r[..|GoogleFinanceQuote|] == GoogleFinanceQuote
    ensures !Contains(r[|GoogleFinanceQuote|..], ".")
  {
    var r := GoogleFinanceQuote + GoogleFinanceSymbol(ticker);
    assert r[|GoogleFinanceQuote|..] == GoogleFinanceSymbol(ticker);
    r
  }

  /** The Yahoo Finance link: the quote page followed by the ticker as it is */
  function YahooFinanceUrl(ticker: string): (r: string)
    ensures |YahooFinanceQuote| <= |r| && r[..|YahooFinanceQuote|] == YahooFinanceQuote
    ensures r[|YahooFinanceQuote|..] == ticker
  {
    YahooFinanceQuote + ticker
  }

  /** Joining two dot-free pieces with `:` gives a dot-free symbol. */
  lemma NoDotAroundColon(a: string, b: string)
    requires !Contains(a, ".") && !Contains(b, ".")
    ensures !Contains(a + ":" + b, ".")
  {
    var s := a + ":" + b;
    forall p | 0 <= p <= |s|
      ensures !HasAt(s, p, ".")
    {
      DotIff(s, p);
      if p < |a| {
        DotIff(a, p);
        assert s[p] == a[p];
      } else if |a| < p < |s| {
        DotIff(b, p - |a| - 1);
        assert s[p] == b[p - |a| - 1];
      }
    }
  }

  /** An analysis item as the page renders it */
  datatype AnalysisItem = AnalysisItem(title: string, content: string)

  const KnownSections: seq<string> := ["FinancialHealthSummary", "GrowthPotential", "RiskFactors", "AnalystSentimentOverview", "RecentNewsImpact"]
  const KnownTitles: seq<string> := ["재무 건전성 요약", "성장 잠재력", "위험 요인", "애널리스트 동향", "최근 뉴스 영향"]

  /** The display title of a section: a Korean title for the five known names, the name itself otherwise */
  function TitleFor(name: string): (r: string)
    ensures name in KnownSections ==> r in KnownTitles
    ensures name !in KnownSections ==> r == name
  {
    if name == "FinancialHealthSummary" then "재무 건전성 요약"
    else if name == "GrowthPotential" then "성장 잠재력"
    else if name == "RiskFactors" then "위험 요인"
    else if name == "AnalystSentimentOverview" then "애널리스트 동향"
    else if name == "RecentNewsImpact" then "최근 뉴스 영향"
    else name
  }

  /** `analysisParts[i + 1]?.trim() || "내용 없음"` */
  function ContentFor(part: string): (r: string)
    ensures r != []
    ensures Trim(part) != [] ==> r == Trim(part)
    ensures Trim(part) == [] ==> r == NoContent
  {
    if Trim(part) != [] then Trim(part) else NoContent
  }

  /** One item per section: its title and its trimmed content */
  function Items(secs: seq<Section>): (r: seq<AnalysisItem>)
    ensures |r| == |secs|
    ensures forall k :: 0 <= k < |r| ==> r[k].content != []
  {
    if secs == [] then []
    else
      var last := secs[|secs| - 1];
      Items(secs[..|secs| - 1]) + [AnalysisItem(TitleFor(last.name), ContentFor(last.body))]
  }

  /** One item per `SECTION: ` marker, named by the untrimmed captured name */
  function ItemsOf(parts: seq<string>): (r: seq<AnalysisItem>)
    requires |parts| % 2 == 1
    ensures |r| == |parts| / 2
    ensures forall k :: 0 <= k < |r| ==> r[k].content != []
  {
    Items(RawSections(parts))
  }

  /** The `k`-th item is the title and content of the `k`-th section. */
  lemma {:induction false} ItemAt(secs: seq<Section>, k: nat)
    requires k < |secs|
    ensures Items(secs)[k] == AnalysisItem(TitleFor(secs[k].name), ContentFor(secs[k].body))
    decreases |secs|
  {
    if k < |secs| - 1 {
      ItemAt(secs[..|secs| - 1], k);
    }
  }

  /** The `k`-th item comes from the `k`-th marker's name and the text after it. */
  lemma ItemsOfAt(parts: seq<string>, k: nat)
    requires |parts| % 2 == 1 && k < |parts| / 2
    ensures ItemsOf(parts)[k] == AnalysisItem(TitleFor(parts[2 * k + 1]), ContentFor(parts[2 * k + 2]))
  {
    var raw := RawSections(parts);
    RawSectionAt(parts, k);
    ItemOfSection(raw, k, parts[2 * k + 1], parts[2 * k + 2]);
  }

  lemma ItemOfSection(secs: seq<Section>, k: nat, name: string, body: string)
    requires k < |secs| && secs[k] == Section(name, body)
    ensures Items(secs)[k] == AnalysisItem(TitleFor(name), ContentFor(body))
  {
    ItemAt(secs, k);
  }

  /** `structuredAnalysisItems` for the current `detailedAnalysis` (none while it is null or empty) */
  function StructuredAnalysis(detailedAnalysis: Option<string>): (r: seq<AnalysisItem>)
    ensures detailedAnalysis.None? || detailedAnalysis.value == [] ==> r == []
    ensures forall k :: 0 <= k < |r| ==> r[k].content != []
  {
    if detailedAnalysis.None? || detailedAnalysis.value == [] then []
    else ItemsOf(SplitSections(detailedAnalysis.value))
  }

  /** The page's `for (let i = 1; i < analysisParts.length; i += 2)` loop */
  method BuildStructuredAnalysis(detailedAnalysis: Option<string>) returns (items: seq<AnalysisItem>)
    ensures items == StructuredAnalysis(detailedAnalysis)
  {
    items := [];
    if detailedAnalysis.Some? && detailedAnalysis.value != [] {
      var analysisParts := SplitSections(detailedAnalysis.value);
      items := PushItems(analysisParts);
    }
  }

  method PushItems(analysisParts: seq<string>) returns (items: seq<AnalysisItem>)
    requires |analysisParts| % 2 == 1
    ensures items == ItemsOf(analysisParts)
  {
    items := [];
    ghost var raw := RawSections(analysisParts);
    var i := 1;
    ghost var n := 0;
    while i < |analysisParts|
      invariant i == 2 * n + 1 && n <= |raw|
      invariant items == Items(raw[..n])
    {
      RawSectionAt(analysisParts, n);
      ItemsStep(raw, n);
      var sectionName := analysisParts[i];
      var sectionContent := Trim(analysisParts[i + 1]);
      if sectionContent == [] {
        sectionContent := NoContent;
      }
      var title := sectionName;
      if sectionName == "FinancialHealthSummary" { title := "재무 건전성 요약"; }
      else if sectionName == "GrowthPotential" { title := "성장 잠재력"; }
      else if sectionName == "RiskFactors" { title := "위험 요인"; }
      else if sectionName == "AnalystSentimentOverview" { title := "애널리스트 동향"; }
      else if sectionName == "RecentNewsImpact" { title := "최근 뉴스 영향"; }
      items := items + [AnalysisItem(title, sectionContent)];
      i := i + 2;
      n := n + 1;
    }
    assert raw[..n] == raw;
  }

  lemma ItemsStep(secs: seq<Section>, n: nat)
    requires n < |secs|
    ensures Items(secs[..n + 1]) == Items(secs[..n]) + [AnalysisItem(TitleFor(secs[n].name), ContentFor(secs[n].body))]
  {
    assert secs[..n + 1][..n] == secs[..n];
  }

  // ---------------------------------------------------------------------------
  // Properties

  /** The five known names get their Korean titles; any other name is shown as it is. */
  lemma TitleForKnown(name: string)
    ensures forall k :: 0 <= k < |KnownSections| && name == KnownSections[k] ==> TitleFor(name) == KnownTitles[k]
    ensures name !in KnownSections ==> TitleFor(name) == name
  {
  }

  /** No name made of word characters keeps its own text as a title when it is one of the five. */
  lemma TitleForIsName(name: string)
    requires AllIn(name, Word)
    ensures TitleFor(name) == name <==> name !in KnownSections
  {
    if name in KnownSections {
      var t := TitleFor(name);
      assert t[0] in {'재', '성', '위', '애', '최'};
      assert !IsWordChar(t[0]);
      assert IsWordChar(name[0]);
    }
  }

  /** A non-empty analysis without any `SECTION: ` marker gives no items. */
  lemma NoMarkerNoItems(s: string)
    requires forall p :: 0 <= p <= |s| ==> !MarkerAt(s, p)
    ensures StructuredAnalysis(Some(s)) == []
  {
    assert SplitSectionsFrom(s, 0) == [s[0..]];
  }

  /** A marker after `e` in `s` is a marker at the same place in `s[e..]`. */
  lemma MarkerInSuffix(s: string, e: nat, p: nat)
    requires e <= p && MarkerAt(s, p)
    ensures MarkerAt(s[e..], p - e)
  {
    assert s[e..][p - e..p - e + |Marker|] == s[p..p + |Marker|];
    assert s[e..][p - e + |Marker|] == s[p + |Marker|];
  }

  /** Past the name, the text of one section holds no marker. */
  lemma NoMarkerAfterName(s: string, e: nat, body: string)
    requires e <= |s| && s[e..] == body
    requires forall p :: 0 <= p <= |body| ==> !MarkerAt(body, p)
    ensures FindMarker(s, e) == None
  {
    forall p | e <= p <= |s|
      ensures !MarkerAt(s, p)
    {
      if MarkerAt(s, p) {
        MarkerInSuffix(s, e, p);
      }
    }
  }

  /** The split of one section: no preamble, the name, the body. */
  lemma SplitOfSingle(name: string, body: string)
    requires name != [] && AllIn(name, Word)
    requires body == [] || !IsWordChar(body[0])
    requires forall p :: 0 <= p <= |body| ==> !MarkerAt(body, p)
    ensures SplitSections(Marker + name + body) == [[], name, body]
  {
    var s := Marker + name + body;
    var e := |Marker| + |name|;
    assert s[..|Marker|] == Marker;
    assert MarkerAt(s, 0);
    assert FindMarker(s, 0) == Some(0);
    assert forall m :: |Marker| <= m < e ==> s[m] == name[m - |Marker|];
    assert e < |s| ==> s[e] == body[0];
    RunEndAt(s, |Marker|, e, Word);
    assert s[e..] == body;
    NoMarkerAfterName(s, e, body);
    assert SplitSectionsFrom(s, e) == [s[e..]];
    assert s[|Marker|..e] == name;
    assert SplitSectionsFrom(s, 0) == [s[0..0], s[|Marker|..e]] + SplitSectionsFrom(s, e);
  }

  /** A marker right after a marker is read as a name: its `SECTION` becomes the name. */
  lemma MarkerAfterMarker()
    ensures SplitSections("SECTION: SECTION: A") == ["", "SECTION", ": A"]
  {
    assert Marker + "SECTION" + ": A" == "SECTION: SECTION: A";
    SplitOfSingle("SECTION", ": A");
  }

  /**
   * One section: a marker, a name of word characters, then a body that starts
   * with no word character and holds no marker, gives one item titled after
   * the name with the trimmed body as content.
   */
  lemma SingleSection(name: string, body: string)
    requires name != [] && AllIn(name, Word)
    requires body == [] || !IsWordChar(body[0])
    requires forall p :: 0 <= p <= |body| ==> !MarkerAt(body, p)
    ensures StructuredAnalysis(Some(Marker + name + body)) == [AnalysisItem(TitleFor(name), ContentFor(body))]
  {
    SplitOfSingle(name, body);
  }

  // ---------------------------------------------------------------------------
  // Links

  lemma DotIff(s: string, q: nat)
    ensures HasAt(s, q, ".") <==> q < |s| && s[q] == '.'
  {
    if q < |s| {
      assert s[q..q + 1] == [s[q]];
    }
  }

  lemma DotAt(s: string, from: nat, p: nat)
    requires from <= p < |s| && s[p] == '.'
    requires forall m :: from <= m < p ==> s[m] != '.'
    ensures IndexOfFrom(s, ".", from) == Some(p)
  {
    DotIff(s, p);
    forall q | from <= q < p
      ensures !HasAt(s, q, ".")
    {
      DotIff(s, q);
    }
  }

  lemma NoDotFrom(s: string, from: nat)
    requires from <= |s|
    requires forall m :: from <= m < |s| ==> s[m] != '.'
    ensures IndexOfFrom(s, ".", from) == None
  {
    forall q | from <= q <= |s|
      ensures !HasAt(s, q, ".")
    {
      DotIff(s, q);
    }
  }

  /** The first piece of a split from `from` ends at the first dot, or at the end. */
  lemma FirstPiece(s: string, from: nat, p: nat)
    requires from <= p <= |s|
    requires forall m :: from <= m < p ==> s[m] != '.'
    requires p == |s| || s[p] == '.'
    ensures SplitFrom(s, ".", from)[0] == s[from..p]
    ensures p < |s| ==> SplitFrom(s, ".", from)[1..] == SplitFrom(s, ".", p + 1)
  {
    if p < |s| {
      SplitAtDot(s, from, p);
    } else {
      SplitWithoutDot(s, from);
    }
  }

  lemma SplitAtDot(s: string, from: nat, p: nat)
    requires from <= p < |s| && s[p] == '.'
    requires forall m :: from <= m < p ==> s[m] != '.'
    ensures SplitFrom(s, ".", from) == [s[from..p]] + SplitFrom(s, ".", p + 1)
  {
    DotAt(s, from, p);
  }

  lemma SplitWithoutDot(s: string, from: nat)
    requires from <= |s|
    requires forall m :: from <= m < |s| ==> s[m] != '.'
    ensures SplitFrom(s, ".", from) == [s[from..]]
  {
    NoDotFrom(s, from);
  }

  /**
   * A ticker with a dot is quoted as the text before the first dot, `:`, and
   * the text between the first and the second dot (or the end): `005930.KS`
   * becomes `005930:KS` and `A.B.C` becomes `A:B`.
   */
  lemma GoogleFinanceDotted(a: string, b: string, tail: string)
    requires forall m :: 0 <= m < |a| ==> a[m] != '.'
    requires forall m :: 0 <= m < |b| ==> b[m] != '.'
    requires tail == [] || tail[0] == '.'
    ensures GoogleFinanceUrl(a + "." + b + tail) == GoogleFinanceQuote + a + ":" + b
  {
    var s := a + "." + b + tail;
    DottedPieces(s, a, b, tail);
    DotIff(s, |a|);
  }

  lemma DottedPieces(s: string, a: string, b: string, tail: string)
    requires s == a + "." + b + tail
    requires forall m :: 0 <= m < |a| ==> a[m] != '.'
    requires forall m :: 0 <= m < |b| ==> b[m] != '.'
    requires tail == [] || tail[0] == '.'
    ensures s[|a|] == '.'
    ensures |Split(s, ".")| >= 2 && Split(s, ".")[0] == a && Split(s, ".")[1] == b
  {
    var q := |a| + 1;
    assert s[|a|] == '.';
    assert s[0..|a|] == a;
    assert s[q..q + |b|] == b;
    assert forall m :: 0 <= m < |a| ==> s[m] != '.' by {
      assert forall m :: 0 <= m < |a| ==> s[m] == a[m];
    }
    assert forall m :: q <= m < q + |b| ==> s[m] != '.' by {
      assert forall m :: q <= m < q + |b| ==> s[m] == b[m - q];
    }
    assert q + |b| == |s| || s[q + |b|] == '.' by {
      if q + |b| < |s| {
        assert s[q + |b|] == tail[0];
      }
    }
    FirstPiece(s, 0, |a|);
    FirstPiece(s, q, q + |b|);
  }

  /** A ticker without a dot is quoted as it is, on both sites. */
  lemma UndottedTicker(ticker: string)
    requires forall m :: 0 <= m < |ticker| ==> ticker[m] != '.'
    ensures GoogleFinanceUrl(ticker) == GoogleFinanceQuote + ticker
    ensures YahooFinanceUrl(ticker) == YahooFinanceQuote + ticker
  {
    forall p | 0 <= p <= |ticker|
      ensures !HasAt(ticker, p, ".")
    {
      DotIff(ticker, p);
    }
  }
}
