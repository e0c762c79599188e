# Response parsing core of the investment dashboard

This project models the part of the dashboard that turns text from the Gemini
language model into typed records. It is written in Dafny, and every property
listed below is proved about the model. The modelled code is
`services/geminiService.ts` and two pieces of `components/StockDetailsPage.tsx`.

- **ApiClient**: the process-wide Gemini client cell. It covers
  `updateGeminiApiKey`, `getGeminiClient` and `ensureClient`, as a class
  `GeminiService` whose `client` field the methods update.
- **PortfolioParser**: `parseGeminiResponse`. It strips the JSON fences and
  splits the text on `SECTION: (\w+)`. Then it hands each section to its
  handler: portfolio summary, stock recommendations or key insights. Unknown
  sections are ignored.
- **Sections**: the `split(/SECTION: (\w+)/s)` scanner.
- **Patterns**: the lazy `Label:\s*(.*?)<stop>` regular expressions and the
  numeral matches.
- **StockExtraction**: one `- Ticker:` chunk becomes one recommendation.
- **InsightExtraction**: one `- Insight:` chunk becomes one key insight.
- **Allocation**: the three-tier allocation reconciler. A sum within 0.1 of 100
  is kept. A sum within 5 of 100 is rescaled by `100 / total` and rounded to one
  decimal. Anything else is cleared.
- **JsonEnvelope**: `extractJsonFromString`.
- **Json**: JSON values, JavaScript truthiness, `||` and object spread.
- **News**: the news and stock-news assemblers after `JSON.parse`. They cover
  the array check, ids, the category normalisation and the field defaults.
- **Indicators**: the financial-indicator assembler after `JSON.parse`. It
  covers the `indicators` array check and the `dataAsOf` default.
- **Grounding**: the filter from grounding chunks to `{uri, title}` sources.
- **StockDetails**: the detailed-analysis splitter, its Korean title map, and
  the Google Finance and Yahoo Finance quote URLs.
- **Text** and **Wrappers**: JavaScript string primitives and `Option`/`Result`.

Where the source changes state step by step, the model is imperative:
- the client cell is a class with `modifies` clauses;
- the section, stock, insight and item loops are methods with loop invariants;
- the reconciler's `forEach` passes are methods.

Each of those methods is proved equal to a specification function, and the
properties are proved about that function. Regular expressions are written as
explicit scanners. Their contracts fix which position matches: the first
occurrence of a label, then the first stop after it; for the section
splitter, the leftmost marker and the longest name after it.

Some outside inputs become parameters:
- `JSON.parse` is a `parse: string -> Option<Json>` parameter;
- `Date.now()` is a `now: nat -> nat` parameter;
- a throwing `new GoogleGenAI(...)` is the `constructionFails` flag.

### Behaviour as written

The code behaves as follows in four cases that are easy to misread:
- **A 110 total is cleared.** A batch whose allocations sum to 110 is cleared,
  not rescaled, because the rescale band is `|total - 100| <= 5`.
  `SixtyPlusFiftyIsCleared` proves this.
- **The rescaled total can miss 100.** After one-decimal rounding it is only
  within `0.05 * n` of 100. `RescaledTotalCanMiss100ByMoreThanTenth` shows five
  stocks that sum to 99 and end at 99.8. No rescaled value lies near a rounding
  tie, so binary `toFixed(1)` rounds them the same way.
- **Empty indicators are accepted.** An empty `indicators` array is accepted,
  because the check is `!indicators || !Array.isArray(indicators)`.
- **A final insight can be dropped.** The insight pattern needs a `\n` before
  its end. Section bodies are trimmed, so the last insight of a section is
  dropped unless it has a SourceDetails line.

## Model

| member | source | states |
|---|---|---|
| ApiClient.ClientAfterUpdate | services/geminiService.ts:11-27 | a client exists after an update exactly when the key is present, not blank, not the placeholder and construction does not throw; it carries that key |
| ApiClient.EnsureResult | services/geminiService.ts:33-39 | succeeds exactly when a client exists, returning it; otherwise fails with the missing-key message |
| ApiClient.GeminiService.constructor | services/geminiService.ts:6 | the client cell starts empty |
| ApiClient.GeminiService.UpdateApiKey | services/geminiService.ts:11-27 | the cell becomes the client for an acceptable key or is cleared; the result is true exactly when a client was stored |
| ApiClient.GeminiService.GetClient | services/geminiService.ts:29-31 | returns the current cell without changing it |
| ApiClient.GeminiService.EnsureClient | services/geminiService.ts:33-39 | returns the stored client or the missing-key failure, state unchanged |
| ApiClient.UpdateThenEnsure | services/geminiService.ts:11-39 | after a successful update the fetchers proceed exactly for acceptable keys, with that key |
| ApiClient.RejectedKeys | services/geminiService.ts:12 | null, blank and placeholder keys leave no client |
| ApiClient.ConstructionFailureClears | services/geminiService.ts:14-20 | a throwing constructor clears the client |
| Text.Trim | services/geminiService.ts:48 | the result is no longer than the input and neither starts nor ends with whitespace |
| Text.TrimEmptyIff | services/geminiService.ts:78 | a trimmed field is empty exactly when it was all whitespace |
| Text.TrimIdempotent | services/geminiService.ts:226-230 | trimming twice is trimming once |
| Text.TrimUnchanged | services/geminiService.ts:53-54 | text without outer whitespace is unchanged by trim |
| Text.TrimAfterSpace | services/geminiService.ts:48 | leading whitespace does not change the trimmed result |
| Text.TrimBeforeSpace | services/geminiService.ts:48 | trailing whitespace does not change the trimmed result |
| Text.IndexOf | services/geminiService.ts:232-233 | finds the first occurrence, and finds one exactly when the text contains the literal |
| Text.Split | services/geminiService.ts:111 | the pieces joined by the separator give back the text, no piece holds the separator, a single piece exactly when there is no separator |
| Text.RunEnd | services/geminiService.ts:63 | the end of the longest run of a character class from a position |
| Text.NatToString | services/geminiService.ts:301 | a non-empty string of decimal digits |
| Text.DecimalValueOfNatToString | services/geminiService.ts:301 | the digits printed for an index read back as that index |
| Text.NatToStringInjective | services/geminiService.ts:301 | different indices print differently |
| Sections.FindMarker | services/geminiService.ts:50 | the first `SECTION: ` followed by a word character from a position |
| Sections.SplitSectionsFrom | services/geminiService.ts:50 | the split from a position is the leftmost, greedy one: odd length, rejoins to the suffix, names are non-empty word runs, bodies do not start with a word character, no marker starts inside a text part (even one reaching into the next marker), and every body but the last is non-empty |
| Sections.SplitSections | services/geminiService.ts:50 | the same leftmost, greedy split for the whole text, which rejoins to it, so the split loses nothing |
| Sections.RawSections | services/geminiService.ts:52-54 | one (name, body) pair per captured name |
| Sections.RawSectionAt | services/geminiService.ts:52-54 | the n-th pair is the (2n+1)-th and (2n+2)-th part |
| Patterns.FirstStop | services/geminiService.ts:66-69 | the first position from a start where the lazy match may stop, or none |
| Patterns.LabelledCapture | services/geminiService.ts:66-70 | a capture exists only if the label occurs, and a non-empty capture starts with a visible character |
| Patterns.CaptureFrom | services/geminiService.ts:66 | after skipping `\s*`, a non-empty capture starts with a visible character |
| Patterns.NumeralAfter | services/geminiService.ts:72-76 | a match is a non-empty digit run, with a fraction only for the percentage, and only when the label occurs |
| Patterns.LabelledCaptureOfField | services/geminiService.ts:66-70 | for the first label, the capture runs from the first visible character to the first stop |
| Patterns.NumeralOfField | services/geminiService.ts:72-76 | for the first label, the numeral is the digit run after the spaces, with no fraction |
| Patterns.FractionOfField | services/geminiService.ts:75-76 | for the first label, digits, a dot and digits give the whole and fractional parts |
| Patterns.FirstStopIs | services/geminiService.ts:69 | a stop with no earlier stop is the one the lazy match takes |
| StockExtraction.TickerOf | services/geminiService.ts:63-64 | a ticker is a non-empty run of `[\w.-]` |
| StockExtraction.CompanyNameOf | services/geminiService.ts:66-67 | a name is found only when the label occurs, and has no outer whitespace |
| StockExtraction.RationaleOf | services/geminiService.ts:69-70 | a rationale is found only when the label occurs, and has no outer whitespace |
| StockExtraction.ConfidenceScoreOf | services/geminiService.ts:72-73 | a score is found only when the label occurs |
| StockExtraction.AllocationPercentageOf | services/geminiService.ts:75-76 | a parsed percentage is never negative |
| StockExtraction.AllocationPercentageOfLayout | services/geminiService.ts:75-76 | digits, a dot and digits after the first label read as that decimal |
| StockExtraction.AllocationPercentageOfWholeLayout | services/geminiService.ts:75-76 | digits without a dot after the first label read as that whole number |
| StockExtraction.ExtractStock | services/geminiService.ts:61-82 | a chunk yields a recommendation exactly when ticker, company name and rationale are all non-empty |
| StockExtraction.KeptStocks | services/geminiService.ts:60-83 | at most one recommendation per chunk, each complete, with no negative allocation |
| StockExtraction.StockChunks | services/geminiService.ts:59 | the pieces after each `- Ticker:`: a marker-free preamble followed by the chunks, joined by `- Ticker:`, gives back the body, and no chunk contains the marker |
| StockExtraction.PushStocks | services/geminiService.ts:60-83 | the loop appends exactly the kept recommendations to the list |
| StockExtraction.KeptStocksAppend | services/geminiService.ts:60-83 | chunks are handled independently and in order |
| StockExtraction.ChunkWithoutCompanyNameDropped | services/geminiService.ts:66-67 | a chunk without `CompanyName:` is skipped |
| StockExtraction.TickerOfLayout | services/geminiService.ts:63-64 | leading whitespace and then a ticker run give that ticker |
| StockExtraction.ChunkWithoutTickerDropped | services/geminiService.ts:63-64 | a chunk whose first visible character is not a ticker character is skipped |
| StockExtraction.ConfidenceScoreOfLayout | services/geminiService.ts:72-73 | the score is the decimal value of the digits after the first label |
| StockExtraction.ConfidenceScoreNotClamped | services/geminiService.ts:72-73 | a score of 150 is kept as 150 |
| InsightExtraction.InsightTextOf | services/geminiService.ts:115-116 | matches exactly when the chunk has an insight stop; the value is the trimmed text before the first stop, shorter than the chunk |
| InsightExtraction.ExtractInsight | services/geminiService.ts:113-123 | an insight is kept exactly when its text is non-empty; the source details come from the label |
| InsightExtraction.KeptInsights | services/geminiService.ts:112-124 | at most one insight per chunk, each non-empty |
| InsightExtraction.InsightChunks | services/geminiService.ts:111 | the pieces after each `- Insight:`: a marker-free preamble followed by the chunks, joined by `- Insight:`, gives back the body, and no chunk contains the marker |
| InsightExtraction.PushInsights | services/geminiService.ts:112-124 | the loop appends exactly the kept insights |
| InsightExtraction.KeptInsightsAppend | services/geminiService.ts:112-124 | chunks are handled independently and in order |
| InsightExtraction.SourceDetailsOf | services/geminiService.ts:118-119 | details are found only when the label occurs, and have no outer whitespace |
| InsightExtraction.SourceDetailsIffLabel | services/geminiService.ts:118-119 | source details exist exactly when the chunk contains the label |
| InsightExtraction.ChunkWithoutLineBreakDropped | services/geminiService.ts:115-116 | a chunk without a line break yields no insight |
| InsightExtraction.InsightBeforeSourceDetails | services/geminiService.ts:115-116 | a one-line insight followed by the SourceDetails line is that line, trimmed |
| InsightExtraction.SourceDetailsBeforeEndOfResponse | services/geminiService.ts:118-119 | source details stop at the end-of-response marker |
| InsightExtraction.ChunkEndingVisibleWithoutSourceDetailsDropped | services/geminiService.ts:115-121 | a chunk ending in a visible character without a SourceDetails line is skipped |
| InsightExtraction.LastInsightOfSectionDropped | services/geminiService.ts:54-124 | the last insight of a trimmed section without a SourceDetails line is lost |
| Allocation.Round1 | services/geminiService.ts:101 | the result is a whole number of tenths within (x − 0.05, x + 0.05], i.e. half-up rounding to one decimal, and non-negative for a non-negative input |
| Allocation.Round1Unique | services/geminiService.ts:101 | the only tenth within (x − 0.05, x + 0.05] is Round1(x), so the contract of Round1 determines it |
| Allocation.Cleared | services/geminiService.ts:96 | every recommendation loses its allocation, nothing else changes |
| Allocation.Rescaled | services/geminiService.ts:99-102 | every allocation is multiplied by the factor and rounded |
| Allocation.ClearAllocations | services/geminiService.ts:96 | the delete loop computes the cleared list |
| Allocation.RescaleAllocations | services/geminiService.ts:99-102 | the rescale loop computes the rescaled list |
| Allocation.ReconcileAllocations | services/geminiService.ts:85-108 | the reconciler computes the three-tier result |
| Allocation.Reconciled | services/geminiService.ts:85-108 | the batch keeps its length, and each recommendation keeps its ticker, name, rationale and score |
| Allocation.TotalNonNegative | services/geminiService.ts:91-92 | a sum of valid allocations is non-negative |
| Allocation.TotalConcat | services/geminiService.ts:92 | the sum splits over concatenation |
| Allocation.ReconciledAllOrNone | services/geminiService.ts:85-108 | afterwards either every recommendation has an allocation or none has |
| Allocation.ReconciledClearsIff | services/geminiService.ts:87-106 | a non-empty batch is cleared exactly when some allocation is missing or the sum is more than 5 from 100 |
| Allocation.RescaleTierTotal | services/geminiService.ts:97-102 | in the rescale tier the sum is between 95 and 105, so the factor is defined, and the result is the rescaled list |
| Allocation.KeepTierUnchanged | services/geminiService.ts:97 | a sum within 0.1 of 100 is left alone |
| Allocation.ScaledTotalIsProduct | services/geminiService.ts:99-101 | scaling each allocation scales the sum |
| Allocation.RescaledTotalNear | services/geminiService.ts:99-102 | rounding moves the rescaled sum by at most 0.05 per stock |
| Allocation.RescaledNear100 | services/geminiService.ts:99-102 | a factor that scales the sum to 100 lands within 0.05 per stock of 100 |
| Allocation.RescaleTierNear | services/geminiService.ts:97-102 | after rescaling, the sum is within 0.05 per stock of 100 |
| Allocation.RescaledToTotalNear100 | services/geminiService.ts:99-102 | rescaling by `100 / total` gives a sum within 0.05 per stock of 100 |
| Allocation.ReconciledTotal | services/geminiService.ts:85-108 | when allocations survive, their sum is within 0.1 or 0.05 per stock of 100 |
| Allocation.RescaledTotalCanMiss100ByMoreThanTenth | services/geminiService.ts:97-102 | five stocks summing to 99 are rescaled and end at 99.8 |
| Allocation.SixtyPlusFiftyIsCleared | services/geminiService.ts:94-96 | 60 + 50 is cleared, not rescaled |
| Allocation.SixtyPlusTenIsCleared | services/geminiService.ts:94-96 | 60 + 10 is cleared |
| PortfolioParser.ClosingFence | services/geminiService.ts:48 | the first closing fence followed only by whitespace, from a position |
| PortfolioParser.StripFences | services/geminiService.ts:48 | removing the fences never lengthens the text |
| PortfolioParser.CleanText | services/geminiService.ts:48 | the cleaned text has no outer whitespace |
| PortfolioParser.Trimmed | services/geminiService.ts:53-54 | section k is section k with its name and body trimmed |
| PortfolioParser.SectionsOf | services/geminiService.ts:52-54 | one section per captured name; section k is parts 2k+1 and 2k+2, trimmed |
| PortfolioParser.SectionsOfAt | services/geminiService.ts:52-54 | section k is the trimmed name at part 2k+1 and the trimmed body at part 2k+2 |
| PortfolioParser.ApplySection | services/geminiService.ts:56-125 | a section changes only the field its name selects; insights only grow at the end and recommendations are never lost |
| PortfolioParser.ApplySections | services/geminiService.ts:52-126 | over all sections, earlier insights stay in front and no recommendation is lost |
| PortfolioParser.HandleSection | services/geminiService.ts:56-125 | one section's handler computes the section's effect on the result |
| PortfolioParser.HandleSections | services/geminiService.ts:52-126 | the loop applies every section in order to the empty result |
| PortfolioParser.ParseGeminiResponse | services/geminiService.ts:41-128 | the parse is the sections of the cleaned text applied in order |
| PortfolioParser.CleanTextOfFencedJson | services/geminiService.ts:48 | a json-fenced body comes out trimmed |
| PortfolioParser.CleanTextWithoutFence | services/geminiService.ts:48 | text without fences is only trimmed |
| PortfolioParser.ClosingFenceIs | services/geminiService.ts:48 | a closing fence with none earlier is the one removed |
| PortfolioParser.KnownSections | services/geminiService.ts:56-110 | keeps only the three handled section names |
| PortfolioParser.UnknownSectionsIgnored | services/geminiService.ts:56-125 | sections with other names do not change the result |
| PortfolioParser.SummaryUnchangedWithoutSection | services/geminiService.ts:56-57 | without a summary section the summary is unchanged |
| PortfolioParser.LastSummaryWins | services/geminiService.ts:56-57 | the last summary section gives the summary |
| PortfolioParser.ApplySectionsConcat | services/geminiService.ts:52-126 | sections are applied left to right |
| PortfolioParser.StocksCompleteAndAllOrNone | services/geminiService.ts:58-108 | every section step keeps the recommendations complete and all-or-none allocated |
| PortfolioParser.ParsedResponse | services/geminiService.ts:41-128 | every parsed recommendation is complete, all or none have allocations, and every insight has text |
| PortfolioParser.InsightsNonEmpty | services/geminiService.ts:110-124 | every parsed insight is non-empty |
| PortfolioParser.PreambleIgnored | services/geminiService.ts:50-52 | text before the first section marker has no effect |
| JsonEnvelope.FenceCapture | services/geminiService.ts:228-230 | matches exactly when the text starts and ends with a fence; the capture is the trimmed text between the opening fence, with its optional `json` tag, and the closing fence |
| JsonEnvelope.ExtractJson | services/geminiService.ts:225-250 | the payload is no longer than the text and has no outer whitespace |
| JsonEnvelope.FirstJsonStart | services/geminiService.ts:232-243 | the first `{` or `[`, or none |
| JsonEnvelope.JsonSuffix | services/geminiService.ts:232-247 | a suffix starting at the first `{` or `[`, or the whole text when there is none |
| JsonEnvelope.FencedContent | services/geminiService.ts:228-230 | the content of a json fence is returned |
| JsonEnvelope.FencedPlainContent | services/geminiService.ts:228-230 | the content of an untagged fence is returned when it does not open with `json` |
| JsonEnvelope.FencedArrayExample | services/geminiService.ts:228-230 | a fenced one-element array yields the array |
| JsonEnvelope.UnfencedIsSuffix | services/geminiService.ts:231-247 | unfenced text yields its suffix from the first `{` or `[` |
| JsonEnvelope.NoBraceUnchanged | services/geminiService.ts:245-249 | unfenced text without brackets is only trimmed |
| JsonEnvelope.StartsWithJson | services/geminiService.ts:225-250 | text that already starts with JSON is unchanged |
| JsonEnvelope.UnfencedIdempotent | services/geminiService.ts:225-250 | extracting twice is extracting once for unfenced text |
| Json.Member | services/geminiService.ts:302 | a member exists exactly for an object with that key |
| Json.Or | services/geminiService.ts:302-305 | JavaScript `or` yields the value when truthy, otherwise the fallback |
| Json.Spread | services/geminiService.ts:300 | spreading copies object fields, array items and string characters by index, and nothing for other values |
| Json.Indexed | services/geminiService.ts:300 | each item is keyed by its printed index, and every key is such an index |
| News.Prefix100 | services/geminiService.ts:291 | at most 100 characters, a prefix, the whole text when short |
| News.NewsCategory | services/geminiService.ts:303 | the item's own category when it is a listed one, `기타` in every other case |
| News.FirstNull | services/geminiService.ts:299 | the first null item, whose `.url` would throw |
| News.NewsArticles | services/geminiService.ts:299-306 | one article per item, with its id and normalised category |
| News.StockNewsArticles | services/geminiService.ts:435-442 | one article per item, with the stock id and the company-news category |
| News.Article | services/geminiService.ts:299-306 | the article holds every spread key, the given id and the given category |
| News.NewsOf | services/geminiService.ts:287-306 | a parse failure reports the first 100 characters; success means an array was parsed, with one article per item |
| News.StockNewsOf | services/geminiService.ts:423-442 | a parse failure reports the first 100 characters; success means an array was parsed, with one article per item |
| News.RecentNews | services/geminiService.ts:283-306 | a parse failure is reported; every article is well formed and ids are pairwise distinct |
| News.StockNews | services/geminiService.ts:419-442 | a parse failure is reported; every article is in the company-news category |
| News.ParsedItems | services/geminiService.ts:287-297 | on success no item is null |
| News.ArticleKeepsItem | services/geminiService.ts:299-306 | every spread field survives, and only the five overridden fields differ |
| News.ArticleDefaults | services/geminiService.ts:302-305 | url, source name and date are the item's when truthy, else `#`, `출처 미상`, `최근` |
| News.NewsIdsDistinct | services/geminiService.ts:301 | different indices give different news ids, whatever the clock says |
| News.StockNewsIdsDistinct | services/geminiService.ts:437 | different indices give different stock-news ids |
| News.NewsArticleWellFormed | services/geminiService.ts:299-306 | an article has a truthy url and a valid category |
| News.NewsArticlesShape | services/geminiService.ts:299-306 | all articles are well formed with pairwise distinct ids |
| News.NewsShape | services/geminiService.ts:294-306 | success means an array was parsed, with one well-formed article per item and distinct ids |
| News.StockNewsCategory | services/geminiService.ts:430-442 | success means an array was parsed, and every stock article is `기업 뉴스` |
| News.NewsFailures | services/geminiService.ts:287-306 | parse failure, non-array and null item are the only failures, each exactly when it happens |
| Grounding.SourcesOf | services/geminiService.ts:207-211 | never more sources than chunks |
| Grounding.GroundingSources | services/geminiService.ts:205-212 | no chunk list gives no sources; never more sources than chunks; each source has a non-empty uri and title |
| Grounding.CollectSources | services/geminiService.ts:205-212 | no metadata gives no sources; otherwise the filtered list |
| Grounding.SourcesOfAppend | services/geminiService.ts:207-211 | order is preserved across concatenation |
| Grounding.SourcesNonEmpty | services/geminiService.ts:208-209 | every source has a non-empty uri and title, as `Qualifies` demands |
| Grounding.SourcesMembership | services/geminiService.ts:207-211 | a source is listed exactly when some chunk that `Qualifies` (web part with truthy uri and title) gives it |
| Grounding.AllQualifying | services/geminiService.ts:207-211 | when every chunk qualifies, the sources follow the chunks one to one |
| Grounding.UnqualifiedDropped | services/geminiService.ts:208 | a chunk missing its uri or title is dropped without other effect |
| Indicators.FromPayload | services/geminiService.ts:503-523 | succeeds exactly for an object with an `indicators` array, returns that array, a truthy date and the grounding sources |
| Indicators.IndicatorsOf | services/geminiService.ts:495-523 | a parse failure reports the first 100 characters; success means an object was parsed, with a truthy date and the grounding sources |
| Indicators.FinancialIndicators | services/geminiService.ts:492-523 | a parse failure is reported; success carries a truthy date and the filtered grounding sources, each with uri and title |
| Indicators.IndicatorsAccepted | services/geminiService.ts:495-506 | success exactly when parsed to an object with an indicators array; a parse failure reports the first 100 characters |
| Indicators.DataAsOfDefault | services/geminiService.ts:520-521 | the date is the payload's when truthy, else `날짜 정보 없음`; the comment is passed through |
| Indicators.NonObjectRefused | services/geminiService.ts:503-505 | a non-object payload is refused for missing indicators |
| Indicators.EmptyIndicatorsAccepted | services/geminiService.ts:503 | an empty indicators array is accepted |
| StockDetails.ContentFor | components/StockDetailsPage.tsx:220 | the trimmed part when that is non-empty, otherwise `내용 없음` |
| StockDetails.Items | components/StockDetailsPage.tsx:218-228 | one item per section |
| StockDetails.ItemsOf | components/StockDetailsPage.tsx:217-228 | one item per captured name |
| StockDetails.ItemAt | components/StockDetailsPage.tsx:221-227 | item k is the title and content of section k |
| StockDetails.ItemsOfAt | components/StockDetailsPage.tsx:218-227 | item k is built from parts 2k+1 and 2k+2 |
| StockDetails.BuildStructuredAnalysis | components/StockDetailsPage.tsx:215-229 | the items are the structured analysis of the text, empty for no text |
| StockDetails.PushItems | components/StockDetailsPage.tsx:218-228 | the loop pushes one item per section in order |
| StockDetails.TitleForKnown | components/StockDetailsPage.tsx:221-226 | the five known names map to their Korean titles; other names map to themselves |
| StockDetails.TitleForIsName | components/StockDetailsPage.tsx:221-226 | a name is its own title exactly when it is not one of the five |
| StockDetails.StructuredAnalysis | components/StockDetailsPage.tsx:215-229 | no analysis text, or an empty one, gives no items; every item has non-empty content |
| StockDetails.NoMarkerNoItems | components/StockDetailsPage.tsx:216-218 | text without a marker gives no items |
| StockDetails.SingleSection | components/StockDetailsPage.tsx:217-227 | a single marked section gives exactly its titled item |
| StockDetails.MarkerAfterMarker | components/StockDetailsPage.tsx:216 | `SECTION: SECTION: A` splits into an empty preamble, the name `SECTION` and the body `: A` |
| StockDetails.TitleFor | components/StockDetailsPage.tsx:221-226 | a known name gets one of the five Korean titles; any other name is its own title |
| StockDetails.GoogleFinanceSymbol | components/StockDetailsPage.tsx:32 | the symbol never holds a dot, and an undotted ticker is its own symbol |
| StockDetails.GoogleFinanceUrl | components/StockDetailsPage.tsx:32 | the Google Finance quote prefix followed by a dot-free symbol |
| StockDetails.YahooFinanceUrl | components/StockDetailsPage.tsx:33 | the Yahoo Finance quote prefix followed by the ticker unchanged |
| StockDetails.GoogleFinanceDotted | components/StockDetailsPage.tsx:32 | `A.B` tickers become `A:B` in the Google Finance URL, ignoring later pieces |
| StockDetails.DottedPieces | components/StockDetailsPage.tsx:32 | the first two pieces of a dotted ticker are the parts around the first two dots |
| StockDetails.UndottedTicker | components/StockDetailsPage.tsx:32-33 | an undotted ticker is used as is in both URLs |

## Left out

- The network calls to `generateContent`, the prompts, the model name and the tool configuration. The responses' text and grounding metadata are inputs.
- `JSON.parse`. It is a parameter, so any parser, including one that fails, can be supplied.
- `Date.now()`. It is the parameter `now`, so ids are proved distinct for every clock.
- Console logging and the wrapping of caught errors into `Gemini API 오류: …` messages. Failures are modelled as typed error values.
- Round1: rounds an exact real half up. IEEE-754 `toFixed(1)` and `parseFloat` are not modelled, so the bounds hold for exact arithmetic only.
- AllocationPercentageOf: reads the digits as an exact decimal rather than an IEEE double.
- ConfidenceScoreOf: reads the digits as an exact natural number; `parseInt` loses precision above 2^53.
- News.Prefix100: counts characters, not the UTF-16 code units of `substring(0,100)`.
- The detail page's analysis fetch, its loading flags and React rendering, `App.tsx` and the other components: user interface state outside the parsing core.
- Portfolio and analysis assemblers' `response.text || "…"` fallbacks and the analysis text itself. Only their grounding filtering is modelled, by `Grounding`.
- Grounding.CollectSources: takes the chunks of the first candidate as given; the optional chaining that reaches them is not modelled.
