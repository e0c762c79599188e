/**
 * `fetchStockFinancialIndicators` from the response text on: the JSON part
 * is parsed, its `indicators` property must be an array (an empty one
 * included), `dataAsOf` falls back to `날짜 정보 없음` and the grounding
 * sources are filtered as for every fetcher.
 */
module Indicators {
  import opened Wrappers
  import opened Json
  import opened Grounding
  import News

  const NoDate := "날짜 정보 없음"

  datatype IndicatorsError =
    | Unparseable(attempted: string)  // `JSON.parse` threw; the first 100 characters tried
    | NullPayload                     // `null.indicators` throws
    | MissingIndicators               // `indicators` is absent, falsy or not an array

  datatype StockFinancialsData = StockFinancialsData(
    indicators: seq<Json>,
    dataAsOf: Json,
    dataComment: Option<Json>,
    groundingSources: seq<GroundingSource>)

  /** `!parsedData.indicators || !Array.isArray(parsedData.indicators)` fails for a non-null payload */
  predicate HasIndicators(payload: Json)
    requires !payload.JNull?
  {
    Member(payload, "indicators").Some? && Member(payload, "indicators").value.JArray?
  }

  /** The checks and defaults applied to the parsed payload */
  function FromPayload(payload: Json, chunks: Option<seq<GroundingChunk>>): (r: Result<StockFinancialsData, IndicatorsError>)
    ensures r.Success? <==> payload.JObject? && "indicators" in payload.fields && payload.fields["indicators"].JArray?
    ensures r.Success? ==> r.value.indicators == payload.fields["indicators"].items
    ensures r.Success? ==> Truthy(r.value.dataAsOf)
    ensures r.Success? ==> r.value.groundingSources == GroundingSources(chunks)
    ensures r.Failure? ==> (r.error == NullPayload <==> payload.JNull?)
  {
    if payload.JNull? then Failure(NullPayload)
    else if !HasIndicators(payload) then Failure(MissingIndicators)
    else
      Success(StockFinancialsData(
        Member(payload, "indicators").value.items,
        Or(Member(payload, "dataAsOf"), JString(NoDate)),
        Member(payload, "dataComment"),
        GroundingSources(chunks)))
  }

  /** The result for the parse of `j` (None when `JSON.parse` threw) */
  function IndicatorsOf(j: string, parsed: Option<Json>, chunks: Option<seq<GroundingChunk>>): (r: Result<StockFinancialsData, IndicatorsError>)
    ensures parsed.None? ==> r == Failure(Unparseable(News.Prefix100(j)))
    ensures r.Success? ==> parsed.Some? && parsed.value.JObject? && Truthy(r.value.dataAsOf)
    ensures r.Success? ==> r.value.groundingSources == GroundingSources(chunks)
  {
    match parsed
    case None => Failure(Unparseable(News.Prefix100(j)))
    case Some(payload) => FromPayload(payload, chunks)
  }

  /** The result the fetcher returns, or the error it raises */
  function FinancialIndicators(responseText: Option<string>, parse: string -> Option<Json>,
                               chunks: Option<seq<GroundingChunk>>): (r: Result<StockFinancialsData, IndicatorsError>)
    ensures parse(News.JsonToParse(responseText)).None? ==> r.Failure? && r.error.Unparseable?
    ensures r.Success? ==> Truthy(r.value.dataAsOf) && r.value.groundingSources == GroundingSources(chunks)
    ensures r.Success? ==> forall k :: 0 <= k < |r.value.groundingSources| ==>
      r.value.groundingSources[k].uri != [] && r.value.groundingSources[k].title != []
  {
    var j := News.JsonToParse(responseText);
    IndicatorsOf(j, parse(j), chunks)
  }

  // ---------------------------------------------------------------------------
  // Properties

  /**
   * The fetch succeeds exactly when the payload is an object whose
   * `indicators` is an array, and then returns that array unchanged, even
   * when it is empty.
   */
  lemma IndicatorsAccepted(j: string, parsed: Option<Json>, chunks: Option<seq<GroundingChunk>>)
    ensures var r := IndicatorsOf(j, parsed, chunks);
      && (r.Success? <==> parsed.Some? && parsed.value.JObject? && "indicators" in parsed.value.fields
                          && parsed.value.fields["indicators"].JArray?)
      && (r.Success? ==> r.value.indicators == parsed.value.fields["indicators"].items)
      && (parsed.None? <==> r == Failure(Unparseable(News.Prefix100(j))))
  {
  }

  /** `dataAsOf` is the payload's when truthy and `날짜 정보 없음` otherwise; `dataComment` is passed through. */
  lemma DataAsOfDefault(payload: Json, chunks: Option<seq<GroundingChunk>>)
    requires FromPayload(payload, chunks).Success?
    ensures var r := FromPayload(payload, chunks).value;
      && (TruthyMember(Member(payload, "dataAsOf")) ==> r.dataAsOf == payload.fields["dataAsOf"])
      && (!TruthyMember(Member(payload, "dataAsOf")) ==> r.dataAsOf == JString(NoDate))
      && r.dataComment == Member(payload, "dataComment")
  {
  }

  /** A payload that is an array, a string, a number or a boolean has no `indicators` and is refused. */
  lemma NonObjectRefused(payload: Json, chunks: Option<seq<GroundingChunk>>)
    requires !payload.JObject? && !payload.JNull?
    ensures FromPayload(payload, chunks) == Failure(MissingIndicators)
  {
  }

  /** An object with an empty `indicators` array is accepted. */
  lemma EmptyIndicatorsAccepted(fields: map<string, Json>, chunks: Option<seq<GroundingChunk>>)
    requires "indicators" in fields && fields["indicators"] == JArray([])
    ensures FromPayload(JObject(fields), chunks).Success?
    ensures FromPayload(JObject(fields), chunks).value.indicators == []
  {
  }
}
