/**
 * The two news fetchers after the model has answered: the response text is
 * reduced to its JSON part, parsed, required to be an array, and each item is
 * spread into an article whose id is generated and whose `url`, `category`,
 * `sourceName` and `publishedDateText` fall back to defaults.
 *
 * `JSON.parse` is the parameter `parse` (None when it throws) and `Date.now()`,
 * read once per item, is the parameter `now` (the reading taken for item `i`).
 */
module News {
  import opened Wrappers
  import opened Text
  import opened Json
  import opened JsonEnvelope

  /** The categories an article of the general feed may carry */
  const Categories: seq<string> := ["기술", "금융", "글로벌 경제", "산업 동향", "시장 분석", "부동산", "에너지", "기업 뉴스"]
  const OtherCategory := "기타"
  const CompanyNewsCategory := "기업 뉴스"
  const DefaultUrl := "#"
  const UnknownSource := "출처 미상"
  const Recently := "최근"

  /** Why a fetch fails once the response text is in hand */
  datatype NewsError =
    | Unparseable(attempted: string)  // `JSON.parse` threw; the first 100 characters tried
    | NotAnArray                      // the parsed value is not an array
    | NullItem(index: nat)            // reading a property of a `null` item throws

  /** `s.substring(0, 100)` */
  function Prefix100(s: string): (r: string)
    ensures |r| <= 100 && r <= s
    ensures |s| <= 100 ==> r == s
  {
    if |s| <= 100 then s else s[..100]
  }

  /** `NEWS_CATEGORIES_FOR_PROMPT.includes(item.category) ? item.category : "기타"` */
  function NewsCategory(item: Json): (r: Json)
    requires !item.JNull?
    ensures r.JString? && (r.s in Categories || r.s == OtherCategory)
    ensures Member(item, "category").Some? && Member(item, "category").value.JString?
            && Member(item, "category").value.s in Categories
            ==> r == Member(item, "category").value
    ensures !(Member(item, "category").Some? && Member(item, "category").value.JString?
              && Member(item, "category").value.s in Categories)
            ==> r == JString(OtherCategory)
  {
    match Member(item, "category")
    case Some(JString(c)) => if c in Categories then JString(c) else JString(OtherCategory)
    case _ => JString(OtherCategory)
  }

  /** `{...item, id, url: item.url || '#', category, sourceName: … || "출처 미상", publishedDateText: … || "최근"}` */
  function Article(item: Json, id: string, category: Json): (r: Object)
    requires !item.JNull?
    ensures forall k :: k in Spread(item) ==> k in r
    ensures "id" in r && r["id"] == JString(id)
    ensures "category" in r && r["category"] == category
  {
    Spread(item)
      ["id" := JString(id)]
      ["url" := Or(Member(item, "url"), JString(DefaultUrl))]
      ["category" := category]
      ["sourceName" := Or(Member(item, "sourceName"), JString(UnknownSource))]
      ["publishedDateText" := Or(Member(item, "publishedDateText"), JString(Recently))]
  }

  /** The properties every article sets over the item's own */
  predicate Overridden(k: string) {
    k in {"id", "url", "category", "sourceName", "publishedDateText"}
  }

  /** `news-${Date.now()}-${index}` */
  function NewsId(stamp: nat, index: nat): string {
    "news-" + NatToString(stamp) + "-" + NatToString(index)
  }

  /** `stock-news-${ticker}-${Date.now()}-${index}` */
  function StockNewsId(ticker: string, stamp: nat, index: nat): string {
    "stock-news-" + ticker + "-" + NatToString(stamp) + "-" + NatToString(index)
  }

  /** The first `null` item, where `map` throws */
  function FirstNull(items: seq<Json>): (r: Option<nat>)
    ensures r.Some? ==> r.value < |items| && items[r.value].JNull? && forall i :: 0 <= i < r.value ==> !items[i].JNull?
    ensures r.None? ==> forall i :: 0 <= i < |items| ==> !items[i].JNull?
  {
    if items == [] then None
    else
      match FirstNull(items[..|items| - 1])
      case Some(i) => Some(i)
      case None => if items[|items| - 1].JNull? then Some(|items| - 1) else None
  }

  /** The general feed's articles: `parsedNewsData.map(…)` */
  function NewsArticles(items: seq<Json>, now: nat -> nat): (r: seq<Object>)
    requires forall i :: 0 <= i < |items| ==> !items[i].JNull?
    ensures |r| == |items|
    ensures forall i :: 0 <= i < |r| ==> r[i] == Article(items[i], NewsId(now(i), i), NewsCategory(items[i]))
  {
    seq(|items|, i requires 0 <= i < |items| => Article(items[i], NewsId(now(i), i), NewsCategory(items[i])))
  }

  /** A company's articles: every category is `기업 뉴스` */
  function StockNewsArticles(ticker: string, items: seq<Json>, now: nat -> nat): (r: seq<Object>)
    requires forall i :: 0 <= i < |items| ==> !items[i].JNull?
    ensures |r| == |items|
    ensures forall i :: 0 <= i < |r| ==> r[i] == Article(items[i], StockNewsId(ticker, now(i), i), JString(CompanyNewsCategory))
  {
    seq(|items|, i requires 0 <= i < |items| => Article(items[i], StockNewsId(ticker, now(i), i), JString(CompanyNewsCategory)))
  }

  /** `response.text || ""`, then `extractJsonFromString` */
  function JsonToParse(responseText: Option<string>): string {
    ExtractJson(if responseText.Some? then responseText.value else "")
  }

  /** The items of what `JSON.parse(j)` gave (None when it threw), or the error raised before mapping them */
  function ParsedItems(j: string, parsed: Option<Json>): (r: Result<seq<Json>, NewsError>)
    ensures r.Success? ==> forall i :: 0 <= i < |r.value| ==> !r.value[i].JNull?
  {
    match parsed
    case None => Failure(Unparseable(Prefix100(j)))
    case Some(v) =>
      if !v.JArray? then Failure(NotAnArray)
      else match FirstNull(v.items)
        case Some(i) => Failure(NullItem(i))
        case None => Success(v.items)
  }

  /** The general feed from the parse of `j` on */
  function NewsOf(j: string, parsed: Option<Json>, now: nat -> nat): (r: Result<seq<Object>, NewsError>)
    ensures parsed.None? ==> r == Failure(Unparseable(Prefix100(j)))
    ensures r.Success? ==> parsed.Some? && parsed.value.JArray? && |r.value| == |parsed.value.items|
  {
    match ParsedItems(j, parsed)
    case Failure(e) => Failure(e)
    case Success(items) => Success(NewsArticles(items, now))
  }

  /** A company's feed from the parse of `j` on */
  function StockNewsOf(ticker: string, j: string, parsed: Option<Json>, now: nat -> nat): (r: Result<seq<Object>, NewsError>)
    ensures parsed.None? ==> r == Failure(Unparseable(Prefix100(j)))
    ensures r.Success? ==> parsed.Some? && parsed.value.JArray? && |r.value| == |parsed.value.items|
  {
    match ParsedItems(j, parsed)
    case Failure(e) => Failure(e)
    case Success(items) => Success(StockNewsArticles(ticker, items, now))
  }

  /** `fetchRecentFinancialNews` from the response text on */
  function RecentNews(responseText: Option<string>, parse: string -> Option<Json>, now: nat -> nat): (r: Result<seq<Object>, NewsError>)
    ensures parse(JsonToParse(responseText)).None? ==> r.Failure? && r.error.Unparseable?
    ensures r.Success? ==> forall i :: 0 <= i < |r.value| ==> WellFormedNews(r.value[i])
    ensures r.Success? ==> forall i, k :: 0 <= i < k < |r.value| ==> "id" in r.value[i] && "id" in r.value[k] && r.value[i]["id"] != r.value[k]["id"]
  {
    var j := JsonToParse(responseText);
    var r := NewsOf(j, parse(j), now);
    if r.Success? then NewsShape(j, parse(j), now); r else r
  }

  /** `fetchStockSpecificNews` from the response text on */
  function StockNews(ticker: string, responseText: Option<string>, parse: string -> Option<Json>, now: nat -> nat): (r: Result<seq<Object>, NewsError>)
    ensures parse(JsonToParse(responseText)).None? ==> r.Failure? && r.error.Unparseable?
    ensures r.Success? ==> forall i :: 0 <= i < |r.value| ==> "category" in r.value[i] && r.value[i]["category"] == JString(CompanyNewsCategory)
  {
    var j := JsonToParse(responseText);
    var r := StockNewsOf(ticker, j, parse(j), now);
    if r.Success? then StockNewsCategory(ticker, j, parse(j), now); r else r
  }

  // ---------------------------------------------------------------------------
  // Properties

  /** An article keeps every property of the item it does not set itself, and sets its own five. */
  lemma ArticleKeepsItem(item: Json, id: string, category: Json)
    requires !item.JNull?
    ensures var a := Article(item, id, category);
      && (forall k :: k in Spread(item) ==> k in a)
      && (forall k :: k in a && !Overridden(k) ==> k in Spread(item) && a[k] == Spread(item)[k])
      && "id" in a && a["id"] == JString(id)
      && "category" in a && a["category"] == category
  {
  }

  /** `url`, `sourceName` and `publishedDateText` are the item's when truthy and the default otherwise, so never falsy. */
  lemma ArticleDefaults(item: Json, id: string, category: Json)
    requires !item.JNull?
    ensures var a := Article(item, id, category);
      && "url" in a && "sourceName" in a && "publishedDateText" in a
      && Truthy(a["url"]) && Truthy(a["sourceName"]) && Truthy(a["publishedDateText"])
      && (TruthyMember(Member(item, "url")) ==> a["url"] == Member(item, "url").value)
      && (!TruthyMember(Member(item, "url")) ==> a["url"] == JString(DefaultUrl))
      && (TruthyMember(Member(item, "sourceName")) ==> a["sourceName"] == Member(item, "sourceName").value)
      && (!TruthyMember(Member(item, "sourceName")) ==> a["sourceName"] == JString(UnknownSource))
      && (TruthyMember(Member(item, "publishedDateText")) ==> a["publishedDateText"] == Member(item, "publishedDateText").value)
      && (!TruthyMember(Member(item, "publishedDateText")) ==> a["publishedDateText"] == JString(Recently))
  {
  }

  /** In `x + "-" + a` with `a` all digits, the last `-` is the one at `|x|`. */
  lemma LastDash(x: string, a: string)
    requires AllIn(a, Digit)
    ensures (x + "-" + a)[|x|] == '-'
    ensures forall k :: |x| < k < |x + "-" + a| ==> (x + "-" + a)[k] != '-'
  {
    var s := x + "-" + a;
    forall k | |x| < k < |s|
      ensures s[k] != '-'
    {
      assert s[k] == a[k - |x| - 1];
    }
  }

  /** When a text is some prefix, `-` and digits, the digits are the text after the last `-`. */
  lemma DigitsAfterLastDash(x: string, a: string, y: string, b: string)
    requires AllIn(a, Digit) && AllIn(b, Digit)
    requires x + "-" + a == y + "-" + b
    ensures a == b
  {
    var s := x + "-" + a;
    LastDash(x, a);
    LastDash(y, b);
    assert |x| == |y|;
    assert a == s[|x| + 1..];
    assert b == (y + "-" + b)[|y| + 1..];
  }

  /** Two items of one response get different ids, whatever the clock reads. */
  lemma NewsIdsDistinct(stamp1: nat, i: nat, stamp2: nat, j: nat)
    requires i != j
    ensures NewsId(stamp1, i) != NewsId(stamp2, j)
  {
    if NewsId(stamp1, i) == NewsId(stamp2, j) {
      DigitsAfterLastDash("news-" + NatToString(stamp1), NatToString(i), "news-" + NatToString(stamp2), NatToString(j));
      NatToStringInjective(i, j);
    }
  }

  lemma StockNewsIdsDistinct(ticker: string, stamp1: nat, i: nat, stamp2: nat, j: nat)
    requires i != j
    ensures StockNewsId(ticker, stamp1, i) != StockNewsId(ticker, stamp2, j)
  {
    if StockNewsId(ticker, stamp1, i) == StockNewsId(ticker, stamp2, j) {
      DigitsAfterLastDash("stock-news-" + ticker + "-" + NatToString(stamp1), NatToString(i),
                          "stock-news-" + ticker + "-" + NatToString(stamp2), NatToString(j));
      NatToStringInjective(i, j);
    }
  }

  /** Every article of the general feed has a truthy url and a category from the list or `기타`. */
  predicate WellFormedNews(a: Object) {
    && "url" in a && Truthy(a["url"])
    && "category" in a && a["category"].JString?
    && (a["category"].s in Categories || a["category"].s == OtherCategory)
  }

  lemma NewsArticleWellFormed(item: Json, id: string)
    requires !item.JNull?
    ensures WellFormedNews(Article(item, id, NewsCategory(item)))
    ensures "id" in Article(item, id, NewsCategory(item)) && Article(item, id, NewsCategory(item))["id"] == JString(id)
  {
    ArticleDefaults(item, id, NewsCategory(item));
  }

  lemma NewsArticlesShape(items: seq<Json>, now: nat -> nat)
    requires forall i :: 0 <= i < |items| ==> !items[i].JNull?
    ensures var r := NewsArticles(items, now);
      && (forall i :: 0 <= i < |r| ==> WellFormedNews(r[i]))
      && (forall i, j :: 0 <= i < j < |r| ==> "id" in r[i] && "id" in r[j] && r[i]["id"] != r[j]["id"])
  {
    var r := NewsArticles(items, now);
    forall i | 0 <= i < |r|
      ensures WellFormedNews(r[i]) && "id" in r[i] && r[i]["id"] == JString(NewsId(now(i), i))
    {
      NewsArticleWellFormed(items[i], NewsId(now(i), i));
    }
    forall i, j | 0 <= i < j < |r|
      ensures r[i]["id"] != r[j]["id"]
    {
      NewsIdsDistinct(now(i), i, now(j), j);
    }
  }

  /**
   * A successful fetch yields one article per item of the parsed array, in
   * order, with distinct ids, a truthy url and a category from the list or `기타`.
   */
  lemma NewsShape(j: string, parsed: Option<Json>, now: nat -> nat)
    requires NewsOf(j, parsed, now).Success?
    ensures parsed.Some? && parsed.value.JArray?
    ensures var r := NewsOf(j, parsed, now).value;
      && |r| == |parsed.value.items|
      && (forall i :: 0 <= i < |r| ==> WellFormedNews(r[i]))
      && (forall i, k :: 0 <= i < k < |r| ==> "id" in r[i] && "id" in r[k] && r[i]["id"] != r[k]["id"])
  {
    NewsArticlesShape(ParsedItems(j, parsed).value, now);
  }

  /** A company's articles are all filed under `기업 뉴스`, whatever category the item claimed. */
  lemma StockNewsCategory(ticker: string, j: string, parsed: Option<Json>, now: nat -> nat)
    requires StockNewsOf(ticker, j, parsed, now).Success?
    ensures parsed.Some? && parsed.value.JArray?
    ensures var r := StockNewsOf(ticker, j, parsed, now).value;
      && |r| == |parsed.value.items|
      && forall i :: 0 <= i < |r| ==> "category" in r[i] && r[i]["category"] == JString(CompanyNewsCategory)
  {
  }

  /** The fetch fails exactly when parsing fails, the value is not an array, or an item is `null`. */
  lemma NewsFailures(j: string, parsed: Option<Json>, now: nat -> nat)
    ensures var r := NewsOf(j, parsed, now);
      && (parsed.None? <==> r == Failure(Unparseable(Prefix100(j))))
      && (parsed.Some? && !parsed.value.JArray? <==> r == Failure(NotAnArray))
      && (r.Failure? && r.error.NullItem? ==>
            parsed.Some? && parsed.value.JArray? && r.error.index < |parsed.value.items|
            && parsed.value.items[r.error.index].JNull?)
      && ((parsed.Some? && parsed.value.JArray? && (forall i :: 0 <= i < |parsed.value.items| ==> !parsed.value.items[i].JNull?))
            <==> r.Success?)
  {
  }
}
