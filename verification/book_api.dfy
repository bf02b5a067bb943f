/**
  The book-search client: choosing the Google Books query for a category,
  composing the request URL, and the fail-soft policy that turns whatever
  the request produced into a list of books. The network round trip itself
  is a parameter: a function from the URL to the outcome of fetching it.
*/
module BookApi {
  import opened Types
  import opened JsStrings

  const BaseUrl := "https://www.googleapis.com/books/v1/volumes"

  /** The fixed cap on the number of results asked for. */
  const MaxResults: nat := 20

  const DefaultQuery := "?q=subject:fiction"

  /** Provider search terms for the six categories. */
  const CategoryMap: map<string, string> := map[
    "Romance" := "subject:romance",
    "Magic" := "subject:fantasy",
    "Action" := "subject:action",
    "History" := "subject:history",
    "Horror" := "subject:horror",
    "Programming" := "subject:programming"
  ]

  /** The categories the sidebar lets the user pick. */
  const SidebarCategories: seq<string> := ["Romance", "Magic", "Action", "History", "Horror", "Programming"]

  /** The query part of the request: a mapped term for a known category, the fiction default otherwise. */
  function SelectQuery(category: string): (query: string)
    ensures |query| > 3 && query[..3] == "?q="
    ensures category in CategoryMap ==> query[3..] == CategoryMap[category]
    ensures query == DefaultQuery <==> category !in CategoryMap
  {
    if category != "" && category in CategoryMap then "?q=" + CategoryMap[category] else DefaultQuery
  }

  function DigitChar(d: nat): (c: char)
    requires d < 10
    ensures '0' <= c <= '9' && c as int - '0' as int == d
  {
    ('0' as int + d) as char
  }

  /** The number a string of decimal digits denotes, most significant digit first. */
  function DigitsValue(s: string): int {
    if s == [] then 0 else DigitsValue(s[..|s| - 1]) * 10 + (s[|s| - 1] as int - '0' as int)
  }

  /** A natural number in decimal notation, as a template literal renders it. */
  function Decimal(n: nat): (s: string)
    ensures |s| >= 1
    ensures forall i :: 0 <= i < |s| ==> '0' <= s[i] <= '9'
    ensures DigitsValue(s) == n
    ensures n == 0 ==> s == "0"
    ensures n > 0 ==> s[0] != '0'
    decreases n
  {
    if n < 10 then [DigitChar(n)]
    else
      var s := Decimal(n / 10) + [DigitChar(n % 10)];
      assert s[..|s| - 1] == Decimal(n / 10);
      s
  }

  /** The API key as interpolated into the URL: an unset key renders as "undefined". */
  function KeyText(apiKey: Option<string>): (text: string)
    ensures apiKey.Some? ==> text == apiKey.value
    ensures apiKey.None? ==> text == "undefined"
  {
    apiKey.GetOr("undefined")
  }

  /** The request URL, built by plain concatenation (nothing is escaped). */
  function BuildUrl(query: string, apiKey: Option<string>): (url: string)
    ensures BaseUrl <= url
  {
    BaseUrl + query + "&maxResults=" + Decimal(MaxResults) + "&key=" + KeyText(apiKey) + "&langRestrict=en"
  }

  /** Reads a URL back: the parameters after the base URL, separated at each `&`. */
  function RequestParams(url: string): Option<seq<string>> {
    if BaseUrl <= url then Some(Split(url[|BaseUrl|..], '&')) else None
  }

  /** What a `fetch` of the URL produced: no response at all, or a status flag and a body. */
  datatype Body =
    | Unparsable              // `response.json()` throws, or the JSON is `null` so reading `items` throws
    | Parsed(items: Option<seq<Book>>)   // `data.items`, None when missing, null or otherwise falsy

  datatype FetchOutcome =
    | NetworkError            // `fetch` itself rejects
    | Response(ok: bool, body: Body)

  /** The fail-soft result policy: anything but an ok, parsed response is the empty list. */
  function ResultOf(outcome: FetchOutcome): (books: seq<Book>)
    ensures outcome.Response? && outcome.ok && outcome.body.Parsed? ==> books == outcome.body.items.GetOr([])
    ensures !(outcome.Response? && outcome.ok && outcome.body.Parsed?) ==> books == []
  {
    match outcome
    case NetworkError => []
    case Response(ok, body) =>
      if !ok then []
      else match body
        case Unparsable => []
        case Parsed(items) => items.GetOr([])
  }

  /** `fetchBooks(category)`, with `server` standing for the network round trip. */
  function FetchBooks(category: string, apiKey: Option<string>, server: string -> FetchOutcome): (books: seq<Book>)
    ensures var outcome := server(BuildUrl(SelectQuery(category), apiKey));
      books == [] || (outcome.Response? && outcome.ok && outcome.body == Parsed(Some(books)))
    ensures var outcome := server(BuildUrl(SelectQuery(category), apiKey));
      outcome.Response? && outcome.ok && outcome.body.Parsed? ==> books == outcome.body.items.GetOr([])
  {
    ResultOf(server(BuildUrl(SelectQuery(category), apiKey)))
  }

  /** Each sidebar category is mapped, so picking it from the sidebar never yields the default term. */
  lemma SidebarCategoriesAreMapped()
    ensures forall c :: c in SidebarCategories ==> c in CategoryMap && SelectQuery(c) != DefaultQuery
  {
  }

  /** `Magic` selects the fantasy subject. */
  lemma MagicSelectsFantasy()
    ensures SelectQuery("Magic") == "?q=subject:fantasy"
  {
    assert "Magic" in CategoryMap && CategoryMap["Magic"] == "subject:fantasy";
  }

  /** The empty category, and a category differing from a key only in case, fall back to the default. */
  lemma UnmappedCategoriesFallBack()
    ensures SelectQuery("") == DefaultQuery
    ensures SelectQuery("magic") == DefaultQuery
  {
  }

  lemma MaxResultsText()
    ensures Decimal(MaxResults) == "20"
  {
  }

  /**
    The URL carries exactly four parameters, in order: the query, a result cap
    of 20, the key and the English-language restriction.
  */
  lemma UrlParameters(category: string, apiKey: Option<string>)
    requires '&' !in KeyText(apiKey)
    ensures RequestParams(BuildUrl(SelectQuery(category), apiKey))
      == Some([SelectQuery(category), "maxResults=20", "key=" + KeyText(apiKey), "langRestrict=en"])
  {
    var q := SelectQuery(category);
    var key := "key=" + KeyText(apiKey);
    UrlAfterBase(q, apiKey);
    QueryHasNoAmpersand(category);
    assert '&' !in "maxResults=20" && '&' !in "langRestrict=en";
    assert '&' !in key;
    SplitFour(q, "maxResults=20", key, "langRestrict=en", '&');
  }

  lemma UrlAfterBase(q: string, apiKey: Option<string>)
    ensures BuildUrl(q, apiKey)[|BaseUrl|..]
      == q + ['&'] + ("maxResults=20" + ['&'] + ("key=" + KeyText(apiKey) + ['&'] + "langRestrict=en"))
  {
    var k := KeyText(apiKey);
    var p := "&maxResults=" + Decimal(MaxResults) + "&key=" + k + "&langRestrict=en";
    assert BuildUrl(q, apiKey) == BaseUrl + (q + p);
    assert (BaseUrl + (q + p))[|BaseUrl|..] == q + p;
    ParamsText(k);
  }

  lemma ParamsText(k: string)
    ensures "&maxResults=" + Decimal(MaxResults) + "&key=" + k + "&langRestrict=en"
      == ['&'] + ("maxResults=20" + ['&'] + ("key=" + k + ['&'] + "langRestrict=en"))
  {
    MaxResultsText();
  }

  lemma SplitFour(a: string, b: string, c: string, d: string, sep: char)
    requires sep !in a && sep !in b && sep !in c && sep !in d
    ensures Split(a + [sep] + (b + [sep] + (c + [sep] + d)), sep) == [a, b, c, d]
  {
    SplitAtFirst(c, sep, d);
    SplitAtFirst(b, sep, c + [sep] + d);
    SplitAtFirst(a, sep, b + [sep] + (c + [sep] + d));
  }

  /** Whatever the key, the second parameter is the cap of 20 results. */
  lemma {:induction false} CapIsAlwaysTwenty(category: string, apiKey: Option<string>)
    ensures var params := RequestParams(BuildUrl(SelectQuery(category), apiKey));
      params.Some? && |params.value| >= 3 && params.value[1] == "maxResults=20"
  {
    var q := SelectQuery(category);
    var tail := "key=" + KeyText(apiKey) + ['&'] + "langRestrict=en";
    UrlAfterBase(q, apiKey);
    QueryHasNoAmpersand(category);
    SplitAtFirst(q, '&', "maxResults=20" + ['&'] + tail);
    assert '&' !in "maxResults=20";
    SplitAtFirst("maxResults=20", '&', tail);
  }

  lemma QueryHasNoAmpersand(category: string)
    ensures '&' !in SelectQuery(category)
  {
    if category in CategoryMap {
      assert forall v :: v in CategoryMap.Values ==> '&' !in v;
    }
  }

  /** A failed request, a non-ok status or an unparsable body all give the empty list; none is an error. */
  lemma FailuresGiveEmptyList(outcome: FetchOutcome)
    requires outcome.NetworkError? || !outcome.ok || outcome.body.Unparsable?
    ensures ResultOf(outcome) == []
  {
  }

  /** An ok response yields its items unchanged and in order, or the empty list when there are none. */
  lemma OkResponseYieldsItems(items: Option<seq<Book>>)
    ensures ResultOf(Response(true, Parsed(items))) == if items.Some? then items.value else []
  {
  }
}
