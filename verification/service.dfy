/**
  The product-lookup service (`OpenFoodFactsService`) as a pure function of
  its input, a transport oracle (what a GET of each URL comes to) and a JSON
  oracle. Every operation returns the GETs it issued with its outcome.
 */
module LookupService {
  import opened Wrappers
  import opened Text
  import opened Numerals
  import opened UriEscape
  import opened Failures
  import opened Products
  import opened Envelopes

  const BaseUrl: string := "https://world.openfoodfacts.org/api/v2"

  /** The fields requested on every call, keeping the payload small and its shape fixed. */
  const FieldNames: seq<string> :=
    ["code", "product_name", "brands", "image_url", "serving_quantity", "serving_quantity_unit", "image_ingredients_url"]

  /** The field list as it goes into the query string, comma-separated. */
  const ProductFields: string := Join(FieldNames, ',')

  /** The outcome of a GET of each URL through the web-service client. */
  type Transport = string -> TransportOutcome

  /**
    `JsonSerializer.Deserialize<T>` with case-insensitive names: a value,
    null (for the body `null`), or the message of a `JsonException`.
   */
  type Parser<T> = string -> Result<Option<T>, string>

  /** The lookup endpoint; the barcode goes in as it is, unescaped. */
  function ProductUrl(barcode: string): string {
    BaseUrl + "/product/" + barcode + ".json?fields=" + ProductFields
  }

  const SearchPrefix: string := BaseUrl + "/search?"

  /** The search endpoint; only the name is escaped. */
  function SearchUrl(name: string, page: int, pageSize: int): string {
    SearchPrefix + "search_terms=" + EscapeDataString(name) + "&page=" + IntToString(page)
      + "&page_size=" + IntToString(pageSize) + "&fields=" + ProductFields + "&json=true"
  }

  /** The query parameters a search URL is meant to carry, in order, for a given field list. */
  function SearchParameters(name: string, page: int, pageSize: int, fields: string): seq<string> {
    [ "search_terms=" + EscapeDataString(name),
      "page=" + IntToString(page),
      "page_size=" + IntToString(pageSize),
      "fields=" + fields,
      "json=true" ]
  }

  /**
    The part both operations share once their input is valid: one GET; an
    empty or all-white-space body is a null result, not an error; any other
    body is parsed and returned as it is; a failed GET or parse is rethrown
    unchanged, with no retry and no fallback.
   */
  function Fetch<T>(url: string, get: Transport, parse: Parser<T>): (r: Result<Option<T>, Failure>)
    ensures r.Failure? ==> !r.error.IsArgumentException()
    ensures !get(url).Body? ==> r == Failure(Raised(get(url)))
    ensures get(url).Body? && IsBlank(get(url).text) ==> r == Success(None)
    ensures get(url).Body? && !IsBlank(get(url).text) ==>
      match parse(get(url).text)
      case Success(v) => r == Success(v)
      case Failure(m) => r == Failure(ParseError(m))
  {
    match get(url)
    case Body(text) =>
      if IsBlank(text) then Success(None)
      else (
        match parse(text)
        case Success(v) => Success(v)
        case Failure(m) => Failure(ParseError(m)))
    case _ => Failure(Raised(get(url)))
  }

  const BarcodeRequired: Failure := InvalidArgument("barcode", "Barcode cannot be null or empty")

  /**
    `GetProductByBarcodeAsync`: a blank barcode throws before any GET; any
    other barcode costs exactly one GET of its endpoint, whose envelope comes
    back unfiltered (an unsuccessful status or a missing product included).
   */
  function GetProductByBarcode(barcode: Option<string>, get: Transport, parse: Parser<Envelope>)
    : (r: Traced<string, Result<Option<Envelope>, Failure>>)
    ensures r.calls == [] <==> IsNullOrWhiteSpace(barcode)
    ensures IsNullOrWhiteSpace(barcode) ==> r.outcome == Failure(BarcodeRequired)
    ensures !IsNullOrWhiteSpace(barcode) ==>
      r.calls == [ProductUrl(barcode.value)] && r.outcome == Fetch(ProductUrl(barcode.value), get, parse)
  {
    if IsNullOrWhiteSpace(barcode) then
      Traced([], Failure(BarcodeRequired))
    else
      var url := ProductUrl(barcode.value);
      Traced([url], Fetch(url, get, parse))
  }

  const NameRequired: Failure := InvalidArgument("productName", "Product name cannot be null or empty")
  const PageSizeOutOfRange: Failure := OutOfRange("pageSize", "Page size must be between 1 and 100")
  const PageOutOfRange: Failure := OutOfRange("page", "Page must be greater than 0")

  /** The search input passes all three checks. */
  predicate ValidSearch(productName: Option<string>, pageSize: int, page: int) {
    !IsNullOrWhiteSpace(productName) && 1 <= pageSize <= 100 && 1 <= page
  }

  /** The products of a parsed search envelope; a null envelope or list is no products. */
  function ProductsOf(response: Option<SearchResponse>): seq<Product> {
    if response.None? || response.value.products.None? then [] else response.value.products.value
  }

  /**
    `SearchProductsByNameAsync(productName, pageSize, page)`: the checks run in
    order (name, then page size in [1, 100], then page at least 1), the first
    that fails throws, and none issues a GET; valid input costs exactly one
    GET, and the products come back as the database listed them, even when
    there are more than `pageSize` of them.
   */
  function SearchProductsByName(
    productName: Option<string>, pageSize: int, page: int, get: Transport, parse: Parser<SearchResponse>)
    : (r: Traced<string, Result<seq<Product>, Failure>>)
    ensures r.calls == [] <==> !ValidSearch(productName, pageSize, page)
    ensures (r.outcome.Failure? && r.outcome.error.IsArgumentException()) <==> r.calls == []
    ensures IsNullOrWhiteSpace(productName) ==> r.outcome == Failure(NameRequired)
    ensures !IsNullOrWhiteSpace(productName) && (pageSize < 1 || pageSize > 100) ==>
      r.outcome == Failure(PageSizeOutOfRange)
    ensures !IsNullOrWhiteSpace(productName) && 1 <= pageSize <= 100 && page < 1 ==>
      r.outcome == Failure(PageOutOfRange)
    ensures ValidSearch(productName, pageSize, page) ==>
      var url := SearchUrl(productName.value, page, pageSize);
      && r.calls == [url]
      && match Fetch(url, get, parse)
         case Success(response) => r.outcome == Success(ProductsOf(response))
         case Failure(e) => r.outcome == Failure(e)
  {
    if IsNullOrWhiteSpace(productName) then
      Traced([], Failure(NameRequired))
    else if pageSize <= 0 || pageSize > 100 then
      Traced([], Failure(PageSizeOutOfRange))
    else if page <= 0 then
      Traced([], Failure(PageOutOfRange))
    else
      var url := SearchUrl(productName.value, page, pageSize);
      match Fetch(url, get, parse)
      case Success(response) => Traced([url], Success(ProductsOf(response)))
      case Failure(e) => Traced([url], Failure(e))
  }

  // ---------------------------------------------------------------------------
  // Calls through IOpenFoodFactsService

  /**
    The values of one `IOpenFoodFactsService.SearchProductsByNameAsync` call,
    by the names the interface gives its parameters: `(productName, page, pageSize)`.
   */
  datatype SearchCall = SearchCall(productName: Option<string>, page: int, pageSize: int)

  /**
    Dispatch of an interface call to the implementation. C# binds arguments
    by position, and the implementation names its second and third
    parameters `(pageSize, page)`: the interface's `page` is the
    implementation's `pageSize`, and the other way round.
   */
  function SearchThroughInterface(call: SearchCall, get: Transport, parse: Parser<SearchResponse>)
    : (r: Traced<string, Result<seq<Product>, Failure>>)
    ensures ValidSearch(call.productName, call.page, call.pageSize) ==>
      r.calls == [SearchUrl(call.productName.value, call.pageSize, call.page)]
  {
    SearchProductsByName(call.productName, call.page, call.pageSize, get, parse)
  }

  /** The service as its callers see it through the interface: only what it returns or throws. */
  type BarcodeService = string -> Result<Option<Envelope>, Failure>
  type SearchService = SearchCall -> Result<seq<Product>, Failure>

  /** The deployed implementation behind the interface. */
  function DeployedBarcodeService(get: Transport, parse: Parser<Envelope>): BarcodeService {
    barcode => GetProductByBarcode(Some(barcode), get, parse).outcome
  }

  function DeployedSearchService(get: Transport, parse: Parser<SearchResponse>): SearchService {
    call => SearchThroughInterface(call, get, parse).outcome
  }

  // ---------------------------------------------------------------------------
  // The endpoints read back

  /** The lookup URL is the fixed prefix, the barcode verbatim, then the fixed suffix. */
  lemma ProductUrlReadsBack(barcode: string)
    ensures var url := ProductUrl(barcode);
      var prefix := BaseUrl + "/product/";
      var suffix := ".json?fields=" + ProductFields;
      && |url| == |prefix| + |barcode| + |suffix|
      && url[..|prefix|] == prefix
      && url[|prefix|..|prefix| + |barcode|] == barcode
      && url[|prefix| + |barcode|..] == suffix
  {
    var prefix := BaseUrl + "/product/";
    var suffix := ".json?fields=" + ProductFields;
    assert ProductUrl(barcode) == prefix + barcode + suffix;
    Slices(prefix, barcode, suffix);
  }

  /** The three parts of a concatenation are recovered by slicing at their lengths. */
  lemma Slices(prefix: string, middle: string, suffix: string)
    ensures var s := prefix + middle + suffix;
      && |s| == |prefix| + |middle| + |suffix|
      && s[..|prefix|] == prefix
      && s[|prefix|..|prefix| + |middle|] == middle
      && s[|prefix| + |middle|..] == suffix
  {
  }

  /** The field list carries no "&", so it cannot end its parameter early. */
  lemma ProductFieldsHaveNoAmpersand()
    ensures '&' !in ProductFields
  {
    assert '&' !in FieldNames[0];
    assert '&' !in FieldNames[1];
    assert '&' !in FieldNames[2];
    assert '&' !in FieldNames[3];
    assert '&' !in FieldNames[4];
    assert '&' !in FieldNames[5];
    assert '&' !in FieldNames[6];
    JoinAvoids(FieldNames, ',', '&');
  }

  /** Printed integers carry no "&". */
  lemma IntToStringHasNoAmpersand(i: int)
    ensures '&' !in IntToString(i)
  {
    var s := IntToString(i);
    if i >= 0 {
      assert AllDigits(s);
    } else {
      assert AllDigits(s[1..]);
      assert s == "-" + s[1..];
    }
  }

  /**
    The search URL is unambiguous: splitting its query at "&" gives exactly
    the five intended parameters, whatever the name holds, because the
    escaped name cannot contain "&".
   */
  lemma SearchUrlSplits(name: string, page: int, pageSize: int)
    ensures var url := SearchUrl(name, page, pageSize);
      && url[..|SearchPrefix|] == SearchPrefix
      && Split(url[|SearchPrefix|..], '&') == SearchParameters(name, page, pageSize, ProductFields)
  {
    SearchUrlIsJoin(name, page, pageSize);
    ProductFieldsHaveNoAmpersand();
    ParametersAvoidAmpersand(name, page, pageSize, ProductFields);
    SplitPrefixed(SearchPrefix, SearchParameters(name, page, pageSize, ProductFields));
  }

  /** No search parameter holds an "&" of its own, as long as the field list does not. */
  lemma ParametersAvoidAmpersand(name: string, page: int, pageSize: int, fields: string)
    requires '&' !in fields
    ensures var ps := SearchParameters(name, page, pageSize, fields);
      forall i :: 0 <= i < |ps| ==> '&' !in ps[i]
  {
    EscapedHasNoDelimiters(name);
    IntToStringHasNoAmpersand(page);
    IntToStringHasNoAmpersand(pageSize);
    KeyedValuesAvoidAmpersand(EscapeDataString(name), IntToString(page), IntToString(pageSize), fields);
  }

  /** The five parameters hold no "&" when the four values hold none. */
  lemma KeyedValuesAvoidAmpersand(terms: string, page: string, pageSize: string, fields: string)
    requires '&' !in terms && '&' !in page && '&' !in pageSize && '&' !in fields
    ensures var ps := ["search_terms=" + terms, "page=" + page, "page_size=" + pageSize, "fields=" + fields, "json=true"];
      forall i :: 0 <= i < |ps| ==> '&' !in ps[i]
  {
    KeysHaveNoAmpersand();
    KeyedAvoidsAmpersand("search_terms=", terms);
    KeyedAvoidsAmpersand("page=", page);
    KeyedAvoidsAmpersand("page_size=", pageSize);
    KeyedAvoidsAmpersand("fields=", fields);
    NoneAvoidAmpersand("search_terms=" + terms, "page=" + page, "page_size=" + pageSize, "fields=" + fields, "json=true");
  }

  lemma KeysHaveNoAmpersand()
    ensures '&' !in "search_terms=" && '&' !in "page=" && '&' !in "page_size=" && '&' !in "fields="
    ensures '&' !in "json=true"
  {
  }

  lemma NoneAvoidAmpersand(a: string, b: string, c: string, d: string, e: string)
    requires '&' !in a && '&' !in b && '&' !in c && '&' !in d && '&' !in e
    ensures var ps := [a, b, c, d, e]; forall i :: 0 <= i < |ps| ==> '&' !in ps[i]
  {
  }

  /** A key with no "&" followed by a value with no "&" has none either. */
  lemma KeyedAvoidsAmpersand(key: string, value: string)
    requires '&' !in key && '&' !in value
    ensures '&' !in key + value
  {
  }

  /** A prefix followed by "&"-free pieces joined with "&" reads back as the prefix and the pieces. */
  lemma SplitPrefixed(prefix: string, ps: seq<string>)
    requires |ps| > 0
    requires forall i :: 0 <= i < |ps| ==> '&' !in ps[i]
    ensures var url := prefix + Join(ps, '&');
      url[..|prefix|] == prefix && Split(url[|prefix|..], '&') == ps
  {
    var url := prefix + Join(ps, '&');
    assert url[|prefix|..] == Join(ps, '&');
    SplitJoin(ps, '&');
  }

  /** The search URL is the prefix followed by the parameters joined with "&". */
  lemma SearchUrlIsJoin(name: string, page: int, pageSize: int)
    ensures SearchUrl(name, page, pageSize) == SearchPrefix + Join(SearchParameters(name, page, pageSize, ProductFields), '&')
  {
    assert "&page=" == "&" + "page=";
    assert "&page_size=" == "&" + "page_size=";
    assert "&fields=" == "&" + "fields=";
    assert "&json=true" == "&" + "json=true";
    Interpolation(SearchPrefix, "search_terms=", EscapeDataString(name), "page=", IntToString(page),
      "page_size=", IntToString(pageSize), "fields=", ProductFields, "json=true");
  }

  /** Key-value pieces interpolated one after the other are the pieces joined with "&". */
  lemma Interpolation(prefix: string, k1: string, v1: string, k2: string, v2: string,
                      k3: string, v3: string, k4: string, v4: string, k5: string)
    ensures prefix + k1 + v1 + ("&" + k2) + v2 + ("&" + k3) + v3 + ("&" + k4) + v4 + ("&" + k5)
      == prefix + Join([k1 + v1, k2 + v2, k3 + v3, k4 + v4, k5], '&')
  {
    JoinFive(k1 + v1, k2 + v2, k3 + v3, k4 + v4, k5);
  }

  lemma JoinFive(a: string, b: string, c: string, d: string, e: string)
    ensures Join([a, b, c, d, e], '&') == a + "&" + b + "&" + c + "&" + d + "&" + e
  {
    var ps := [a, b, c, d, e];
    assert ps[1..] == [b, c, d, e] && ps[2..] == [c, d, e] && ps[3..] == [d, e] && ps[4..] == [e];
    assert Join([e], '&') == e;
    assert Join([d, e], '&') == d + "&" + e;
    assert Join([c, d, e], '&') == c + "&" + d + "&" + e;
    assert Join([b, c, d, e], '&') == b + "&" + c + "&" + d + "&" + e;
  }

  /**
    A server reading the search URL gets back what the client put in: the
    search terms percent-decode to the UTF-8 bytes of the name, and the two
    numbers parse to the page and the page size.
   */
  lemma SearchParametersReadBack(name: string, page: nat, pageSize: nat)
    ensures var ps := SearchParameters(name, page, pageSize, ProductFields);
      && ps[0] == "search_terms=" + EscapeDataString(name)
      && PercentDecode(EscapeDataString(name)) == Utf8String(name)
      && ps[1] == "page=" + NatToString(page) && ParseNat(NatToString(page)) == page
      && ps[2] == "page_size=" + NatToString(pageSize) && ParseNat(NatToString(pageSize)) == pageSize
  {
    PagingParameters(name, page, pageSize, ProductFields);
    DecodeEscape(name);
    ParseNatToString(page);
    ParseNatToString(pageSize);
  }

  // ---------------------------------------------------------------------------
  // Behaviour of the two operations

  /** An empty or white-space body is a null lookup, never an error. */
  lemma BlankLookupBodyIsNull(barcode: string, get: Transport, parse: Parser<Envelope>)
    requires !IsBlank(barcode) && get(ProductUrl(barcode)).Body? && IsBlank(get(ProductUrl(barcode)).text)
    ensures GetProductByBarcode(Some(barcode), get, parse).outcome == Success(None)
  {
  }

  /** An empty or white-space body is an empty search, never an error. */
  lemma BlankSearchBodyIsEmpty(name: string, page: int, pageSize: int, get: Transport, parse: Parser<SearchResponse>)
    ensures ValidSearch(Some(name), pageSize, page)
      && get(SearchUrl(name, page, pageSize)).Body? && IsBlank(get(SearchUrl(name, page, pageSize)).text)
      ==> SearchProductsByName(Some(name), pageSize, page, get, parse).outcome == Success([])
  {
  }

  /**
    A body that parses to a search envelope with its initial values, as `{}`
    does, lists no products and is not an error.
   */
  lemma DefaultSearchEnvelopeIsEmpty(name: string, page: int, pageSize: int, get: Transport, parse: Parser<SearchResponse>)
    ensures var t := get(SearchUrl(name, page, pageSize));
      ValidSearch(Some(name), pageSize, page)
      && t.Body? && !IsBlank(t.text) && parse(t.text) == Success(Some(DefaultSearchResponse))
      ==> SearchProductsByName(Some(name), pageSize, page, get, parse).outcome == Success([])
  {
  }

  /**
    Every failure after validation is the transport's or the parser's,
    passed on unchanged: a non-2xx status surfaces as that status.
   */
  lemma FailuresPassThrough(barcode: string, get: Transport, parse: Parser<Envelope>)
    requires !IsBlank(barcode)
    ensures var t := get(ProductUrl(barcode));
      var r := GetProductByBarcode(Some(barcode), get, parse).outcome;
      && (t.HttpError? ==> r == Failure(RemoteHttpError(t.statusCode)))
      && (t.Aborted? ==> r == Failure(Cancelled))
      && (t.Fault? ==> r == Failure(TransportError(t.message)))
      && (t.Body? && !IsBlank(t.text) && parse(t.text).Failure? ==> r == Failure(ParseError(parse(t.text).error)))
  {
  }

  /**
    The page-size bounds are inclusive: 1 and 100 pass and cost one GET, 0
    and 101 are refused with the page-size exception before any GET; page 1
    passes and page 0 is refused with the page exception.
   */
  lemma SearchBoundaries(name: string, get: Transport, parse: Parser<SearchResponse>)
    requires !IsBlank(name)
    ensures |SearchProductsByName(Some(name), 1, 1, get, parse).calls| == 1
    ensures |SearchProductsByName(Some(name), 100, 1, get, parse).calls| == 1
    ensures SearchProductsByName(Some(name), 0, 1, get, parse) == Traced([], Failure(PageSizeOutOfRange))
    ensures SearchProductsByName(Some(name), 101, 1, get, parse) == Traced([], Failure(PageSizeOutOfRange))
    ensures SearchProductsByName(Some(name), 20, 0, get, parse) == Traced([], Failure(PageOutOfRange))
  {
  }

  /** The interface's `page` slot becomes the URL's `page_size`, and its `pageSize` slot the URL's `page`. */
  lemma InterfaceSwapsPaging(call: SearchCall, get: Transport, parse: Parser<SearchResponse>)
    requires ValidSearch(call.productName, call.page, call.pageSize)
    ensures var url := SearchThroughInterface(call, get, parse).calls[0];
      var ps := Split(url[|SearchPrefix|..], '&');
      |ps| == 5 && ps[1] == "page=" + IntToString(call.pageSize) && ps[2] == "page_size=" + IntToString(call.page)
  {
    var name := call.productName.value;
    var url := SearchUrl(name, call.pageSize, call.page);
    assert SearchThroughInterface(call, get, parse).calls == [url];
    SearchUrlSplits(name, call.pageSize, call.page);
    PagingParameters(name, call.pageSize, call.page, ProductFields);
  }

  /** The second and third search parameters carry the page and the page size. */
  lemma PagingParameters(name: string, page: int, pageSize: int, fields: string)
    ensures var ps := SearchParameters(name, page, pageSize, fields);
      |ps| == 5 && ps[1] == "page=" + IntToString(page) && ps[2] == "page_size=" + IntToString(pageSize)
  {
  }
}
