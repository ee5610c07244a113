/**
  The HTTP face of the lookup slice (`FoodResearchController`): each action
  validates its input, calls the lookup service through its interface at most
  once, and maps what comes back, or what is thrown, to a response. The trace
  of each action records the interface calls it made.
 */
module ResearchController {
  import opened Wrappers
  import opened Text
  import opened Failures
  import opened Products
  import opened Envelopes
  import opened LookupService

  /** The responses an action can produce; `Ok` carries the value before it is mapped to its transfer object. */
  datatype ActionResult<+T> =
    | Ok(value: T)
    | BadRequest(message: string)
    | NotFound(message: string)
    | ServerError(message: string)
  {
    /** The HTTP status code the response goes out with. */
    function StatusCode(): (code: int)
      ensures code in {200, 400, 404, 500}
      ensures code == 200 <==> Ok?
      ensures code == 400 <==> BadRequest?
      ensures code == 404 <==> NotFound?
      ensures code == 500 <==> ServerError?
    {
      match this
      case Ok(_) => 200
      case BadRequest(_) => 400
      case NotFound(_) => 404
      case ServerError(_) => 500
    }
  }

  const BarcodeMissing: string := "Barcode is required and cannot be empty"
  const LookupFailed: string := "An error occurred while retrieving product information"

  /** The text of a 404 for a barcode: the barcode, quoted, inside a fixed sentence. */
  function NotFoundText(barcode: string): string {
    "Product with barcode '" + barcode + "' not found"
  }

  /**
    `GET barcode/{barcode}`: a blank barcode is a 400 before any call; a null
    or unsuccessful envelope is a 404 naming the barcode; a successful one is
    a 200 carrying it; a thrown argument exception is a 400 with its message,
    and anything else thrown is a 500 with a fixed text.
   */
  function GetProductByBarcode(barcode: string, service: BarcodeService)
    : (r: Traced<string, ActionResult<Envelope>>)
    ensures r.calls == [] <==> IsBlank(barcode)
    ensures !IsBlank(barcode) ==> r.calls == [barcode]
    ensures IsBlank(barcode) ==> r.outcome == BadRequest(BarcodeMissing)
    ensures r.outcome.Ok? <==>
      !IsBlank(barcode) && service(barcode).Success? && service(barcode).value.Some?
      && IsSuccess(service(barcode).value.value)
    ensures r.outcome.Ok? ==> r.outcome == Ok(service(barcode).value.value) && IsSuccess(r.outcome.value)
    ensures r.outcome.NotFound? <==>
      !IsBlank(barcode) && service(barcode).Success?
      && (service(barcode).value.None? || !IsSuccess(service(barcode).value.value))
    ensures r.outcome.NotFound? ==> r.outcome.message == NotFoundText(barcode)
    ensures !IsBlank(barcode) && service(barcode).Failure? && service(barcode).error.IsArgumentException() ==>
      r.outcome == BadRequest(service(barcode).error.Message())
    ensures r.outcome.ServerError? <==>
      !IsBlank(barcode) && service(barcode).Failure? && !service(barcode).error.IsArgumentException()
    ensures r.outcome.ServerError? ==> r.outcome.message == LookupFailed
  {
    if IsBlank(barcode) then
      Traced([], BadRequest(BarcodeMissing))
    else
      Traced([barcode], match service(barcode)
        case Success(None) => NotFound(NotFoundText(barcode))
        case Success(Some(e)) => if !IsSuccess(e) then NotFound(NotFoundText(barcode)) else Ok(e)
        case Failure(f) => if f.IsArgumentException() then BadRequest(f.Message()) else ServerError(LookupFailed))
  }

  const DefaultPageSize: int := 20
  const DefaultPage: int := 1

  const QueryMissing: string := "Search query is required and cannot be empty"
  const PageSizeInvalid: string := "Page size must be between 1 and 100"
  const PageInvalid: string := "Page number must be greater than 0"
  const SearchFailed: string := "An error occurred while searching for products"

  /**
    The interface call the search action makes: the arguments go in by
    position as `(query, pageSize, page)`, so the interface's `page` slot gets
    the page size and its `pageSize` slot the page.
   */
  function ActionSearchCall(query: Option<string>, pageSize: int, page: int): (c: SearchCall)
    ensures c.productName == query && c.page == pageSize && c.pageSize == page
  {
    SearchCall(query, pageSize, page)
  }

  /**
    `GET search?query=&pageSize=&page=`: the action's own checks run first, in
    the service's order and with its own texts, each a 400 before any call;
    then one call, whose products come back as a 200; a thrown argument
    exception is a 400 with its message, and anything else a 500 with a
    fixed text.
   */
  function SearchProducts(query: Option<string>, pageSize: int, page: int, service: SearchService)
    : (r: Traced<SearchCall, ActionResult<seq<Product>>>)
    ensures r.calls == [] <==> !ValidSearch(query, pageSize, page)
    ensures ValidSearch(query, pageSize, page) ==> r.calls == [ActionSearchCall(query, pageSize, page)]
    ensures IsNullOrWhiteSpace(query) ==> r.outcome == BadRequest(QueryMissing)
    ensures !IsNullOrWhiteSpace(query) && (pageSize < 1 || pageSize > 100) ==> r.outcome == BadRequest(PageSizeInvalid)
    ensures !IsNullOrWhiteSpace(query) && 1 <= pageSize <= 100 && page < 1 ==> r.outcome == BadRequest(PageInvalid)
    ensures ValidSearch(query, pageSize, page) ==>
      match service(ActionSearchCall(query, pageSize, page))
      case Success(products) => r.outcome == Ok(products)
      case Failure(f) =>
        r.outcome == if f.IsArgumentException() then BadRequest(f.Message()) else ServerError(SearchFailed)
    ensures r.outcome.ServerError? ==> r.outcome.message == SearchFailed
    ensures !r.outcome.NotFound?
  {
    if IsNullOrWhiteSpace(query) then
      Traced([], BadRequest(QueryMissing))
    else if pageSize <= 0 || pageSize > 100 then
      Traced([], BadRequest(PageSizeInvalid))
    else if page <= 0 then
      Traced([], BadRequest(PageInvalid))
    else
      var call := ActionSearchCall(query, pageSize, page);
      Traced([call], match service(call)
        case Success(products) => Ok(products)
        case Failure(f) => if f.IsArgumentException() then BadRequest(f.Message()) else ServerError(SearchFailed))
  }

  // ---------------------------------------------------------------------------
  // The actions over the deployed service

  /**
    Against the deployed service, a lookup is a 400 exactly when the barcode
    is blank: the service's own check never fires behind the action's.
   */
  lemma BarcodeBadRequestIffBlank(barcode: string, get: Transport, parse: Parser<Envelope>)
    ensures GetProductByBarcode(barcode, DeployedBarcodeService(get, parse)).outcome.StatusCode() == 400
      <==> IsBlank(barcode)
  {
    var service := DeployedBarcodeService(get, parse);
    if !IsBlank(barcode) {
      var inner := LookupService.GetProductByBarcode(Some(barcode), get, parse);
      assert service(barcode) == inner.outcome;
      assert !IsNullOrWhiteSpace(Some(barcode));
    }
  }

  /**
    Against the deployed service, a lookup answers 200 exactly when the
    database sends an envelope with status 1, 404 when it sends a null or
    empty body or another status, and 500 when the GET or the JSON fails:
    a 404 status from the remote server is a 500 here, not a 404.
   */
  lemma BarcodeStatusFromRemote(barcode: string, get: Transport, parse: Parser<Envelope>)
    requires !IsBlank(barcode)
    ensures var t := get(ProductUrl(barcode));
      var code := GetProductByBarcode(barcode, DeployedBarcodeService(get, parse)).outcome.StatusCode();
      && (!t.Body? ==> code == 500)
      && (t.Body? && IsBlank(t.text) ==> code == 404)
      && (t.Body? && !IsBlank(t.text) ==>
            match parse(t.text)
            case Failure(_) => code == 500
            case Success(None) => code == 404
            case Success(Some(e)) => code == (if IsSuccess(e) then 200 else 404))
  {
    var service := DeployedBarcodeService(get, parse);
    assert !IsNullOrWhiteSpace(Some(barcode));
    assert service(barcode) == LookupService.GetProductByBarcode(Some(barcode), get, parse).outcome;
  }

  /**
    The two parameter swaps cancel: a valid search through the action makes
    one interface call, which issues exactly the GET for the action's own
    page and page size.
   */
  lemma SearchActionRequestsItsPage(query: string, pageSize: int, page: int, get: Transport, parse: Parser<SearchResponse>)
    requires ValidSearch(Some(query), pageSize, page)
    ensures var r := SearchProducts(Some(query), pageSize, page, DeployedSearchService(get, parse));
      && |r.calls| == 1
      && SearchThroughInterface(r.calls[0], get, parse).calls == [SearchUrl(query, page, pageSize)]
  {
  }

  /**
    A search that gives only the query, leaving page size and page to their
    defaults (20 and 1), asks the database for the first page of 20.
   */
  lemma DefaultSearchRequestsFirstPage(query: string, get: Transport, parse: Parser<SearchResponse>)
    requires !IsBlank(query)
    ensures var r := SearchProducts(Some(query), DefaultPageSize, DefaultPage, DeployedSearchService(get, parse));
      && |r.calls| == 1
      && SearchThroughInterface(r.calls[0], get, parse).calls == [SearchUrl(query, 1, 20)]
  {
    SearchActionRequestsItsPage(query, DefaultPageSize, DefaultPage, get, parse);
  }

  /**
    Against the deployed service, a search is a 400 exactly when the action's
    own checks reject it, and otherwise a 200 with the listed products or,
    when the GET or the JSON fails, a 500.
   */
  lemma SearchStatusFromRemote(query: Option<string>, pageSize: int, page: int, get: Transport, parse: Parser<SearchResponse>)
    ensures var r := SearchProducts(query, pageSize, page, DeployedSearchService(get, parse)).outcome;
      && (r.StatusCode() == 400 <==> !ValidSearch(query, pageSize, page))
      && (ValidSearch(query, pageSize, page) ==>
            var f := Fetch(SearchUrl(query.value, page, pageSize), get, parse);
            && (f.Success? ==> r == Ok(ProductsOf(f.value)))
            && (f.Failure? ==> r == ServerError(SearchFailed)))
  {
    if ValidSearch(query, pageSize, page) {
      var call := ActionSearchCall(query, pageSize, page);
      assert DeployedSearchService(get, parse)(call) == SearchThroughInterface(call, get, parse).outcome;
    }
  }
}
