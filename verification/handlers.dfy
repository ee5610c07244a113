/**
  The two query handlers of the application layer
  (`GetProductByBarcodeQueryHandler` and `SearchProductsQueryHandler`): each
  turns a blank input into an empty answer without a call, and otherwise
  makes one call through the service interface and passes on what it
  returns or throws. The trace of each handler records the interface calls
  it made.
 */
module QueryHandlers {
  import opened Wrappers
  import opened Text
  import opened Failures
  import opened Products
  import opened Envelopes
  import opened LookupService
  import ResearchController

  /** `GetProductByBarcodeQuery(Barcode)`; the barcode may be null. */
  datatype BarcodeQuery = BarcodeQuery(barcode: Option<string>)

  /**
    A blank barcode is answered with null and no call; otherwise the one
    service call's envelope, or its exception, is passed on unchanged.
   */
  function HandleGetProductByBarcode(request: BarcodeQuery, service: BarcodeService)
    : (r: Traced<string, Result<Option<Envelope>, Failure>>)
    ensures r.calls == [] <==> IsNullOrWhiteSpace(request.barcode)
    ensures IsNullOrWhiteSpace(request.barcode) ==> r.outcome == Success(None)
    ensures !IsNullOrWhiteSpace(request.barcode) ==>
      r.calls == [request.barcode.value] && r.outcome == service(request.barcode.value)
  {
    if IsNullOrWhiteSpace(request.barcode) then
      Traced([], Success(None))
    else
      Traced([request.barcode.value], service(request.barcode.value))
  }

  /** `SearchProductsQuery(ProductName, Page, PageSize)`; the name may be null. */
  datatype SearchQuery = SearchQuery(productName: Option<string>, page: int, pageSize: int)

  /** A query built with only a name: page 1, 20 to a page. */
  function DefaultSearchQuery(productName: Option<string>): (q: SearchQuery)
    ensures q.productName == productName && q.page == 1 && q.pageSize == 20
  {
    SearchQuery(productName, 1, 20)
  }

  /**
    The handler as written: a blank name is answered with no products and no
    call; otherwise the query's fields go to the interface in the order
    `(ProductName, Page, PageSize)`, which fills the interface's slots of the
    same names, and the result or exception is passed on unchanged.
   */
  function HandleSearchProducts(request: SearchQuery, service: SearchService)
    : (r: Traced<SearchCall, Result<seq<Product>, Failure>>)
    ensures r.calls == [] <==> IsNullOrWhiteSpace(request.productName)
    ensures IsNullOrWhiteSpace(request.productName) ==> r.outcome == Success([])
    ensures !IsNullOrWhiteSpace(request.productName) ==>
      && r.calls == [SearchCall(request.productName, request.page, request.pageSize)]
      && r.outcome == service(r.calls[0])
  {
    if IsNullOrWhiteSpace(request.productName) then
      Traced([], Success([]))
    else
      var call := SearchCall(request.productName, request.page, request.pageSize);
      Traced([call], service(call))
  }

  /**
    The handler as intended: the query's page reaches the implementation as
    its page and the page size as its page size, that is, the interface
    slots are filled in the implementation's order `(PageSize, Page)`.
   */
  function HandleSearchProductsCorrected(request: SearchQuery, service: SearchService)
    : (r: Traced<SearchCall, Result<seq<Product>, Failure>>)
    ensures r.calls == [] <==> IsNullOrWhiteSpace(request.productName)
    ensures IsNullOrWhiteSpace(request.productName) ==> r.outcome == Success([])
    ensures !IsNullOrWhiteSpace(request.productName) ==>
      && r.calls == [SearchCall(request.productName, request.pageSize, request.page)]
      && r.outcome == service(r.calls[0])
  {
    if IsNullOrWhiteSpace(request.productName) then
      Traced([], Success([]))
    else
      var call := SearchCall(request.productName, request.pageSize, request.page);
      Traced([call], service(call))
  }

  // ---------------------------------------------------------------------------
  // The handlers over the deployed service

  /**
    Behind the deployed service the lookup handler never sees an argument
    exception, and its answer is the service's, except that a blank barcode
    is null instead of thrown.
   */
  lemma BarcodeHandlerAgreesWithService(request: BarcodeQuery, get: Transport, parse: Parser<Envelope>)
    ensures var r := HandleGetProductByBarcode(request, DeployedBarcodeService(get, parse)).outcome;
      var s := LookupService.GetProductByBarcode(request.barcode, get, parse).outcome;
      && (r.Failure? ==> !r.error.IsArgumentException())
      && (IsNullOrWhiteSpace(request.barcode) ==> r == Success(None) && s == Failure(BarcodeRequired))
      && (!IsNullOrWhiteSpace(request.barcode) ==> r == s)
  {
    if !IsNullOrWhiteSpace(request.barcode) {
      assert request.barcode == Some(request.barcode.value);
    }
  }

  /**
    The defect as written: a query with the default paging (page 1, 20 to a
    page) asks the database for page 20 with one product to a page.
   */
  lemma DefaultQueryRequestsWrongPage(name: string, get: Transport, parse: Parser<SearchResponse>)
    requires !IsBlank(name)
    ensures var r := HandleSearchProducts(DefaultSearchQuery(Some(name)), DeployedSearchService(get, parse));
      && |r.calls| == 1
      && SearchThroughInterface(r.calls[0], get, parse).calls == [SearchUrl(name, 20, 1)]
  {
    var call := SearchCall(Some(name), 1, 20);
    assert ValidSearch(call.productName, call.page, call.pageSize);
  }

  /**
    The defect as written, second face: a query for page 101 with a valid
    page size is refused with the page-size exception, though the page size
    is in range and the page is valid.
   */
  lemma LargePageRejectedAsPageSize(name: string, pageSize: int, get: Transport, parse: Parser<SearchResponse>)
    requires !IsBlank(name) && 1 <= pageSize <= 100
    ensures var r := HandleSearchProducts(SearchQuery(Some(name), 101, pageSize), DeployedSearchService(get, parse));
      && ValidSearch(Some(name), pageSize, 101)
      && r.outcome == Failure(PageSizeOutOfRange)
  {
    var call := SearchCall(Some(name), 101, pageSize);
    assert DeployedSearchService(get, parse)(call) == SearchThroughInterface(call, get, parse).outcome;
    assert !IsNullOrWhiteSpace(Some(name));
  }

  /**
    The corrected handler behind the deployed service is the service's search
    for the query's own page and page size: the same checks, the same single
    GET for the query's page, and the same products or exception.
   */
  lemma CorrectedHandlerRequestsItsPage(request: SearchQuery, get: Transport, parse: Parser<SearchResponse>)
    requires !IsNullOrWhiteSpace(request.productName)
    ensures var r := HandleSearchProductsCorrected(request, DeployedSearchService(get, parse));
      var s := SearchProductsByName(request.productName, request.pageSize, request.page, get, parse);
      && |r.calls| == 1
      && r.outcome == s.outcome
      && SearchThroughInterface(r.calls[0], get, parse).calls == s.calls
      && (ValidSearch(request.productName, request.pageSize, request.page) ==>
            s.calls == [SearchUrl(request.productName.value, request.page, request.pageSize)])
  {
    var call := SearchCall(request.productName, request.pageSize, request.page);
    assert DeployedSearchService(get, parse)(call) == SearchThroughInterface(call, get, parse).outcome;
  }

  /** The corrected handler's default query asks for page 1 with 20 to a page. */
  lemma CorrectedDefaultQuery(name: string, get: Transport, parse: Parser<SearchResponse>)
    requires !IsBlank(name)
    ensures var r := HandleSearchProductsCorrected(DefaultSearchQuery(Some(name)), DeployedSearchService(get, parse));
      && |r.calls| == 1
      && SearchThroughInterface(r.calls[0], get, parse).calls == [SearchUrl(name, 1, 20)]
  {
    CorrectedHandlerRequestsItsPage(DefaultSearchQuery(Some(name)), get, parse);
  }

  /**
    The handler as written and the corrected one make the same call exactly
    when the name is blank or the page equals the page size.
   */
  lemma HandlersDifferUnlessPagingSymmetric(request: SearchQuery, service: SearchService)
    ensures HandleSearchProducts(request, service).calls == HandleSearchProductsCorrected(request, service).calls
      <==> IsNullOrWhiteSpace(request.productName) || request.page == request.pageSize
  {
    if !IsNullOrWhiteSpace(request.productName) && request.page != request.pageSize {
      assert HandleSearchProducts(request, service).calls[0].page
          != HandleSearchProductsCorrected(request, service).calls[0].page;
    }
  }

  /**
    For the same valid search, the corrected handler and the search action
    end in the same GET.
   */
  lemma CorrectedHandlerMatchesAction(name: string, page: int, pageSize: int, get: Transport, parse: Parser<SearchResponse>)
    requires ValidSearch(Some(name), pageSize, page)
    ensures var h := HandleSearchProductsCorrected(SearchQuery(Some(name), page, pageSize), DeployedSearchService(get, parse));
      var a := ResearchController.SearchProducts(Some(name), pageSize, page, DeployedSearchService(get, parse));
      && |h.calls| == 1 && |a.calls| == 1
      && SearchThroughInterface(h.calls[0], get, parse).calls == SearchThroughInterface(a.calls[0], get, parse).calls
  {
  }
}
