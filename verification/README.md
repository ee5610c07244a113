# Food-storage API: the product-lookup slice in Dafny

This project models how the food-storage API looks up products in the
Open Food Facts database and proves properties of that model. The slice has
four layers:

- **The product record** (`OpenFoodFactsProduct`) and its computed
  properties: the brand list, the serving size and the two image flags.
- **The lookup envelope** (`OpenFoodFactsApiResponse`) and its success flag.
  The search envelope (`OpenFoodFactsSearchResponse`) is modelled too.
- **The lookup service** (`OpenFoodFactsService`). It is modelled as a pure
  function of:
  - its input;
  - a transport oracle, which says what a GET of each URL comes to;
  - a JSON oracle, which says what `JsonSerializer.Deserialize` makes of each
    body.

  Every operation returns the GETs it issued together with its outcome. That
  makes "no GET" and "exactly this one GET" statable.
- **The callers**: the HTTP controller (`FoodResearchController`) and the two
  MediatR query handlers. They reach the service through
  `IOpenFoodFactsService`, whose `SearchProductsByNameAsync` declares its
  paging parameters as `(page, pageSize)`. The implementation declares them
  as `(pageSize, page)`. C# binds arguments by position, so an interface call
  is modelled as a record named after the interface's slots. The
  implementation then reads those slots in its own order.

Modules, one per file:

| file | module | models |
|---|---|---|
| wrappers.dfy | `Wrappers` | `Option` (a C# null), `Result` (return or throw), `Traced` (calls made, then outcome) |
| text.dfy | `Text` | `char.IsWhiteSpace`, `string.IsNullOrWhiteSpace`, `Trim`, `Split` on one character, joining |
| numerals.dfy | `Numerals` | `int.ToString()` and reading a numeral back |
| decimals.dfy | `Decimals` | `decimal.ToString()` in the invariant culture, and reading it back |
| escape.dfy | `UriEscape` | `Uri.EscapeDataString`: RFC 3986 unreserved characters kept, everything else as `%XX` over its UTF-8 bytes |
| products.dfy | `Products` | `OpenFoodFactsProduct` |
| envelopes.dfy | `Envelopes` | `OpenFoodFactsApiResponse`, `OpenFoodFactsSearchResponse` |
| failures.dfy | `Failures` | the exceptions of the slice, and the outcome of one GET |
| service.dfy | `LookupService` | `OpenFoodFactsService` and the call through `IOpenFoodFactsService` |
| controller.dfy | `ResearchController` | `FoodResearchController` |
| handlers.dfy | `QueryHandlers` | `GetProductByBarcodeQueryHandler`, `SearchProductsQueryHandler` |

## Model

| member | source | states |
|---|---|---|
| Products.BrandList | src/Domain/Models/OpenFoodFacts/OpenFoodFactsProduct.cs:36-47 | Null or blank brands give no names. Every name is non-empty, has no comma and no white space at either end. There are at most one more names than commas. |
| Products.BrandListIsBrandsOf | src/Domain/Models/OpenFoodFacts/OpenFoodFactsProduct.cs:36-47 | The brand list is, for any non-null brands, the comma pieces, each trimmed, with the empty ones dropped, in order. A blank string needs no special case: all its pieces trim to nothing. |
| Products.BrandsOfJoin | src/Domain/Models/OpenFoodFacts/OpenFoodFactsProduct.cs:43-45 | Clean names (non-empty, comma-free, trimmed) joined with commas and read back give the same names. |
| Products.BrandListIdempotent | src/Domain/Models/OpenFoodFacts/OpenFoodFactsProduct.cs:43-45 | Recomputing the brand list from the comma-join of the brand list gives the same list. |
| Products.BrandListNutellaFerrero | src/Domain/Models/OpenFoodFacts/OpenFoodFactsProduct.cs:43-45 | "Nutella,Ferrero" gives ["Nutella", "Ferrero"]. |
| Products.BrandListTrimsAndDrops | src/Domain/Models/OpenFoodFacts/OpenFoodFactsProduct.cs:43-45 | "A, B ," gives ["A", "B"]: the pieces are trimmed and the empty last one is dropped. |
| Products.ServingSize | src/Domain/Models/OpenFoodFacts/OpenFoodFactsProduct.cs:52-61 | The serving size is non-empty exactly when a quantity is present and the unit is neither null nor blank. |
| Products.ServingSizeReadsBack | src/Domain/Models/OpenFoodFacts/OpenFoodFactsProduct.cs:56-57 | When both parts are usable, the text before the first space reads back as the quantity, scale included. The rest is the unit exactly as stored, untrimmed. |
| Products.ServingSizeExamples | src/Domain/Models/OpenFoodFacts/OpenFoodFactsProduct.cs:56-59 | 15 with "g" gives "15 g". With no quantity the result is "", whatever the unit. |
| Products.HasImage | src/Domain/Models/OpenFoodFacts/OpenFoodFactsProduct.cs:66 | The flag holds exactly when the image URL is present and has at least one character that is not white space. |
| Products.HasIngredientsImage | src/Domain/Models/OpenFoodFacts/OpenFoodFactsProduct.cs:71 | The same test over the ingredients image URL. |
| Products.ImageTestsIndependent | src/Domain/Models/OpenFoodFacts/OpenFoodFactsProduct.cs:66-71 | Each image flag depends only on its own URL. |
| Decimals.RenderParses | src/Domain/Models/OpenFoodFacts/OpenFoodFactsProduct.cs:57 | A printed quantity reads back as the same decimal, scale included. |
| Decimals.RenderWhole | src/Domain/Models/OpenFoodFacts/OpenFoodFactsProduct.cs:57 | A whole quantity prints as its plain numeral. |
| Decimals.RenderHasNoWhiteSpace | src/Domain/Models/OpenFoodFacts/OpenFoodFactsProduct.cs:57 | A printed quantity holds no white space, so the space after it is the first one in the serving size. |
| Envelopes.SuccessIsStatusOne | src/Domain/Models/OpenFoodFacts/OpenFoodFactsApiResponse.cs:14-25 | Success is decided by the status alone: changing the product, the code or the status text never changes it. Statuses 0, negative, or 2 and above are never a success. |
| Envelopes.DefaultIsNotSuccess | src/Domain/Models/OpenFoodFacts/OpenFoodFactsApiResponse.cs:10-20 | A fresh envelope has status 0 and empty code and status text, so it is not a success. |
| Envelopes.SuccessWithoutProduct | src/Domain/Models/OpenFoodFacts/OpenFoodFactsApiResponse.cs:13-25 | Success does not imply a product: a status-1 envelope without one exists. |
| UriEscape.EscapeDataString | src/Infrastructure/Services/OpenFoodFactsService.cs:96 | The escaped name holds only unreserved characters and "%". A name of unreserved characters is left as it is. |
| UriEscape.DecodeEscape | src/Infrastructure/Services/OpenFoodFactsService.cs:96 | Percent-decoding the escaped name gives back the UTF-8 bytes of the name. |
| UriEscape.EscapedHasNoDelimiters | src/Infrastructure/Services/OpenFoodFactsService.cs:96-97 | The escaped name has no "&", "=", "#", "?", "+" or space, so it cannot break the query string. |
| UriEscape.EscapeUnreservedExample | src/Infrastructure/Services/OpenFoodFactsService.cs:96 | "Nutella" needs no escaping and is sent as it is. |
| UriEscape.EscapeSpaceExample | src/Infrastructure/Services/OpenFoodFactsService.cs:96 | "a b" escapes to "a%20b". |
| UriEscape.EscapeNonAsciiExample | src/Infrastructure/Services/OpenFoodFactsService.cs:96 | "â" escapes to its two UTF-8 bytes, "%C3%A2". |
| Numerals.ParseNatToString | src/Infrastructure/Services/OpenFoodFactsService.cs:97 | A printed page number reads back as the number. |
| Failures.Raised | src/Infrastructure/Services/OpenFoodFactsService.cs:66-70 | A failed GET throws a non-argument exception. A non-2xx status surfaces as that same status. |
| LookupService.Fetch | src/Infrastructure/Services/OpenFoodFactsService.cs:43-64 | One GET. A failed GET is rethrown. A blank body is null, not an error. Any other body is parsed: the value comes back unchanged and a parse failure is rethrown. No failure is an argument exception. |
| LookupService.GetProductByBarcode | src/Infrastructure/Services/OpenFoodFactsService.cs:33-71 | No GET is made exactly when the barcode is null or blank, and then the barcode argument exception is thrown. Otherwise exactly one GET of the product URL is made, and its outcome is the fetch's: the envelope comes back unfiltered. |
| LookupService.ProductUrlReadsBack | src/Infrastructure/Services/OpenFoodFactsService.cs:42 | The lookup URL is the fixed prefix, then the barcode verbatim, then the fixed field suffix. |
| LookupService.ProductFieldsHaveNoAmpersand | src/Infrastructure/Services/OpenFoodFactsService.cs:17 | The field list has no "&". |
| LookupService.FailuresPassThrough | src/Infrastructure/Services/OpenFoodFactsService.cs:66-70 | An HTTP error, a cancellation, a transport fault or a parse failure after validation each surface unchanged. |
| LookupService.BlankLookupBodyIsNull | src/Infrastructure/Services/OpenFoodFactsService.cs:45-49 | A blank lookup body makes the lookup null, not an error. |
| LookupService.BlankSearchBodyIsEmpty | src/Infrastructure/Services/OpenFoodFactsService.cs:101-105 | A blank search body makes the search empty, not an error. |
| LookupService.DefaultSearchEnvelopeIsEmpty | src/Infrastructure/Services/OpenFoodFactsService.cs:107-109 | A body that parses to a search envelope with its initial values (an empty product list) gives no products and no error. |
| LookupService.SearchProductsByName | src/Infrastructure/Services/OpenFoodFactsService.cs:76-121 | No GET is made exactly when the input fails a check, and exactly then an argument exception is thrown. The checks run in order: name, then page size in [1, 100], then page of at least 1. Valid input makes one GET of the search URL. The products come back in order and untruncated; a null envelope or list gives none. Any failure is rethrown. |
| LookupService.SearchBoundaries | src/Infrastructure/Services/OpenFoodFactsService.cs:85-89 | Page sizes 1 and 100 pass; 0 and 101 are refused before any GET; page 0 is refused. |
| LookupService.SearchUrlIsJoin | src/Infrastructure/Services/OpenFoodFactsService.cs:97 | The search URL is the search prefix followed by the five parameters joined with "&". |
| LookupService.SearchUrlSplits | src/Infrastructure/Services/OpenFoodFactsService.cs:96-97 | Splitting the search URL's query at "&" gives exactly the five parameters, whatever the name: escaped name, page, page size, fields, json flag. |
| LookupService.SearchParametersReadBack | src/Infrastructure/Services/OpenFoodFactsService.cs:96-97 | The search terms decode to the name's UTF-8 bytes; the page and page-size values parse back to the numbers given. |
| LookupService.SearchThroughInterface | src/Application/Common/Interfaces/IOpenFoodFactsService.cs:26-30 | A valid call through the interface requests the URL whose `page` is the interface's `pageSize` slot and whose `page_size` is its `page` slot. |
| LookupService.InterfaceSwapsPaging | src/Infrastructure/Services/OpenFoodFactsService.cs:76-80 | The same swap, read off the URL itself: the second and third query parameters carry the interface's `pageSize` and `page` slots. |
| ResearchController.GetProductByBarcode | src/Api/Controllers/FoodResearchController.cs:46-81 | A blank barcode is a 400 with no service call; otherwise one call with that barcode. 200 exactly when the service returns an envelope with status 1, carrying that envelope. 404 naming the barcode exactly when it returns null or another status. An argument exception gives a 400 with its message. 500 with a fixed text exactly when anything else is thrown. |
| ResearchController.SearchProducts | src/Api/Controllers/FoodResearchController.cs:98-140 | The action's own checks run in order, each a 400 with its own text, before any call. A valid search makes one interface call `(query, pageSize, page)`. The products come back as a 200, unchanged. An argument exception gives a 400 with its message; anything else a 500 with a fixed text. Never a 404. |
| ResearchController.BarcodeBadRequestIffBlank | src/Api/Controllers/FoodResearchController.cs:52-74 | Against the deployed service, a lookup is a 400 exactly when the barcode is blank. |
| ResearchController.BarcodeStatusFromRemote | src/Api/Controllers/FoodResearchController.cs:59-80 | Against the deployed service, the status follows from the remote answer: a failed GET or parse gives 500 (a remote 404 included), a blank body or null gives 404, and a parsed envelope gives 200 or 404 by its status. |
| ResearchController.SearchActionRequestsItsPage | src/Api/Controllers/FoodResearchController.cs:98-124 | The action's two swaps cancel: a valid search issues the GET for the action's own page and page size. |
| ResearchController.DefaultSearchRequestsFirstPage | src/Api/Controllers/FoodResearchController.cs:98-124 | A search that gives only the query takes page size 20 and page 1, and issues the GET for page 1 with 20 to a page. |
| ResearchController.SearchStatusFromRemote | src/Api/Controllers/FoodResearchController.cs:104-139 | Against the deployed service, a search is a 400 exactly when its input is invalid. Otherwise it is a 200 with the fetched products, or a 500 when the GET or the JSON fails. |
| QueryHandlers.HandleGetProductByBarcode | src/Application/Features/OpenFoodFacts/Queries/GetProductByBarcodeQueryHandler.cs:24-53 | A null or blank barcode is answered with null and no call. Otherwise one call with the same barcode, whose result or exception is passed on unchanged. |
| QueryHandlers.BarcodeHandlerAgreesWithService | src/Application/Features/OpenFoodFacts/Queries/GetProductByBarcodeQueryHandler.cs:26-53 | Behind the deployed service, the handler answers what the service answers. The exception is a blank barcode, which the handler answers with null where the service throws. It never sees an argument exception. |
| QueryHandlers.DefaultSearchQuery | src/Application/Features/OpenFoodFacts/Queries/SearchProductsQuery.cs:9-13 | A query built from a name alone asks for page 1 with 20 to a page. |
| QueryHandlers.HandleSearchProducts | src/Application/Features/OpenFoodFacts/Queries/SearchProductsQueryHandler.cs:24-53 | As written: a blank name is answered with no products and no call. Otherwise one interface call `(ProductName, Page, PageSize)`, whose products or exception are passed on unchanged. |
| QueryHandlers.DefaultQueryRequestsWrongPage | src/Application/Features/OpenFoodFacts/Queries/SearchProductsQueryHandler.cs:37-41 | As written, the default query asks the database for page 20 with one product to a page. |
| QueryHandlers.LargePageRejectedAsPageSize | src/Application/Features/OpenFoodFacts/Queries/SearchProductsQueryHandler.cs:37-41 | As written, a valid query for page 101 is refused with the page-size exception. |
| QueryHandlers.HandleSearchProductsCorrected | src/Application/Features/OpenFoodFacts/Queries/SearchProductsQueryHandler.cs:24-53 | Corrected: the same short-circuit and pass-through, with the interface call `(ProductName, PageSize, Page)`. |
| QueryHandlers.CorrectedHandlerRequestsItsPage | src/Application/Features/OpenFoodFacts/Queries/SearchProductsQueryHandler.cs:37-41 | Corrected, behind the deployed service: the outcome is the service's search for the query's own page and page size, and a valid query issues the GET for its own page. |
| QueryHandlers.CorrectedDefaultQuery | src/Application/Features/OpenFoodFacts/Queries/SearchProductsQueryHandler.cs:37-41 | Corrected, the default query asks for page 1 with 20 to a page. |
| QueryHandlers.HandlersDifferUnlessPagingSymmetric | src/Application/Features/OpenFoodFacts/Queries/SearchProductsQueryHandler.cs:37-41 | The written and corrected handlers make the same call exactly when the name is blank or page equals page size. |
| QueryHandlers.CorrectedHandlerMatchesAction | src/Api/Controllers/FoodResearchController.cs:124 | For the same valid search, the corrected handler and the controller's search action end in the same GET. |
| Text.Trim | src/Domain/Models/OpenFoodFacts/OpenFoodFactsProduct.cs:44 | The result has no white space at either end. It is empty exactly when the input is blank. It holds only characters of the input. An already trimmed input is unchanged. |
| Text.TrimIsInfix | src/Domain/Models/OpenFoodFacts/OpenFoodFactsProduct.cs:44 | Trimming removes only a blank prefix and a blank suffix: the result is the input between two blank ends. |
| Text.TrimIsTheTrimmedInfix | src/Domain/Models/OpenFoodFacts/OpenFoodFactsProduct.cs:44 | Wherever the input splits into a blank prefix, a middle with no white space at either end, and a blank suffix, that middle is the trimmed string. There is only one such middle. |
| Text.JoinSplit | src/Domain/Models/OpenFoodFacts/OpenFoodFactsProduct.cs:43 | Joining the comma pieces with commas gives back the input. |
| Text.SplitJoin | src/Domain/Models/OpenFoodFacts/OpenFoodFactsProduct.cs:43 | Splitting a join of separator-free pieces gives back the pieces. |

## Left out

- The web-service client (`BaseWebServiceClient`) is not part of this model. Its network I/O, timeout, user agent and status handling appear only through the transport oracle: a body, a non-2xx status, a cancellation or a fault.
- C# default parameter values become explicit arguments. An HTTP search that leaves out `pageSize` or `page` is modelled as a call with `ResearchController.DefaultPageSize` (20) or `ResearchController.DefaultPage` (1). The service's own defaults (`pageSize = 20`, `page = 1`) are never used by any caller in the slice.
- LookupService.ProductFields is written as the comma-join of the seven field names of `OpenFoodFactsService.cs` line 17, in their order. No lemma spells the joined text out character by character.
- JSON deserialisation is an oracle: a value, null, or a parse error with its message. No JSON grammar is modelled, nor case-insensitive property matching.
- Logging, `Dispose`, dependency-injection wiring, cancellation tokens and the constructors' null checks are left out. They do not change any outcome the model states.
- The mapping to transfer objects is left out. `Ok` carries the envelope or the product list itself: the mapping is a field-by-field copy done by a library.
- `GetApiInfo` and the placeholder CRUD controllers are left out. They return fixed data.
- Decimal rendering uses the invariant culture ("." and "-"). A culture with another decimal separator would print differently. The 96-bit mantissa and the scale limit of 28 of `decimal` are not modelled.
- C# `int` values are unbounded integers here. The slice only compares and prints them, so 32-bit width never changes an outcome.
- `Uri.EscapeDataString` is modelled for Unicode scalar values. Lone surrogates, which .NET rejects with an exception, cannot occur in a Dafny string.
- A route value in ASP.NET Core is never null, so the controller's barcode is a plain string. The query's search text may be absent, so it may be null.

## Findings

| source | as written | input that shows it | evidently intended | confidence | as-written member | corrected member |
|---|---|---|---|---|---|---|
| src/Application/Features/OpenFoodFacts/Queries/SearchProductsQueryHandler.cs:37-41 | The handler passes `(ProductName, Page, PageSize)` into the interface slots `(productName, page, pageSize)`, but the implementation declares `(productName, pageSize, page)` and binds by position. The database therefore gets `page=PageSize` and `page_size=Page`. | `SearchProductsQuery("milk")` (page 1, 20 to a page) requests `page=20&page_size=1`. `SearchProductsQuery("milk", 101, 20)` is refused as an out-of-range page size. | The query's page reaches the database as `page` and its page size as `page_size`, as the interface's own documentation order `(pageSize, page)` and the controller's call have it. | not executed | QueryHandlers.DefaultQueryRequestsWrongPage | QueryHandlers.CorrectedHandlerRequestsItsPage |
