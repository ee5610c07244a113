/**
  The response envelopes of the food database: the by-barcode lookup envelope
  (`OpenFoodFactsApiResponse`) and the search envelope
  (`OpenFoodFactsSearchResponse`), with the defaults the JSON reader leaves in
  fields the body does not mention.
 */
module Envelopes {
  import opened Wrappers
  import opened Products

  /** The lookup envelope; `product` is optional and independent of `status`. */
  datatype Envelope = Envelope(
    code: string,
    product: Option<Product>,
    status: int,
    statusVerbose: string)

  /** `IsSuccess`: the database reported a match. */
  predicate IsSuccess(e: Envelope) {
    e.status == 1
  }

  /** A freshly constructed envelope, also what `{}` deserializes to. */
  const DefaultEnvelope: Envelope := Envelope("", None, 0, "")

  /**
    The search envelope. `products` starts as an empty list and becomes null
    only when the body says `"products": null`.
   */
  datatype SearchResponse = SearchResponse(
    products: Option<seq<Product>>,
    count: int,
    page: int,
    pageSize: int)

  /** A freshly constructed search envelope, also what `{}` deserializes to. */
  const DefaultSearchResponse: SearchResponse := SearchResponse(Some([]), 0, 0, 0)

  /**
    Success is decided by the status alone: exactly status 1 succeeds, and
    neither the product, the code nor the status text has any say.
   */
  lemma SuccessIsStatusOne(e: Envelope, product: Option<Product>, code: string, verbose: string)
    ensures IsSuccess(e) <==> e.status == 1
    ensures IsSuccess(e.(product := product, code := code, statusVerbose := verbose)) == IsSuccess(e)
    ensures e.status == 0 || e.status < 0 || e.status >= 2 ==> !IsSuccess(e)
  {
  }

  /** The default envelope has status 0 and empty texts, so it is not a success. */
  lemma DefaultIsNotSuccess()
    ensures DefaultEnvelope.status == 0 && DefaultEnvelope.code == "" && DefaultEnvelope.statusVerbose == ""
    ensures !IsSuccess(DefaultEnvelope)
  {
  }

  /** Success does not imply a product: a status-1 envelope may carry none. */
  lemma SuccessWithoutProduct()
    ensures exists e: Envelope :: IsSuccess(e) && e.product.None?
  {
    assert IsSuccess(DefaultEnvelope.(status := 1));
  }
}
