/**
 * What the HTTP clients exchange with `request-promise`: the verb, the
 * request they send, the reply (or network failure) they get back, and the
 * value a rejected request carries.
 */
module Http {
  import opened Wrappers

  datatype Verb = GET | POST | PUT | DELETE

  /** What `rp(...)` settles with when called with `simple: false`. */
  datatype Transport = Reply(status: int, body: string) | NetworkError(message: string)

  /** The options object handed to `rp`; `query` is absent for SOAP calls. */
  datatype HttpRequest = HttpRequest(
    verb: Verb, uri: string, query: Option<map<string, string>>,
    headers: map<string, string>, body: string)

  /**
   * The value a rejected client promise carries: a plain string (the
   * response body, or the login message) or an error object.
   */
  datatype Thrown = Text(text: string) | ErrorObject(message: string, statusCode: Option<int>)

  /** JavaScript's `err.statusCode`: a string has no such property. */
  function StatusCodeOf(err: Thrown): (r: Option<int>)
    ensures err.Text? ==> r.None?
    ensures err.ErrorObject? ==> r == err.statusCode
  {
    match err
    case Text(_) => None
    case ErrorObject(_, code) => code
  }

  predicate IsSuccess(status: int)
  {
    200 <= status < 300
  }

  /**
   * How both eBay clients settle: the body of a 2xx reply, the body thrown
   * for any other status, the network error rethrown.
   */
  function EbayOutcome(t: Transport): (r: Result<string, Thrown>)
    ensures r.Ok? <==> t.Reply? && IsSuccess(t.status)
    ensures t.Reply? ==> r == Ok(t.body) || r == Err(Text(t.body))
    ensures t.NetworkError? ==> r == Err(ErrorObject(t.message, None))
  {
    match t
    case Reply(status, body) => if IsSuccess(status) then Ok(body) else Err(Text(body))
    case NetworkError(message) => Err(ErrorObject(message, None))
  }

  /** How the Shopify client settles: the body for every status. */
  function ShopifyOutcome(t: Transport): (r: Result<string, Thrown>)
    ensures r.Ok? <==> t.Reply?
    ensures t.Reply? ==> r.value == t.body
    ensures t.NetworkError? ==> r == Err(ErrorObject(t.message, None))
  {
    match t
    case Reply(_, body) => Ok(body)
    case NetworkError(message) => Err(ErrorObject(message, None))
  }

  /** A rejection of an eBay request never carries a status code. */
  lemma EbayRejectionHasNoStatusCode(t: Transport)
    requires EbayOutcome(t).Err?
    ensures StatusCodeOf(EbayOutcome(t).error).None?
  {
  }
}
