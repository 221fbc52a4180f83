/**
 * The platform HTTP clients. Each instance caches its credential: the first
 * request reads the token from the store, strips its `"` characters, keeps
 * it in `authKey` and writes it into the request headers; every later
 * request on that instance reuses those headers without reading the store.
 * The token read, the reply of `request-promise` and the serialised body
 * are inputs.
 */
module Client {
  import opened Wrappers
  import opened Http

  datatype Mode = REST | SOAP

  const AuthorizationHeader := "Authorization"
  const IafTokenHeader := "X-EBAY-API-IAF-TOKEN"
  const CallNameHeader := "X-EBAY-API-CALL-NAME"
  const ShopifyTokenHeader := "X-Shopify-Access-Token"
  const Bearer := "Bearer "
  /** The rejection text when the token cannot be read; the read's error follows it. */
  const LoginFirst := "Error occured in acquiring ebay access token, please have the store login first: "

  function EbayBaseUrl(mode: Mode, sandbox: bool): string
  {
    match mode
    case REST => if sandbox then "https://api.sandbox.ebay.com" else "https://api.ebay.com"
    case SOAP => if sandbox then "https://api.sandbox.ebay.com/ws/api.dll" else "https://api.ebay.com/ws/api.dll"
  }

  /** The headers an eBay client starts with, credential fields empty. */
  function EbayInitialHeaders(mode: Mode): map<string, string>
  {
    match mode
    case REST =>
      map[AuthorizationHeader := "", "User-Agent" := "SellMaster Ebay Client",
          "Content-Type" := "application/json", "Accept" := "application/json",
          "X-EBAY-C-MARKETPLACE-ID" := "EBAY-US"]
    case SOAP =>
      map["X-EBAY-API-SITEID" := "0", "X-EBAY-API-COMPATIBILITY-LEVEL" := "967",
          CallNameHeader := "", IafTokenHeader := ""]
  }

  /** `token.replace(/"/g, '')`: every `"` removed, every other character kept in order. */
  function StripQuotes(s: string): (r: string)
    ensures '"' !in r
    ensures forall c :: c != '"' ==> (c in r <==> c in s)
    ensures |r| <= |s|
    ensures '"' !in s ==> r == s
    decreases |s|
  {
    if s == [] then []
    else
      assert forall c :: c in s <==> c == s[0] || c in s[1..];
      (if s[0] == '"' then [] else [s[0]]) + StripQuotes(s[1..])
  }

  /**
   * On one character: a quote is dropped, anything else kept. With
   * `StripQuotesAppend` this fixes the result on every string, order
   * included.
   */
  lemma StripQuotesChar(c: char)
    ensures StripQuotes([c]) == if c == '"' then [] else [c]
  {
    assert [c][1..] == [];
  }

  /** Exactly the quotes are removed: the result is shorter by their number. */
  lemma {:induction false} StripQuotesLength(s: string)
    ensures |StripQuotes(s)| == |s| - multiset(s)['"']
    decreases |s|
  {
    if s != [] {
      assert s == [s[0]] + s[1..];
      StripQuotesLength(s[1..]);
    }
  }

  /** Stripping quotes a second time changes nothing. */
  lemma StripQuotesIdempotent(s: string)
    ensures StripQuotes(StripQuotes(s)) == StripQuotes(s)
  {
  }

  /** Removing quotes distributes over concatenation. */
  lemma {:induction false} StripQuotesAppend(a: string, b: string)
    ensures StripQuotes(a + b) == StripQuotes(a) + StripQuotes(b)
    decreases |a|
  {
    if a == [] {
      assert a + b == b;
    } else {
      var head: string := if a[0] == '"' then [] else [a[0]];
      assert (a + b)[0] == a[0] && (a + b)[1..] == a[1..] + b;
      calc {
        StripQuotes(a + b);
        head + StripQuotes(a[1..] + b);
        { StripQuotesAppend(a[1..], b); }
        head + (StripQuotes(a[1..]) + StripQuotes(b));
        (head + StripQuotes(a[1..])) + StripQuotes(b);
        StripQuotes(a) + StripQuotes(b);
      }
    }
  }

  /** The REST `Authorization` value: the key, prefixed by `Bearer ` unless it already starts so. */
  function WithBearer(key: string): (r: string)
    ensures Bearer <= r
    ensures Bearer <= key ==> r == key
    ensures !(Bearer <= key) ==> r == Bearer + key
  {
    if Bearer <= key then key else Bearer + key
  }

  /** Prefixing is idempotent: a bearer key is never prefixed twice. */
  lemma WithBearerIdempotent(key: string)
    ensures WithBearer(WithBearer(key)) == WithBearer(key)
  {
  }

  /**
   * A token stored as a quoted bearer key yields that key, quotes removed,
   * with a single `Bearer ` prefix.
   */
  lemma QuotedBearerKey(key: string)
    ensures WithBearer(StripQuotes("\"" + Bearer + key + "\"")) == Bearer + StripQuotes(key)
  {
    var q: string := "\"";
    var withPrefix := q + Bearer;
    assert StripQuotes(withPrefix) == Bearer by {
      StripQuotesAppend(q, Bearer);
      StripQuotesChar('"');
      assert '"' !in Bearer;
    }
    var withKey := withPrefix + key;
    assert StripQuotes(withKey) == Bearer + StripQuotes(key) by {
      StripQuotesAppend(withPrefix, key);
    }
    var stored := withKey + q;
    assert StripQuotes(stored) == Bearer + StripQuotes(key) by {
      StripQuotesAppend(withKey, q);
      StripQuotesChar('"');
    }
    assert Bearer <= Bearer + StripQuotes(key);
  }

  /** `eBayClient`: one instance per account and protocol mode. */
  class EbayClient {
    const mode: Mode
    const baseUrl: string
    const username: string
    var authKey: Option<string>
    var headers: map<string, string>

    /** The headers hold the cached credential exactly when one is cached. */
    ghost predicate Valid()
      reads this
    {
      if authKey.None? then headers == EbayInitialHeaders(mode)
      else
        '"' !in authKey.value &&
        match mode
        case REST =>
          Bearer <= authKey.value && headers == EbayInitialHeaders(REST)[AuthorizationHeader := authKey.value]
        case SOAP =>
          CallNameHeader in headers &&
          headers == EbayInitialHeaders(SOAP)[IafTokenHeader := authKey.value][CallNameHeader := headers[CallNameHeader]]
    }

    /** `new eBayClient(username, mode)`; `sandbox` is `process.env.EBAY_ENV == "sandbox"`. */
    constructor (username: string, mode: Option<Mode>, sandbox: bool)
      ensures Valid()
      ensures this.mode == (if mode.Some? then mode.value else REST)
      ensures baseUrl == EbayBaseUrl(this.mode, sandbox) && this.username == username
      ensures authKey.None? && headers == EbayInitialHeaders(this.mode)
    {
      this.mode := if mode.Some? then mode.value else REST;
      this.baseUrl := EbayBaseUrl(if mode.Some? then mode.value else REST, sandbox);
      this.username := username;
      authKey := None;
      headers := EbayInitialHeaders(if mode.Some? then mode.value else REST);
    }

    /**
     * A call of `SOAP_request(verb)(apiCall, data)`. `token` is what the
     * store read settles with, consulted only when no credential is cached;
     * `storeRead` tells whether it was. The call name header is written
     * only together with the credential, so later calls keep the first
     * call's name.
     */
    method SoapRequest(verb: Verb, apiCall: string, data: string, token: Result<string, string>, reply: Transport)
      returns (storeRead: bool, sent: Option<HttpRequest>, r: Result<string, Thrown>)
      requires Valid() && mode == SOAP
      modifies this
      ensures Valid()
      ensures storeRead <==> old(authKey).None?
      ensures old(authKey).Some? ==> authKey == old(authKey) && headers == old(headers)
      ensures old(authKey).None? && token.Ok? ==>
        authKey == Some(StripQuotes(token.value)) &&
        headers == old(headers)[IafTokenHeader := StripQuotes(token.value)][CallNameHeader := apiCall]
      ensures old(authKey).None? && token.Err? ==>
        authKey.None? && headers == old(headers) && sent.None? && r == Err(Text(LoginFirst + token.error))
      ensures authKey.Some? ==> sent == Some(HttpRequest(verb, baseUrl, None, headers, data)) && r == EbayOutcome(reply)
    {
      storeRead := authKey.None?;
      if authKey.None? {
        match token
        case Err(reason) =>
          return storeRead, None, Err(Text(LoginFirst + reason));
        case Ok(value) =>
          authKey := Some(StripQuotes(value));
          headers := headers[IafTokenHeader := StripQuotes(value)];
          headers := headers[CallNameHeader := apiCall];
      }
      sent := Some(HttpRequest(verb, baseUrl, None, headers, data));
      r := EbayOutcome(reply);
    }

    /**
     * A call of `REST_request(verb)(url, qs, data)`: the request goes to
     * `baseUrl + '/' + url` with the bearer key as `Authorization`.
     */
    method RestRequest(verb: Verb, url: string, qs: Option<map<string, string>>, data: string,
                       token: Result<string, string>, reply: Transport)
      returns (storeRead: bool, sent: Option<HttpRequest>, r: Result<string, Thrown>)
      requires Valid() && mode == REST
      modifies this
      ensures Valid()
      ensures storeRead <==> old(authKey).None?
      ensures old(authKey).Some? ==> authKey == old(authKey) && headers == old(headers)
      ensures old(authKey).None? && token.Ok? ==>
        authKey == Some(WithBearer(StripQuotes(token.value))) &&
        headers == old(headers)[AuthorizationHeader := WithBearer(StripQuotes(token.value))]
      ensures old(authKey).None? && token.Err? ==>
        authKey.None? && headers == old(headers) && sent.None? && r == Err(Text(LoginFirst + token.error))
      ensures authKey.Some? ==>
        sent == Some(HttpRequest(verb, baseUrl + "/" + url, qs, headers, data)) && r == EbayOutcome(reply)
    {
      var uri := baseUrl + "/" + url;
      storeRead := authKey.None?;
      if authKey.None? {
        match token
        case Err(reason) =>
          return storeRead, None, Err(Text(LoginFirst + reason));
        case Ok(value) =>
          var key := StripQuotes(value);
          if !(Bearer <= key) {
            key := Bearer + key;
          }
          authKey := Some(key);
          headers := headers[AuthorizationHeader := key];
      }
      sent := Some(HttpRequest(verb, uri, qs, headers, data));
      r := EbayOutcome(reply);
    }
  }

  /** `ShopifyClient`: one instance per store. */
  class ShopifyClient {
    const storename: string
    const baseUrl: string
    var authKey: Option<string>
    var headers: map<string, string>

    ghost predicate Valid()
      reads this
    {
      headers == map[ShopifyTokenHeader := if authKey.Some? then authKey.value else ""] &&
      (authKey.Some? ==> '"' !in authKey.value)
    }

    constructor (storename: string)
      ensures Valid()
      ensures this.storename == storename && baseUrl == "https://" + storename + ".myshopify.com"
      ensures authKey.None? && headers == map[ShopifyTokenHeader := ""]
    {
      this.storename := storename;
      this.baseUrl := "https://" + storename + ".myshopify.com";
      authKey := None;
      headers := map[ShopifyTokenHeader := ""];
    }

    /**
     * A call of `_request(verb)(url, qs, data)`. Unlike the eBay clients it
     * resolves with the body whatever the status.
     */
    method Request(verb: Verb, url: string, qs: Option<map<string, string>>, data: string,
                   token: Result<string, string>, reply: Transport)
      returns (storeRead: bool, sent: Option<HttpRequest>, r: Result<string, Thrown>)
      requires Valid()
      modifies this
      ensures Valid()
      ensures storeRead <==> old(authKey).None?
      ensures old(authKey).Some? ==> authKey == old(authKey) && headers == old(headers)
      ensures old(authKey).None? && token.Ok? ==> authKey == Some(StripQuotes(token.value))
      ensures old(authKey).None? && token.Err? ==>
        authKey.None? && headers == old(headers) && sent.None? && r == Err(Text(LoginFirst + token.error))
      ensures authKey.Some? ==>
        sent == Some(HttpRequest(verb, baseUrl + "/" + url, qs, headers, data)) && r == ShopifyOutcome(reply)
    {
      var uri := baseUrl + "/" + url;
      storeRead := authKey.None?;
      if authKey.None? {
        match token
        case Err(reason) =>
          return storeRead, None, Err(Text(LoginFirst + reason));
        case Ok(value) =>
          authKey := Some(StripQuotes(value));
          headers := headers[ShopifyTokenHeader := StripQuotes(value)];
      }
      sent := Some(HttpRequest(verb, uri, qs, headers, data));
      r := ShopifyOutcome(reply);
    }
  }

  /**
   * Two SOAP calls on a fresh client: the second reads no token and still
   * sends the first call's name and the first token.
   */
  method SoapSecondCallKeepsFirstName(username: string, firstCall: string, secondCall: string, token: string,
                                      data: string, reply: Transport)
    returns (secondRead: bool, sentName: string, sentToken: string)
    ensures !secondRead
    ensures sentName == firstCall
    ensures sentToken == StripQuotes(token)
  {
    var client := new EbayClient(username, Some(SOAP), false);
    var _, _, _ := client.SoapRequest(POST, firstCall, data, Ok(token), reply);
    var read, sent, _ := client.SoapRequest(POST, secondCall, data, Err("unused"), reply);
    secondRead := read;
    sentName := sent.value.headers[CallNameHeader];
    sentToken := sent.value.headers[IafTokenHeader];
  }

  /**
   * A REST client whose stored token is already a quoted bearer key sends
   * it with the quotes removed and without a second prefix.
   */
  method RestBearerKeyNotPrefixedTwice(username: string, key: string, url: string, reply: Transport)
    returns (authorization: string)
    ensures authorization == Bearer + StripQuotes(key)
  {
    var stored := "\"" + Bearer + key + "\"";
    QuotedBearerKey(key);
    var client := new EbayClient(username, None, false);
    var _, sent, _ := client.RestRequest(GET, url, None, "", Ok(stored), reply);
    authorization := sent.value.headers[AuthorizationHeader];
  }
}
