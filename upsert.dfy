/**
 * The per-listing step of `pushAlleBayProductsToShopify`: the eBay item's
 * Shopify counterpart decides between creating (POST) and updating (PUT),
 * and a response that carries a product has both directions of the
 * correspondence written. The mapping store is a string map; the key
 * builder `getMappingKey` is passed in as a function.
 */
module Upsert {
  import opened Wrappers
  import opened Http

  /** The `product` of a Shopify response: its id and its tags (the eBay item id). */
  datatype ShopifyProduct = ShopifyProduct(id: string, tags: string)

  /** The Shopify call a listing push makes. */
  datatype PushRequest = PushRequest(verb: Verb, path: string)

  /** `getMappingKey(fromPlatform, fromOwner, toPlatform, toOwner, id)`. */
  type MappingKeyFn = (string, string, string, string, string) -> string

  const CreatePath := "admin/products.json"

  function UpdatePath(productId: string): string
  {
    "admin/products/" + productId
  }

  /**
   * No counterpart (`null`) means create the product; a counterpart means
   * update that Shopify product.
   */
  function RouteUpsert(shopifyProductId: Option<string>): (r: PushRequest)
    ensures r.verb == POST <==> shopifyProductId.None?
    ensures r.verb == PUT <==> shopifyProductId.Some?
    ensures shopifyProductId.None? ==> r.path == CreatePath
    ensures shopifyProductId.Some? ==> r.path == UpdatePath(shopifyProductId.value)
  {
    match shopifyProductId
    case None => PushRequest(POST, CreatePath)
    case Some(productId) => PushRequest(PUT, UpdatePath(productId))
  }

  /** The key from an eBay item to its Shopify product. */
  function ForwardKey(mappingKey: MappingKeyFn, ebayID: string, shopifyID: string, itemId: string): string
  {
    mappingKey("ebay", ebayID, "shopify", shopifyID, itemId)
  }

  /** The key from a Shopify product back to its eBay item. */
  function ReverseKey(mappingKey: MappingKeyFn, ebayID: string, shopifyID: string, productId: string): string
  {
    mappingKey("shopify", shopifyID, "ebay", ebayID, productId)
  }

  /**
   * After a push: with a product in the response, the forward key of its
   * tags is set to its id and then the reverse key of its id to its tags;
   * without one, the store is left alone.
   */
  function RecordMapping(store: map<string, string>, mappingKey: MappingKeyFn, ebayID: string, shopifyID: string,
                         response: Option<ShopifyProduct>): (r: map<string, string>)
    ensures response.None? ==> r == store
    ensures response.Some? ==>
      var fwd := ForwardKey(mappingKey, ebayID, shopifyID, response.value.tags);
      var rev := ReverseKey(mappingKey, ebayID, shopifyID, response.value.id);
      rev in r && r[rev] == response.value.tags &&
      (fwd != rev ==> fwd in r && r[fwd] == response.value.id) &&
      (forall k :: k != fwd && k != rev ==> (k in r <==> k in store) && (k in store ==> r[k] == store[k]))
  {
    match response
    case None => store
    case Some(product) =>
      store[ForwardKey(mappingKey, ebayID, shopifyID, product.tags) := product.id]
           [ReverseKey(mappingKey, ebayID, shopifyID, product.id) := product.tags]
  }

  /**
   * `findCorrespondingID("ebay", ebayID, "shopify", shopifyID, itemId)`,
   * read as a lookup of the forward key.
   */
  function FindCorresponding(store: map<string, string>, mappingKey: MappingKeyFn, ebayID: string,
                             shopifyID: string, itemId: string): (r: Option<string>)
    ensures r.Some? <==> ForwardKey(mappingKey, ebayID, shopifyID, itemId) in store
    ensures r.Some? ==> r.value == store[ForwardKey(mappingKey, ebayID, shopifyID, itemId)]
  {
    var fwd := ForwardKey(mappingKey, ebayID, shopifyID, itemId);
    if fwd in store then Some(store[fwd]) else None
  }

  /**
   * Once a product is recorded (its two keys distinct), the forward lookup
   * of its tags yields its id and the reverse lookup of that id yields the
   * tags back.
   */
  lemma MappingRoundTrip(store: map<string, string>, mappingKey: MappingKeyFn, ebayID: string, shopifyID: string,
                         product: ShopifyProduct)
    requires ForwardKey(mappingKey, ebayID, shopifyID, product.tags)
      != ReverseKey(mappingKey, ebayID, shopifyID, product.id)
    ensures var r := RecordMapping(store, mappingKey, ebayID, shopifyID, Some(product));
      var found := FindCorresponding(r, mappingKey, ebayID, shopifyID, product.tags);
      found == Some(product.id) &&
      ReverseKey(mappingKey, ebayID, shopifyID, found.value) in r &&
      r[ReverseKey(mappingKey, ebayID, shopifyID, found.value)] == product.tags
  {
  }

  /**
   * A listing pushed once, with the created product tagged by its item id,
   * is routed to an update of that product the next time: repeated pushes
   * upsert rather than duplicate.
   */
  lemma RepeatPushUpdates(store: map<string, string>, mappingKey: MappingKeyFn, ebayID: string, shopifyID: string,
                          itemId: string, product: ShopifyProduct)
    requires product.tags == itemId
    requires ForwardKey(mappingKey, ebayID, shopifyID, itemId)
      != ReverseKey(mappingKey, ebayID, shopifyID, product.id)
    ensures var r := RecordMapping(store, mappingKey, ebayID, shopifyID, Some(product));
      RouteUpsert(FindCorresponding(r, mappingKey, ebayID, shopifyID, itemId))
        == PushRequest(PUT, "admin/products/" + product.id)
  {
    MappingRoundTrip(store, mappingKey, ebayID, shopifyID, product);
  }

  /**
   * As written, no push reads a product from its response, so no mapping is
   * recorded: `post` and `put` are never bound on the Shopify client, so the
   * call throws and the response is undefined; were they bound to
   * `_request`, the body would come back as unparsed text, whose `.product`
   * is undefined. For a listing with no stored counterpart the store stays
   * unchanged and the next push is routed to POST again.
   */
  lemma UnparsedResponseRepostsListing(store: map<string, string>, mappingKey: MappingKeyFn, ebayID: string,
                                       shopifyID: string, itemId: string)
    requires ForwardKey(mappingKey, ebayID, shopifyID, itemId) !in store
    ensures RecordMapping(store, mappingKey, ebayID, shopifyID, None) == store
    ensures RouteUpsert(FindCorresponding(RecordMapping(store, mappingKey, ebayID, shopifyID, None), mappingKey,
                                          ebayID, shopifyID, itemId))
      == PushRequest(POST, CreatePath)
  {
  }
}
