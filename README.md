# Catalog sync between eBay and Shopify, modelled in Dafny

This project models the bookkeeping core of a service that keeps a seller's
eBay listings and Shopify products in step. It covers:

- **the title-index diff** of `getDifferencebyTitle`: a two-pointer merge over
  the two title indices in the order the store returns them, then one
  filtering pass per index. The loops are modelled exactly as written.
- **fetch planning**: the Shopify page list, the eBay id pages, the chunks of
  20 ids, and what a chunk fetch does when its request is rejected.
- **the title index**: each saved listing writes its product record and adds
  the member `escapeTitle(title) + ':' + id` to a sorted set.
- **the key scan** of `getAllProductKeys`: repeated `SCAN` calls collected
  into a `Set`.
- **upsert routing** and the two-way eBay/Shopify id mapping written after a
  push.
- **the HTTP clients** `eBayClient` (SOAP and REST modes) and `ShopifyClient`.
  Each is a class whose `authKey` and `headers` are set on the first request
  and reused by every later one.

Modules, one per component: `Wrappers` (Option, Result), `JsText` (JavaScript
string order and `split(':')[0]`), `TitleDiff`, `Http` (transport replies,
rejections, status classification), `FetchPlan`, `CatalogIndex`, `KeyScan`,
`Upsert`, `Client`.

Modelling choices:

- JavaScript `<` on strings compares UTF-16 code units. `JsText.Less` compares
  characters by (first code unit, code point). That order is the same as
  UTF-16 code-unit order.
- `escapeTitle`, `getProductName`, `getMappingKey` and `getTockenKey` live in a
  utility file that is not part of this model. The first three are passed in
  as function parameters. The token key only selects what the store read
  returns, so the read's result is an input.
- Everything the store or the network returns is an input: the token read
  (`Result<string, string>`), the `request-promise` reply (`Transport`), the
  sequence of `SCAN` replies, and the `product` of a Shopify response.
- The Shopify client resolves with the body for every status, not only 2xx
  (controller/client.js:184-188).
- A listing saved again under a new title keeps its old index member, so the
  index can hold two members for one id (`CatalogIndex.RetitledListingKeepsOldEntry`).
- The store returns a title index ordered by whole `title:id` members. That
  order differs from the order of the titles exactly when one escaped title
  is a proper prefix of another whose next character sorts below `:` (a
  space, a digit, `-`); it is the title order whenever every escaped
  character sorts above `:` (see Findings).
- The "only" lists miss titles after the last common title, the retry on
  400 is never made, and no eBay-to-Shopify mapping is ever recorded (see
  Findings). As written `post`/`put` are unbound on the Shopify client, so
  no push request is sent at all; were they bound to `_request`, the body
  would come back as unparsed text and every push of a listing without a
  counterpart would POST again.

## Model

| member | source | states |
|---|---|---|
| `JsText.TitlePrefix` | models/products.js:131-132 | `split(':')[0]` is a prefix of the entry with no `:` in it, and when shorter it is followed by `:` |
| `JsText.TitlePrefixOfEntry` | models/products.js:222 | the title part of `title + ':' + id` is `title` when the title has no `:` |
| `JsText.Less` | models/products.js:134 | JavaScript `<` on strings: a proper prefix sorts first, and no string sorts before itself |
| `JsText.LessAfterCommonPrefix` | models/products.js:134 | a shared prefix leaves the order to what follows it |
| `JsText.EntryOrderIsTitleOrder` | models/products.js:120-121 | for titles whose characters all sort above `:`, two members with different titles are in the order of their titles |
| `JsText.LessTransitive` | models/products.js:134 | string `<` is transitive |
| `JsText.LessTotal` | models/products.js:134-137 | two different titles are ordered one way or the other, so the merge's last branch means "greater" |
| `JsText.LessAsymmetric` | models/products.js:134-137 | `a < b` excludes `b < a` |
| `TitleDiff.MergeTitles` | models/products.js:128-139 | the merge loop yields `Common` of the two title sequences, in at most n + m rounds |
| `TitleDiff.FilterOnly` | models/products.js:141-159 | a filtering loop yields `OnlyIn` of its index against the common titles |
| `TitleDiff.DiffByTitle` | models/products.js:117-188 | returns common titles and both only lists; with no common title both only lists are empty |
| `TitleDiff.CommonIsSubseq` | models/products.js:129-139 | the common titles occur, in order, in both title sequences |
| `TitleDiff.CommonTitlesFromBothIndices` | models/products.js:129-139 | `CommonProducts` has at most min(n, m) titles, each the title part of some eBay entry and of some Shopify entry |
| `TitleDiff.CommonIsSortedIntersection` | models/products.js:129-139 | on strictly increasing title sequences, the common titles are exactly their intersection, strictly increasing (the store gives such sequences under the condition of `CatalogIndex.EscapedIndexIsTitleOrdered`) |
| `TitleDiff.CommonSymmetric` | models/products.js:129-139 | the merge gives the same common titles whichever index comes first |
| `TitleDiff.DiffSymmetric` | models/products.js:117-159 | swapping the two indices swaps the two only lists |
| `TitleDiff.OnlyInIsSubseq` | models/products.js:141-159 | each only list takes its titles, in order, from its own index and is no longer than it |
| `TitleDiff.OnlyInIgnoresTail` | models/products.js:142-149 | once every common title is matched, what follows is never looked at |
| `TitleDiff.EbayOnlyStopsAtLastCommon` | models/products.js:141-149 | eBay entries after the point where the last common title is matched never reach `ebayOnly` |
| `TitleDiff.DuplicateCommonTitleReportedOnly` | models/products.js:141-149 | a common title listed twice on one side lands in that side's only list when a later common title is still to be matched, and is not reported when it was the last |
| `TitleDiff.TailTitlesDropped` | models/products.js:141-159 | on the indices `Blue Hat:…`, `Red Shoe:…` and `Blue Hat:…`, `Green Bag:…`, whatever the ids, both only lists come back empty; the corrected lists hold Red Shoe and Green Bag |
| `TitleDiff.OnlyInCorrected` | models/products.js:113-116 | the corrected only list: the titles of the index that are not common, in order |
| `TitleDiff.CorrectedDiffPartitions` | models/products.js:113-116 | on strictly increasing title sequences, common and corrected only lists partition each side, and a title is only on one side exactly when the other side lacks it |
| `Http.StatusCodeOf` | models/products.js:392 | `err.statusCode` is absent on a thrown string and is the error object's own field otherwise |
| `Http.EbayOutcome` | controller/client.js:81-89 | eBay requests resolve with the body exactly for a status in [200,300), throw the body for any other status, and rethrow network errors |
| `Http.ShopifyOutcome` | controller/client.js:183-191 | Shopify requests resolve with the body for every status and reject only on a network error |
| `Http.EbayRejectionHasNoStatusCode` | controller/client.js:124-132 | no rejection of an eBay request carries a status code |
| `FetchPlan.PageCount` | models/products.js:208 | `Math.ceil(total / size)`: np pages hold the total, and np - 1 do not |
| `FetchPlan.PageNumbers` | models/products.js:209 | the pages are numbered 1..np |
| `FetchPlan.ShopifyPagePlan` | models/products.js:206-239 | a missing count is the only failure, with the "can't get the count" error, and a count of 0 is accepted; without `all` the plan is `[1]`; with `all` it has ceil(count/250) pages |
| `FetchPlan.ShopifyPlanCoversCatalog` | models/products.js:208-212 | with `all` the plan is 1..np, every product's page is in it, and no page lies past the catalog |
| `FetchPlan.PlanEbayIdPages` | models/products.js:312-320 | `all` mode requests ceil(number/200) pages of 200 covering every listing with no empty page; sample mode requests pages 1..3 of 10 |
| `FetchPlan.FiveHundredThirtyListingsTakeThreePages` | models/products.js:313 | 530 listings take 3 id pages |
| `FetchPlan.Chunks` | models/products.js:380 | `_.chunk`: non-empty pieces of at most `size`, all but the last full, whose concatenation is the input |
| `FetchPlan.ChunkCount` | models/products.js:380-381 | there are ceil(n / size) chunks |
| `FetchPlan.ItemIdChunks` | models/products.js:375-380 | the id list splits into ceil(n/20) chunks of at most 20 ids that concatenate back to it |
| `FetchPlan.FetchChunkAsWritten` | models/products.js:390-403 | as written: the fetch ends with the first body, or, when the rejection's `statusCode` is 400, with the repeat's body; otherwise it exits |
| `FetchPlan.RetryOnBadRequestNeverTaken` | models/products.js:390-403 | with the eBay client's rejections, the chunk fetch as written succeeds exactly when the first reply is 2xx and never repeats the request |
| `FetchPlan.FetchChunk` | models/products.js:390-403 | corrected: the fetch succeeds exactly on a 2xx first reply, with its body, or on a 400 followed by a 2xx repeat, with the repeat's body |
| `FetchPlan.TransientFailureMasked` | models/products.js:390-403 | corrected: one 400 and then success ends as if the first request had succeeded; as written it exits |
| `CatalogIndex.IndexEntry` | models/products.js:222 | the member is the escaped title, then `:`, then the id, each recoverable by cutting at the separator |
| `CatalogIndex.SaveListing` | models/products.js:219-228 | saving writes the record under the product key and adds the member; nothing else changes |
| `CatalogIndex.SaveListingIdempotent` | models/products.js:223-224 | saving the same listing twice leaves the store as saving it once |
| `CatalogIndex.RetitledListingKeepsOldEntry` | models/products.js:224 | the index only grows: a listing saved under a new title keeps its old member |
| `CatalogIndex.SavePage` | models/products.js:217-229 | saving a page adds exactly the page's members to the index and exactly their keys to the records |
| `CatalogIndex.SavePageKeepsOtherRecords` | models/products.js:217-229 | a record under a key no listing of the page has keeps its value |
| `CatalogIndex.SavePageStoresLastRecord` | models/products.js:223 | each key of the page holds the record of the last listing saved under it |
| `CatalogIndex.SavedPageIsIndexed` | models/products.js:217-229 | every listing of a saved page has its member and its record |
| `CatalogIndex.IndexTitlesAreEscapedTitles` | models/products.js:120-132 | an index of members whose escaped titles have no `:` presents exactly those titles to the diff |
| `CatalogIndex.StoreOrderHidesCommonTitle` | models/products.js:120-139 | `Red Shoe 2:…` sorts before `Red Shoe:…` in the store, so merged against `Red Shoe:…` the diff finds no common title though "Red Shoe" is on both sides |
| `CatalogIndex.EscapedIndexIsTitleOrdered` | models/products.js:120-139 | when every escaped title sorts above `:` and has one member, an index in store order presents strictly increasing titles to the merge |
| `KeyScan.GetAllProductKeys` | models/products.js:464-492 | each `SCAN` continues from the previous cursor with the key pattern and `limit \|\| 10000`; the scan stops at cursor `'0'`, after the first reply when `limit` is set, or on a store error; the result has no duplicates and holds exactly the keys of the replies read |
| `KeyScan.KeyPattern` | models/products.js:470 | the pattern is the owner's key prefix `products:{channel}:{id}:` followed by `*` |
| `KeyScan.KeyPatternsSeparateOwners` | models/products.js:470 | owners whose channel and id hold no `:` scan with distinct patterns |
| `KeyScan.CountArgument` | models/products.js:468 | the `COUNT` argument is the limit when it is truthy and 10000 otherwise |
| `KeyScan.AddAll` | models/products.js:474-476 | adding keys to the `Set` keeps it duplicate-free and extends it with exactly the new keys |
| `Upsert.RouteUpsert` | models/products.js:536-543 | a null counterpart means POST to `admin/products.json`, otherwise PUT to `admin/products/{id}` |
| `Upsert.RecordMapping` | models/products.js:546-561 | with a product in the response the forward key maps to its id and the reverse key to its tags, and no other key changes; without one nothing is written |
| `Upsert.FindCorresponding` | models/products.js:536 | the counterpart exists exactly when the forward key is stored, and is the value stored there |
| `Upsert.MappingRoundTrip` | models/products.js:551-553 | after recording, the forward lookup yields the product id and the reverse lookup of that id yields the tags |
| `Upsert.RepeatPushUpdates` | models/products.js:536-553 | corrected: once a response carrying the product is recorded, the next push of the listing is a PUT of that product |
| `Upsert.UnparsedResponseRepostsListing` | models/products.js:546-553 | as written: with no product read from the response nothing is recorded, and a listing without a counterpart is routed to POST again on the next push |
| `Client.StripQuotes` | controller/client.js:65 | every `"` is removed and every other character kept |
| `Client.StripQuotesChar` | controller/client.js:65 | on one character a quote is dropped and anything else kept, which with `StripQuotesAppend` fixes the result, order included |
| `Client.StripQuotesLength` | controller/client.js:65 | the result is shorter by exactly the number of quotes |
| `Client.StripQuotesIdempotent` | controller/client.js:105 | stripping twice is stripping once |
| `Client.StripQuotesAppend` | controller/client.js:167 | stripping distributes over concatenation |
| `Client.WithBearer` | controller/client.js:106-108 | the key starts with `Bearer `, unchanged if it already did, prefixed otherwise |
| `Client.WithBearerIdempotent` | controller/client.js:106-108 | prefixing is idempotent |
| `Client.QuotedBearerKey` | controller/client.js:105-109 | a quoted stored bearer key yields the key, quotes removed, with a single prefix |
| `Client.EbayClient.constructor` | controller/client.js:14-54 | mode defaults to REST; the base URL follows mode and environment; no credential; the initial headers of the mode |
| `Client.EbayClient.SoapRequest` | controller/client.js:56-92 | the store is read only while no credential is cached; a failed read rejects with the login message and caches nothing; the first call stores the stripped token and its call name, which later calls keep; the request goes to the fixed base URL and settles by `EbayOutcome` |
| `Client.EbayClient.RestRequest` | controller/client.js:94-137 | as SOAP, but the credential is the stripped token with the bearer prefix in `Authorization`, and the request goes to `baseUrl + '/' + url` |
| `Client.ShopifyClient.constructor` | controller/client.js:145-154 | the store URL and an empty access-token header |
| `Client.ShopifyClient.Request` | controller/client.js:156-194 | as the eBay clients, with the stripped token in `X-Shopify-Access-Token`, and settling by `ShopifyOutcome` |
| `Client.SoapSecondCallKeepsFirstName` | controller/client.js:60-67 | a second SOAP call reads no token and still sends the first call's name and token |
| `Client.RestBearerKeyNotPrefixedTwice` | controller/client.js:100-109 | a REST client sends a stored quoted bearer key unquoted with one prefix |

## Findings

| source | as written | input that shows it | evidently intended | confidence | as-written member | corrected member |
|---|---|---|---|---|---|---|
| models/products.js:141-159 | both filtering loops stop once `k` reaches `intersections.length`, so titles after the last common title are never reported, and with no common title both lists are empty | eBay index `Blue Hat:101, Red Shoe:102`, Shopify index `Blue Hat:7, Green Bag:8`: both only lists come back empty | every non-common title is listed as only on its side (the function's doc comment) | high; not executed | `TitleDiff.TailTitlesDropped` | `TitleDiff.CorrectedDiffPartitions` |
| models/products.js:120-139 | the merge walks both indices as if they were in title order, but the store orders them by whole `title:id` members, and a space, a digit or `-` sorts below `:` | eBay index `Red Shoe 2:5`, `Red Shoe:3` (store order), Shopify index `Red Shoe:7`: no common title is found, and "Red Shoe" is on neither only list | escaped titles keep member order equal to title order, so the merge finds every shared title | medium, since `escapeTitle` is not part of this model; not executed | `CatalogIndex.StoreOrderHidesCommonTitle` | `CatalogIndex.EscapedIndexIsTitleOrdered` |
| models/products.js:390-403 | the retry on a 400 tests `err.statusCode == 400`, but the eBay REST client rejects with the response body, a string without `statusCode`; any rejection exits | a chunk request answered 400 and then 200: the process exits | repeat the identical request once on a 400 reply | medium; not executed | `FetchPlan.RetryOnBadRequestNeverTaken` | `FetchPlan.TransientFailureMasked` |
| models/products.js:546-553 | the mapping is written only when `response.product` is set, but `post`/`put` are never bound on the Shopify client, so the call throws and `response` is undefined; bound to `_request`, it would resolve with the body as unparsed text, whose `.product` is undefined; either way no mapping is ever recorded | push a listing with no stored counterpart twice: no mapping is written, and the second push is routed to POST `admin/products.json` again (with `post` bound, creating the product twice) | the parsed response's product is recorded, so the next push updates it | medium, since `findCorrespondingID` is not part of this model; not executed | `Upsert.UnparsedResponseRepostsListing` | `Upsert.RepeatPushUpdates` |

## Left out

- HTTP calls, Redis commands, XML building and parsing, and `JSON.parse`/`JSON.stringify` are not modelled. Their results are inputs, and a request body is taken as already serialised.
- The time window of the `GetSellerListRequest` body depends on the clock and is not modelled. Neither are CSV export, progress reporting, console logging, or the HTML description template.
- Promise fan-out and fan-in are not modelled: each page, chunk and listing is an independent sequential step.
- `process.exit(1)` is modelled only as the `Exit` outcome of a chunk fetch.
- The thin wrappers `getAlleBayProducts`, `getActiveEbaySellings`, `getShopifyProducts`, `postShopifyProduct` and `requestAll` are not modelled. Neither is the token-expired path of `getAlleBayProducts`.
- `getNumberofActiveEbayListings` is not modelled: the listing count it parses from XML is the `number` input of `PlanEbayIdPages`.
- A failed eBay id page is logged and leaves an `undefined` element in the flattened id list. The model does not capture this.
- `SaveListing` and `SavePage` assume every `set` and `zadd` succeeds. A failed write is not modelled: on Shopify it rejects the page's promise, possibly after one of the two writes was done (models/products.js:223-231); on eBay the listing comes back as `<id> bad` (models/products.js:436-438).
- `CatalogIndex.SavePageStoresLastRecord`: the page's writes run concurrently in the source. The model saves in page order, so when two listings of a page share a key, which record wins is not promised by the source.
- The store's lexicographic order of index members (byte order of UTF-8) is taken as JavaScript string order. The two differ only for characters beyond U+FFFF against U+E000 to U+FFFF.
- `CatalogIndex.EscapedIndexIsTitleOrdered`: `escapeTitle` is not part of this model. The condition that every escaped character sorts above `:` stands for an order-preserving escaping; which escaping the code uses is not known.
- The Shopify page URL and the `GetMultipleItems` query string (ids joined by commas) are not modelled. Only the page numbers and chunks are.
- `FetchPlan.ShopifyPlanCoversCatalog`: the count is a natural number. A negative or non-numeric `count` is not modelled.
- `Upsert.FindCorresponding`: `findCorrespondingID` is not part of this model. It is read as a lookup of the forward mapping key, which is what `RepeatPushUpdates` relies on.
- `Upsert.RecordMapping`: the Shopify response's `product` is an input. As written the client resolves with the body text unparsed, so `response.product` is undefined and no mapping is ever written (see Findings); `RecordMapping` models what happens once a product is read from the response.
- `ShopifyClient` never binds `get`/`post`/`put`, so the calls through them fail. `_request(method)` is modelled directly as `ShopifyClient.Request`.
- `Client.EbayClient.constructor`: a mode string other than `'REST'` or `'SOAP'` leaves the client without request functions. This is not modelled.
- The numeric SOAP header values 0 and 967 are held as strings.
- `KeyScan.GetAllProductKeys`: the store's replies are a finite sequence. When it runs out before cursor `'0'`, the outcome is `Pending` (the promise never settles in the model).
