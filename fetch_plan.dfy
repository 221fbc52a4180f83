/**
 * The fetch planning of the bulk pipelines: the Shopify page list of
 * `requestAllShopifyProducts`, the eBay id pages of `getAllEbayItemsIds`,
 * the id chunks of `getAllActiveEbaySellings`, and what a chunk fetch does
 * when its request is rejected.
 */
module FetchPlan {
  import opened Wrappers
  import opened Http

  /** `epp_shopify`: products per Shopify page. */
  const ShopifyPageSize: nat := 250
  /** `epp_default`: item ids per eBay page when every page is fetched. */
  const EbayPageSize: nat := 200
  /** Item ids per page, and pages, in sample mode. */
  const SamplePageSize: nat := 10
  const SamplePages: nat := 3
  /** Item ids per `GetMultipleItems` call. */
  const ChunkSize: nat := 20

  const CountUnavailable := "can't get the count of all shopify products"

  /** `Math.ceil(total / size)`: the fewest pages of `size` that hold `total` entries. */
  function PageCount(total: nat, size: nat): (np: nat)
    requires size > 0
    ensures np * size >= total
    ensures np == 0 || (np - 1) * size < total
    decreases total
  {
    if total == 0 then 0
    else if total <= size then 1
    else
      var rest := PageCount(total - size, size);
      assert (rest + 1) * size == rest * size + size;
      assert rest * size == (rest - 1) * size + size;
      rest + 1
  }

  /** `Array.from(new Array(np), (val, index) => index + 1)`. */
  function PageNumbers(np: nat): (pages: seq<nat>)
    ensures |pages| == np
    ensures forall k :: 0 <= k < np ==> pages[k] == k + 1
  {
    seq(np, k => k + 1)
  }

  /**
   * The pages `requestAllShopifyProducts` requests for the parsed count
   * reply (`None` when the reply has no usable `count`).
   */
  function ShopifyPagePlan(count: Option<nat>, all: bool): (r: Result<seq<nat>, string>)
    ensures r.Err? <==> count.None?
    ensures count.None? ==> r.error == CountUnavailable
    ensures count.Some? && !all ==> r.value == [1]
    ensures count.Some? && all ==> |r.value| == PageCount(count.value, ShopifyPageSize)
  {
    if count.Some? then
      Ok(if all then PageNumbers(PageCount(count.value, ShopifyPageSize)) else [1])
    else
      Err(CountUnavailable)
  }

  /**
   * With `all` the pages are 1..np, every product's page is among them and
   * no page lies past the catalog.
   */
  lemma ShopifyPlanCoversCatalog(count: Option<nat>, all: bool)
    ensures count.Some? && all ==>
      var pages := ShopifyPagePlan(count, all).value;
      (forall k :: 0 <= k < |pages| ==> pages[k] == k + 1) &&
      (forall p :: 0 <= p < count.value ==> p / ShopifyPageSize + 1 in pages) &&
      (forall n :: n in pages ==> 1 <= n && (n - 1) * ShopifyPageSize < count.value)
  {
    if count.Some? && all {
      var pages := ShopifyPagePlan(count, all).value;
      var np := PageCount(count.value, ShopifyPageSize);
      forall p | 0 <= p < count.value ensures p / ShopifyPageSize + 1 in pages {
        assert p / ShopifyPageSize < np;
        assert pages[p / ShopifyPageSize] == p / ShopifyPageSize + 1;
      }
      forall n | n in pages ensures 1 <= n && (n - 1) * ShopifyPageSize < count.value {
        var k :| 0 <= k < |pages| && pages[k] == n;
        assert (n - 1) * ShopifyPageSize <= (np - 1) * ShopifyPageSize;
      }
    }
  }

  /** The `Pagination` element of one `GetMyeBaySellingRequest`. */
  datatype PageRequest = PageRequest(entriesPerPage: nat, pageNumber: nat)

  /**
   * The loop of `getAllEbayItemsIds` that builds one request per id page:
   * 200 ids a page over every page in `all` mode, 10 ids a page over three
   * pages otherwise.
   */
  method PlanEbayIdPages(all: bool, number: nat) returns (requests: seq<PageRequest>)
    ensures all ==> |requests| == PageCount(number, EbayPageSize)
    ensures !all ==> |requests| == SamplePages
    ensures forall k :: 0 <= k < |requests| ==>
      requests[k] == PageRequest(if all then EbayPageSize else SamplePageSize, k + 1)
    ensures all ==> |requests| * EbayPageSize >= number
    ensures all ==> forall k :: 0 <= k < |requests| ==> k * EbayPageSize < number
  {
    var epp := if all then EbayPageSize else SamplePageSize;
    var np := if all then PageCount(number, epp) else SamplePages;
    requests := [];
    var i := 1;
    while i <= np
      invariant 1 <= i <= np + 1
      invariant |requests| == i - 1
      invariant forall k :: 0 <= k < |requests| ==> requests[k] == PageRequest(epp, k + 1)
    {
      requests := requests + [PageRequest(epp, i)];
      i := i + 1;
    }
    if all {
      forall k | 0 <= k < |requests| ensures k * EbayPageSize < number {
        assert k * EbayPageSize <= (np - 1) * EbayPageSize;
      }
    }
  }

  /** The eBay pipeline with 530 active listings requests 3 id pages. */
  lemma FiveHundredThirtyListingsTakeThreePages()
    ensures PageCount(530, EbayPageSize) == 3
  {
  }

  /** The concatenation of a list of lists (`_.flatten`). */
  function Flatten<T>(xss: seq<seq<T>>): seq<T>
  {
    if xss == [] then [] else xss[0] + Flatten(xss[1..])
  }

  /**
   * `_.chunk(xs, size)`: consecutive pieces of `size` elements, the last
   * one possibly shorter, none empty, which together give back `xs`.
   */
  function Chunks<T>(xs: seq<T>, size: nat): (r: seq<seq<T>>)
    requires size > 0
    ensures Flatten(r) == xs
    ensures forall k :: 0 <= k < |r| ==> 0 < |r[k]| <= size
    ensures forall k :: 0 <= k < |r| - 1 ==> |r[k]| == size
    decreases |xs|
  {
    if xs == [] then []
    else if |xs| <= size then [xs]
    else [xs[..size]] + Chunks(xs[size..], size)
  }

  /** There are `ceil(|xs| / size)` chunks. */
  lemma {:induction false} ChunkCount<T>(xs: seq<T>, size: nat)
    requires size > 0
    ensures |Chunks(xs, size)| == PageCount(|xs|, size)
    decreases |xs|
  {
    if |xs| > size {
      ChunkCount(xs[size..], size);
    }
  }

  /** The id chunks of `getAllActiveEbaySellings`. */
  function ItemIdChunks(ids: seq<string>): (chunks: seq<seq<string>>)
    ensures Flatten(chunks) == ids
    ensures |chunks| == PageCount(|ids|, ChunkSize)
    ensures forall k :: 0 <= k < |chunks| ==> 0 < |chunks[k]| <= ChunkSize
  {
    ChunkCount(ids, ChunkSize);
    Chunks(ids, ChunkSize)
  }

  /**
   * How one chunk fetch ends: with the response body, or with
   * `process.exit(1)`.
   */
  datatype ChunkOutcome = Fetched(body: string) | Exit

  /**
   * The chunk fetch as written: on a rejection it repeats the identical
   * request only when `err.statusCode == 400`, and exits otherwise; a
   * failed repeat exits too.
   */
  function FetchChunkAsWritten(first: Result<string, Thrown>, retry: Result<string, Thrown>): (r: ChunkOutcome)
    ensures r.Fetched? <==> first.Ok? || (StatusCodeOf(first.error) == Some(400) && retry.Ok?)
    ensures first.Ok? ==> r == Fetched(first.value)
    ensures first.Err? && retry.Ok? && r.Fetched? ==> r == Fetched(retry.value)
  {
    match first
    case Ok(body) => Fetched(body)
    case Err(err) =>
      if StatusCodeOf(err) == Some(400) then
        (match retry case Ok(body) => Fetched(body) case Err(_) => Exit)
      else Exit
  }

  /**
   * Fed by the eBay REST client, whose rejections carry no status code, the
   * chunk fetch as written succeeds exactly when the first request got a
   * 2xx reply: the repeat on 400 is never made.
   */
  lemma RetryOnBadRequestNeverTaken(first: Transport, retry: Transport)
    ensures FetchChunkAsWritten(EbayOutcome(first), EbayOutcome(retry)).Fetched?
      <==> first.Reply? && IsSuccess(first.status)
    ensures FetchChunkAsWritten(EbayOutcome(first), EbayOutcome(retry)).Fetched? ==>
      FetchChunkAsWritten(EbayOutcome(first), EbayOutcome(retry)).body == first.body
  {
    if EbayOutcome(first).Err? {
      EbayRejectionHasNoStatusCode(first);
    }
  }

  /**
   * The chunk fetch as evidently intended: a reply with status 400 is
   * answered by one identical request, whose outcome then stands.
   */
  function FetchChunk(first: Transport, retry: Transport): (r: ChunkOutcome)
    ensures r.Fetched? <==>
      (first.Reply? && IsSuccess(first.status)) ||
      (first.Reply? && first.status == 400 && retry.Reply? && IsSuccess(retry.status))
    ensures first.Reply? && IsSuccess(first.status) ==> r == Fetched(first.body)
    ensures first.Reply? && first.status == 400 && retry.Reply? && IsSuccess(retry.status) ==>
      r == Fetched(retry.body)
  {
    var settle := (t: Transport) => if t.Reply? && IsSuccess(t.status) then Fetched(t.body) else Exit;
    if first.Reply? && first.status == 400 then settle(retry) else settle(first)
  }

  /**
   * A single 400 followed by success ends as if the first request had
   * succeeded, whereas the fetch as written exits.
   */
  lemma TransientFailureMasked(badBody: string, first: Transport, retry: Transport)
    requires first.Reply? && IsSuccess(first.status)
    ensures FetchChunk(Reply(400, badBody), first) == FetchChunk(first, retry)
    ensures FetchChunkAsWritten(EbayOutcome(Reply(400, badBody)), EbayOutcome(first)) == Exit
  {
    RetryOnBadRequestNeverTaken(Reply(400, badBody), first);
  }
}
