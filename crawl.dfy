/**
 * A whole crawl as the Scrapy engine drives it, with one request in flight
 * at a time: `start_requests`, then `parse` (or the errback) for each
 * response in turn, then `closed`.
 *
 * The site is given as the responses to pages 1, 2, …; past the given ones
 * it answers with an empty listing.
 */
module Crawl {
  import opened Wrappers
  import opened Records
  import opened Spider

  /** The outcome of a request: a response, or a failure that reaches the errback. */
  datatype Fetch = Fetched(page: Page) | FetchFailed(reason: string)

  function Respond(site: seq<Fetch>, n: nat): Fetch {
    if 1 <= n <= |site| then site[n - 1] else Fetched(Listing([]))
  }

  /** The response is a listing with at least one entry: `parse` asks for the next page. */
  predicate Continues(f: Fetch) {
    f.Fetched? && f.page.Listing? && f.page.entries != []
  }

  function EntriesOf(f: Fetch): seq<Entry> {
    if f.Fetched? && f.page.Listing? then f.page.entries else []
  }

  /** The first page from `n` on whose response does not continue the crawl. */
  function FirstStop(site: seq<Fetch>, n: nat): (k: nat)
    requires n >= 1
    ensures k >= n && !Continues(Respond(site, k))
    ensures forall m :: n <= m < k ==> Continues(Respond(site, m))
    decreases |site| + 1 - n
  {
    if n <= |site| && Continues(site[n - 1]) then FirstStop(site, n + 1) else n
  }

  /** The requests for pages 1..k: the start URL, then one page URL per page. */
  function Requested(k: nat): (rs: seq<Request>)
    requires k >= 1
    ensures |rs| == k && rs[0] == Request(StartUrl, 1)
    ensures forall i :: 0 <= i < k ==> rs[i].page == i + 1
    ensures forall i :: 1 <= i < k ==> rs[i].url == PageUrl(i + 1)
  {
    if k == 1 then [Request(StartUrl, 1)] else Requested(k - 1) + [Request(PageUrl(k), k)]
  }

  /** The items of pages 1..k-1, page by page. */
  function CrawledItems(sourceId: Option<nat>, runId: Option<nat>, site: seq<Fetch>, k: nat): seq<Item> {
    if k <= 1 then []
    else CrawledItems(sourceId, runId, site, k - 1) + PageItems(sourceId, runId, k - 1, EntriesOf(Respond(site, k - 1)))
  }

  /** The number of entries on pages 1..k-1. */
  function EntryCount(site: seq<Fetch>, k: nat): nat {
    if k <= 1 then 0 else EntryCount(site, k - 1) + |EntriesOf(Respond(site, k - 1))|
  }

  /** One item per entry. */
  lemma {:induction false} CrawledItemsCount(sourceId: Option<nat>, runId: Option<nat>, site: seq<Fetch>, k: nat)
    ensures |CrawledItems(sourceId, runId, site, k)| == EntryCount(site, k)
  {
    if k > 1 {
      CrawledItemsCount(sourceId, runId, site, k - 1);
    }
  }

  /** A page that continues the crawl adds its items; one that stops it adds none. */
  lemma CrawledItemsStep(sourceId: Option<nat>, runId: Option<nat>, site: seq<Fetch>, n: nat)
    requires n >= 1
    ensures var pageItems := PageItems(sourceId, runId, n, EntriesOf(Respond(site, n)));
      && CrawledItems(sourceId, runId, site, n + 1) == CrawledItems(sourceId, runId, site, n) + pageItems
      && (!Continues(Respond(site, n)) ==> pageItems == [])
  {
  }

  /** The error the last response leaves in the run record, if any. */
  function StopError(f: Fetch, t: Timestamp): Option<seq<ErrorRec>> {
    match f
    case FetchFailed(reason) => Some([ErrorRec(t, reason)])
    case Fetched(Unreadable(message)) => Some([ErrorRec(t, message)])
    case Fetched(Listing(_)) => None
  }

  /** The errors a response adds to the run record: the failure's or the parse error's, if any. */
  function ErrorsAfter(errors: Option<seq<ErrorRec>>, f: Fetch, t: Timestamp): Option<seq<ErrorRec>> {
    match StopError(f, t)
    case None => errors
    case Some(added) => Some(ErrorsOf(errors) + added)
  }

  /** On a run without errors, the response's error is the only one; a continuing page adds none. */
  lemma ErrorsAfterNone(f: Fetch, t: Timestamp)
    ensures ErrorsAfter(None, f, t) == StopError(f, t)
    ensures Continues(f) ==> StopError(f, t) == None
  {
    match StopError(f, t)
    case None =>
    case Some(added) => assert ErrorsOf(None) + added == added;
  }

  /** One response handed to the spider: to `parse`, or to the errback when the request failed. */
  method Visit(spider: VetSpider, f: Fetch, now: Timestamp) returns (pageItems: seq<Item>, next: Option<Request>)
    modifies spider, spider.run
    ensures spider.run == old(spider.run) && spider.sourceId == old(spider.sourceId) && spider.runId == old(spider.runId)
    ensures pageItems == PageItems(spider.sourceId, spider.runId, old(spider.currentPage), EntriesOf(f))
    ensures spider.itemsProcessed == old(spider.itemsProcessed) + |EntriesOf(f)|
    ensures Continues(f) ==> spider.currentPage == old(spider.currentPage) + 1
    ensures Continues(f) ==> next == Some(Request(PageUrl(spider.currentPage), spider.currentPage))
    ensures !Continues(f) ==> spider.currentPage == old(spider.currentPage) && next == None
    ensures spider.run != null ==> spider.run.errors == ErrorsAfter(old(spider.run.errors), f, now)
    ensures spider.run != null ==> spider.run.status == old(spider.run.status) && spider.run.endTime == old(spider.run.endTime)
    ensures spider.run != null ==> spider.run.itemsProcessed == if f.Fetched? && f.page.Listing? then spider.itemsProcessed else old(spider.run.itemsProcessed)
  {
    match f
    case FetchFailed(reason) =>
      spider.ErrbackHttpbin(reason, now);
      pageItems, next := [], None;
    case Fetched(page) =>
      pageItems, next := spider.Parse(page, now);
  }

  /**
   * The engine's loop, from the request for page 1, with `k` the first page
   * whose response is not a listing with entries: pages 1..k are requested
   * and no other, the items are those of pages 1..k-1, every entry counted,
   * and the run is left with the error page k caused, if it did.
   */
  method Drive(spider: VetSpider, site: seq<Fetch>, start: Request, ghost source: nat, ghost runId: nat, errorTime: Timestamp)
    returns (requested: seq<Request>, items: seq<Item>)
    requires spider.run != null && spider.sourceId == Some(source) && spider.runId == Some(runId)
    requires spider.currentPage == 1 && spider.itemsProcessed == 0 && start == Request(StartUrl, 1)
    requires spider.run.status == Running && spider.run.endTime == None && spider.run.errors == None
    requires spider.run.itemsProcessed == 0
    modifies spider, spider.run
    ensures spider.run == old(spider.run) && spider.sourceId == old(spider.sourceId) && spider.runId == old(spider.runId)
    ensures var k := FirstStop(site, 1);
      && requested == Requested(k)
      && items == CrawledItems(Some(source), Some(runId), site, k)
      && spider.itemsProcessed == |items| && spider.currentPage == k
      && spider.run.itemsProcessed == |items|
      && spider.run.status == Running && spider.run.endTime == None
      && spider.run.errors == StopError(Respond(site, k), errorTime)
  {
    requested, items := [start], [];
    var pending: Option<Request> := Some(start);
    ghost var k := FirstStop(site, 1);
    while pending.Some?
      invariant spider.run == old(spider.run) && spider.sourceId == Some(source) && spider.runId == Some(runId)
      invariant 1 <= spider.currentPage <= k
      invariant pending.Some? ==> pending.value.page == spider.currentPage
      invariant pending.None? ==> spider.currentPage == k
      invariant requested == Requested(spider.currentPage)
      invariant items == CrawledItems(Some(source), Some(runId), site, spider.currentPage)
      invariant spider.itemsProcessed == |items| && spider.run.itemsProcessed == spider.itemsProcessed
      invariant spider.run.status == Running && spider.run.endTime == None
      invariant spider.run.errors == if pending.Some? then None else StopError(Respond(site, k), errorTime)
      decreases k - spider.currentPage, if pending.Some? then 1 else 0
    {
      var n := pending.value.page;
      var f := Respond(site, n);
      assert Continues(f) <==> n < k;
      ErrorsAfterNone(f, errorTime);
      CrawledItemsStep(Some(source), Some(runId), site, n);
      var pageItems, next := Visit(spider, f, errorTime);
      items := items + pageItems;
      if next.Some? {
        assert Continues(f) && spider.currentPage == n + 1;
        requested := requested + [next.value];
      } else {
        assert !Continues(f) && spider.currentPage == n == k;
      }
      pending := next;
    }
  }

  /**
   * A whole crawl from a new spider, with `k` as for `Drive`: pages 1..k
   * are requested, the items are those of pages 1..k-1, and the run ends
   * completed, with the final count and with the error page k caused, if it did.
   */
  method Crawl(source: nat, runId: nat, site: seq<Fetch>, startTime: Timestamp, errorTime: Timestamp, endTime: Timestamp)
    returns (spider: VetSpider, requested: seq<Request>, items: seq<Item>)
    ensures var k := FirstStop(site, 1);
      && requested == Requested(k)
      && items == CrawledItems(Some(source), Some(runId), site, k)
      && spider.itemsProcessed == |items| && spider.currentPage == k
      && spider.sourceId == Some(source) && spider.runId == Some(runId)
      && spider.run != null && spider.run.id == runId && spider.run.sourceId == source && spider.run.startTime == startTime
      && spider.run.status == Completed && spider.run.endTime == Some(endTime)
      && spider.run.itemsProcessed == |items|
      && spider.run.errors == StopError(Respond(site, k), errorTime)
  {
    spider := new VetSpider();
    var start := spider.StartRequests(source, runId, startTime);
    requested, items := Drive(spider, site, start, source, runId, errorTime);
    spider.Closed("finished", endTime);
  }
}
