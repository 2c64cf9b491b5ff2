/**
 * `VetSpider`: it walks the listing pages of the veterinary directory one at
 * a time, turns every entry into an item, keeps a count of entries, and
 * reports progress, errors and completion to its `scraping_runs` record.
 *
 * A page is given as the sequence of its entries (`div.hit`), each with the
 * texts its selectors pick; a response that cannot be read as a listing
 * raises inside `parse`, and a request that fails reaches the errback.
 */
module Spider {
  import opened Wrappers
  import opened Json
  import opened Text
  import opened Records
  import opened AddressSplit
  import Decimal

  const StartUrl: string := "https://www.dasoertliche.de/Themen/Tierarzt.html"

  /** The URL of listing page `n`, as `parse` formats it. */
  function PageUrl(n: nat): string {
    "https://www.dasoertliche.de/Themen/Tierarzt-Seite-" + Decimal.Digits(n) + ".html"
  }

  /** Distinct pages are requested at distinct URLs. */
  lemma PageUrlInjective(m: nat, n: nat)
    ensures PageUrl(m) == PageUrl(n) <==> m == n
  {
    var prefix := "https://www.dasoertliche.de/Themen/Tierarzt-Seite-";
    if PageUrl(m) == PageUrl(n) {
      var u := PageUrl(m);
      assert Decimal.Digits(m) == u[|prefix|..|u| - 5];
      assert Decimal.Digits(n) == PageUrl(n)[|prefix|..|PageUrl(n)| - 5];
      Decimal.DigitsInjective(m, n);
    }
  }

  /** What the selectors of one `div.hit` give; `None` where `.get()` finds nothing. */
  datatype Entry = Entry(
    href: Option<string>,
    name: Option<string>,
    subtitle: Option<string>,
    category: Option<string>,
    addressTexts: seq<string>,
    phone: Option<string>,
    openingHours: Option<string>,
    html: string)

  /** A response: a listing of entries, or one `parse` cannot read, with the exception's message. */
  datatype Page = Listing(entries: seq<Entry>) | Unreadable(message: string)

  /** A request with its `meta['page']`. */
  datatype Request = Request(url: string, page: nat)

  /** The `raw_content` dict, given the texts that go into it. */
  function Content(name: string, subtitle: string, category: string, street: string, city: string,
                   phone: string, hours: string, page: nat, html: string): Json {
    JObj([
      Member("name", JStr(name)),
      Member("subtitle", JStr(subtitle)),
      Member("category", JStr(category)),
      Member("address", JObj([
        Member("street", JStr(street)),
        Member("city", JStr(city))])),
      Member("phone", JStr(phone)),
      Member("opening_hours", JStr(hours)),
      Member("page_number", JInt(page)),
      Member("html", JStr(html))])
  }

  /** The `raw_content` dict built for an entry found on page `page`. */
  function RawContent(e: Entry, page: nat): Json {
    Content(CleanText(e.name), CleanText(e.subtitle), CleanText(e.category),
      Street(e.addressTexts), City(e.addressTexts),
      CleanText(e.phone), CleanText(e.openingHours), page, e.html)
  }

  /** The `raw_content` dict has distinct keys at every level. */
  lemma ContentWellFormed(name: string, subtitle: string, category: string, street: string, city: string,
                          phone: string, hours: string, page: nat, html: string)
    ensures WellFormed(Content(name, subtitle, category, street, city, phone, hours, page, html))
  {
    var ms := Content(name, subtitle, category, street, city, phone, hours, page, html).members;
    assert forall i, j :: 0 <= i < j < |ms| ==> ms[i].key != ms[j].key;
  }

  lemma RawContentWellFormed(e: Entry, page: nat)
    ensures WellFormed(RawContent(e, page))
  {
    ContentWellFormed(CleanText(e.name), CleanText(e.subtitle), CleanText(e.category),
      Street(e.addressTexts), City(e.addressTexts),
      CleanText(e.phone), CleanText(e.openingHours), page, e.html);
  }

  function BuildItem(sourceId: Option<nat>, runId: Option<nat>, page: nat, e: Entry): Item {
    Item(sourceId, runId, e.href, RawContent(e, page))
  }

  /** The items yielded for a page's entries, in entry order. */
  function PageItems(sourceId: Option<nat>, runId: Option<nat>, page: nat, entries: seq<Entry>): (items: seq<Item>)
    ensures |items| == |entries|
    ensures forall i :: 0 <= i < |entries| ==> items[i] == BuildItem(sourceId, runId, page, entries[i])
  {
    seq(|entries|, i requires 0 <= i < |entries| => BuildItem(sourceId, runId, page, entries[i]))
  }

  /** Yielding one more entry's item extends the page's items by that item. */
  lemma PageItemsSnoc(sourceId: Option<nat>, runId: Option<nat>, page: nat, entries: seq<Entry>, i: nat)
    requires i < |entries|
    ensures PageItems(sourceId, runId, page, entries[..i + 1])
      == PageItems(sourceId, runId, page, entries[..i]) + [BuildItem(sourceId, runId, page, entries[i])]
  {
    assert entries[..i + 1] == entries[..i] + [entries[i]];
  }

  /** Every item of a page carries the spider's ids, the entry's link and the page number. */
  lemma PageItemsTagged(sourceId: Option<nat>, runId: Option<nat>, page: nat, entries: seq<Entry>, i: nat)
    requires i < |entries|
    ensures var it := PageItems(sourceId, runId, page, entries)[i];
      && it.sourceId == sourceId && it.runId == runId && it.url == entries[i].href
      && Get(it.rawContent.members, "page_number") == Some(JInt(page))
  {
    assert PageItems(sourceId, runId, page, entries)[i].rawContent == RawContent(entries[i], page);
    RawContentWellFormed(entries[i], page);
    GetMember(RawContent(entries[i], page).members, 6);
  }

  datatype RunStatus = Running | Completed

  /** `datetime.utcnow()`, supplied by the caller. */
  type Timestamp = string

  /** One entry of `scraping_runs.errors`. */
  datatype ErrorRec = ErrorRec(timestamp: Timestamp, error: string)

  /** The list `record_error` appends to: an absent or empty list counts as `[]`. */
  function ErrorsOf(errors: Option<seq<ErrorRec>>): seq<ErrorRec> {
    match errors
    case None => []
    case Some(es) => es
  }

  /**
   * The `errors` column the database keeps after `record_error`, as the
   * code is written. The column is a plain JSONB value, so the ORM records
   * a change only when the attribute is assigned: an absent or empty list
   * is replaced by a new one and written back with the entry, while an
   * `append` onto a list loaded with entries in it changes nothing on disk.
   */
  function PersistedErrorsAsWritten(loaded: Option<seq<ErrorRec>>, rec: ErrorRec): (r: Option<seq<ErrorRec>>)
    ensures r.Some? && r.value != [] && r.value <= ErrorsOf(loaded) + [rec]
  {
    if loaded == None || loaded == Some([]) then Some([rec]) else loaded
  }

  /**
   * As written, the stored list is the intended append `ErrorsOf(loaded) + [rec]`
   * exactly when no entry was stored before; otherwise the new entry is lost.
   */
  lemma AsWrittenAgreesExactlyWhenEmpty(loaded: Option<seq<ErrorRec>>, rec: ErrorRec)
    ensures PersistedErrorsAsWritten(loaded, rec) == Some(ErrorsOf(loaded) + [rec]) <==> ErrorsOf(loaded) == []
    ensures ErrorsOf(loaded) != [] ==> PersistedErrorsAsWritten(loaded, rec) == Some(ErrorsOf(loaded))
  {
    if ErrorsOf(loaded) == [] {
      assert ErrorsOf(loaded) + [rec] == [rec];
    } else {
      assert |ErrorsOf(loaded) + [rec]| == |ErrorsOf(loaded)| + 1;
    }
  }

  /** As written, a second error is lost: the stored list keeps only the first. */
  lemma SecondErrorLostAsWritten(first: ErrorRec, second: ErrorRec)
    ensures PersistedErrorsAsWritten(Some([first]), second) == Some([first])
    ensures PersistedErrorsAsWritten(Some([first]), second) != Some(ErrorsOf(Some([first])) + [second])
  {
    assert |ErrorsOf(Some([first])) + [second]| == 2;
  }

  /** A `scraping_runs` record. */
  class ScrapingRun {
    const id: nat
    const sourceId: nat
    const startTime: Timestamp
    var endTime: Option<Timestamp>
    var status: RunStatus
    var itemsProcessed: nat
    var errors: Option<seq<ErrorRec>>

    constructor (id: nat, sourceId: nat, startTime: Timestamp)
      ensures this.id == id && this.sourceId == sourceId && this.startTime == startTime
      ensures endTime == None && status == Running && itemsProcessed == 0 && errors == None
    {
      this.id := id;
      this.sourceId := sourceId;
      this.startTime := startTime;
      endTime := None;
      status := Running;
      itemsProcessed := 0;
      errors := None;
    }
  }

  class VetSpider {
    var itemsProcessed: nat
    var currentPage: nat
    var sourceId: Option<nat>
    var runId: Option<nat>
    /** The record `run_id` designates, or null when there is none. */
    var run: ScrapingRun?

    constructor ()
      ensures itemsProcessed == 0 && currentPage == 1
      ensures sourceId == None && runId == None && run == null
    {
      itemsProcessed := 0;
      currentPage := 1;
      sourceId := None;
      runId := None;
      run := null;
    }

    /**
     * `start_requests`: opens a `running` run record for the data source
     * and issues the request for page 1 at the start URL. The database
     * chooses the source's and the run's ids.
     */
    method StartRequests(source: nat, newRunId: nat, now: Timestamp) returns (req: Request)
      modifies this
      ensures sourceId == Some(source) && runId == Some(newRunId)
      ensures fresh(run) && run.id == newRunId && run.sourceId == source && run.startTime == now
      ensures run.status == Running && run.endTime == None && run.itemsProcessed == 0 && run.errors == None
      ensures itemsProcessed == old(itemsProcessed) && currentPage == old(currentPage)
      ensures req == Request(StartUrl, 1)
    {
      sourceId := Some(source);
      run := new ScrapingRun(newRunId, source, now);
      runId := Some(newRunId);
      req := Request(StartUrl, 1);
    }

    /** `update_run_stats`: the record's count is overwritten with the spider's. */
    method UpdateRunStats()
      modifies run
      ensures run != null ==> run.itemsProcessed == itemsProcessed
      ensures run != null ==> run.status == old(run.status) && run.endTime == old(run.endTime) && run.errors == old(run.errors)
    {
      if run != null {
        run.itemsProcessed := itemsProcessed;
      }
    }

    /** `record_error`: exactly one `{timestamp, error}` entry is appended; earlier ones stay. */
    method RecordError(message: string, now: Timestamp)
      modifies run
      ensures run != null ==> run.errors == Some(ErrorsOf(old(run.errors)) + [ErrorRec(now, message)])
      ensures run != null ==> run.status == old(run.status) && run.endTime == old(run.endTime) && run.itemsProcessed == old(run.itemsProcessed)
    {
      if run != null {
        var errors := if run.errors == None || run.errors == Some([]) then [] else run.errors.value;
        errors := errors + [ErrorRec(now, message)];
        run.errors := Some(errors);
      }
    }

    /** `errback_httpbin`: a failed request records its failure. */
    method ErrbackHttpbin(failure: string, now: Timestamp)
      modifies run
      ensures run != null ==> run.errors == Some(ErrorsOf(old(run.errors)) + [ErrorRec(now, failure)])
      ensures run != null ==> run.status == old(run.status) && run.endTime == old(run.endTime) && run.itemsProcessed == old(run.itemsProcessed)
    {
      RecordError(failure, now);
    }

    /** `closed`: whatever the reason, the run is completed, stamped and given the final count. */
    method Closed(reason: string, now: Timestamp)
      modifies run
      ensures run != null ==> run.status == Completed && run.endTime == Some(now) && run.itemsProcessed == itemsProcessed
      ensures run != null ==> run.errors == old(run.errors)
    {
      if run != null {
        run.status := Completed;
        run.endTime := Some(now);
        run.itemsProcessed := itemsProcessed;
      }
    }

    /**
     * `parse`: one item per entry, in order, each counted; then the run's
     * count is updated and, if the page had entries, the next page is
     * requested. A response that cannot be read records its error instead.
     */
    method Parse(response: Page, now: Timestamp) returns (items: seq<Item>, next: Option<Request>)
      modifies this, run
      ensures run == old(run) && sourceId == old(sourceId) && runId == old(runId)
      ensures response.Listing? ==>
        var entries := response.entries;
        && items == PageItems(sourceId, runId, old(currentPage), entries)
        && itemsProcessed == old(itemsProcessed) + |entries|
        && (entries != [] ==> currentPage == old(currentPage) + 1 && next == Some(Request(PageUrl(currentPage), currentPage)))
        && (entries == [] ==> currentPage == old(currentPage) && next == None)
        && (run != null ==> run.itemsProcessed == itemsProcessed && run.errors == old(run.errors))
      ensures response.Unreadable? ==>
        && items == [] && next == None
        && itemsProcessed == old(itemsProcessed) && currentPage == old(currentPage)
        && (run != null ==> run.errors == Some(ErrorsOf(old(run.errors)) + [ErrorRec(now, response.message)]))
        && (run != null ==> run.itemsProcessed == old(run.itemsProcessed))
      ensures run != null ==> run.status == old(run.status) && run.endTime == old(run.endTime)
    {
      match response
      case Unreadable(message) =>
        RecordError(message, now);
        items, next := [], None;
      case Listing(entries) =>
        items := [];
        var i := 0;
        while i < |entries|
          invariant 0 <= i <= |entries|
          invariant itemsProcessed == old(itemsProcessed) + i
          invariant items == PageItems(sourceId, runId, currentPage, entries[..i])
          invariant currentPage == old(currentPage) && run == old(run)
          invariant sourceId == old(sourceId) && runId == old(runId)
          invariant run != null ==> unchanged(run)
        {
          itemsProcessed := itemsProcessed + 1;
          PageItemsSnoc(sourceId, runId, currentPage, entries, i);
          items := items + [BuildItem(sourceId, runId, currentPage, entries[i])];
          i := i + 1;
        }
        assert entries[..i] == entries;
        UpdateRunStats();
        if entries != [] {
          var nextPage := currentPage + 1;
          currentPage := nextPage;
          next := Some(Request(PageUrl(nextPage), nextPage));
        } else {
          next := None;
        }
    }
  }
}
