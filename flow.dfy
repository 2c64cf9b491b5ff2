/**
 * The spider's items as the pipeline sees them: their content is always a
 * dict the mapping accepts, the cleaned row holds the normalised texts and
 * the split address, and an entry seen twice is stored once although the
 * spider counts it twice.
 */
module Flow {
  import opened Wrappers
  import opened Json
  import opened Text
  import opened Records
  import opened AddressSplit
  import opened Spider
  import opened Pipeline

  /** The first fields of the spider's dict, as `get` finds them. */
  lemma ContentLeadingFields(name: string, subtitle: string, category: string, street: string, city: string, phone: string, hours: string, page: nat, html: string)
    ensures var ms := Content(name, subtitle, category, street, city, phone, hours, page, html).members;
      && GetOr(ms, "address", JObj([])) == JObj([Member("street", JStr(street)), Member("city", JStr(city))])
      && GetOr(ms, "name", JStr("")) == JStr(name)
      && GetOr(ms, "subtitle", JStr("")) == JStr(subtitle)
      && GetOr(ms, "category", JStr("")) == JStr(category)
  {
    var ms := Content(name, subtitle, category, street, city, phone, hours, page, html).members;
    assert DistinctKeys(ms) by { ContentWellFormed(name, subtitle, category, street, city, phone, hours, page, html); }
    GetMember(ms, 3);
    GetMember(ms, 0);
    GetMember(ms, 1);
    GetMember(ms, 2);
  }

  /** The remaining fields of the spider's dict, as `get` finds them. */
  lemma ContentTrailingFields(name: string, subtitle: string, category: string, street: string, city: string, phone: string, hours: string, page: nat, html: string)
    ensures var ms := Content(name, subtitle, category, street, city, phone, hours, page, html).members;
      && GetOr(ms, "phone", JStr("")) == JStr(phone)
      && GetOr(ms, "opening_hours", JStr("")) == JStr(hours)
      && GetOr(ms, "page_number", JNull) == JInt(page)
      && GetOr(ms, "html", JStr("")) == JStr(html)
  {
    var ms := Content(name, subtitle, category, street, city, phone, hours, page, html).members;
    assert DistinctKeys(ms) by { ContentWellFormed(name, subtitle, category, street, city, phone, hours, page, html); }
    GetMember(ms, 4);
    GetMember(ms, 5);
    GetMember(ms, 6);
    GetMember(ms, 7);
  }

  /** The street and city of the spider's address dict, as `get` finds them. */
  lemma AddressFields(street: string, city: string)
    ensures var am := [Member("street", JStr(street)), Member("city", JStr(city))];
      GetOr(am, "street", JStr("")) == JStr(street) && GetOr(am, "city", JStr("")) == JStr(city)
  {
    var am := [Member("street", JStr(street)), Member("city", JStr(city))];
    assert DistinctKeys(am);
    GetMember(am, 0);
    GetMember(am, 1);
  }

  /** The mapping takes every field of the spider's dict from its own key. */
  lemma ContentMapsCleanly(rawId: nat, sourceId: Option<nat>, name: string, subtitle: string, category: string, street: string, city: string, phone: string, hours: string, page: nat, html: string)
    ensures MapCleaned(rawId, sourceId, Content(name, subtitle, category, street, city, phone, hours, page, html))
      == Success(CleanedRow(rawId, sourceId, JStr(name), JStr(category), Address(JStr(street), JStr(city)),
           Contact(JStr(phone), JStr(hours)), Extra(JInt(page), JStr(subtitle), JStr(html)), Valid))
  {
    ContentLeadingFields(name, subtitle, category, street, city, phone, hours, page, html);
    ContentTrailingFields(name, subtitle, category, street, city, phone, hours, page, html);
    AddressFields(street, city);
  }

  /** A spider item never takes the mapping's error path; every cleaned field comes from the entry. */
  lemma SpiderItemsMapCleanly(rawId: nat, sourceId: Option<nat>, e: Entry, page: nat)
    ensures WellFormed(RawContent(e, page))
    ensures MapCleaned(rawId, sourceId, RawContent(e, page)) == Success(CleanedRow(
      rawId,
      sourceId,
      JStr(CleanText(e.name)),
      JStr(CleanText(e.category)),
      Address(JStr(Street(e.addressTexts)), JStr(City(e.addressTexts))),
      Contact(JStr(CleanText(e.phone)), JStr(CleanText(e.openingHours))),
      Extra(JInt(page), JStr(CleanText(e.subtitle)), JStr(e.html)),
      Valid))
  {
    RawContentWellFormed(e, page);
    ContentMapsCleanly(rawId, sourceId, CleanText(e.name), CleanText(e.subtitle), CleanText(e.category),
      Street(e.addressTexts), City(e.addressTexts), CleanText(e.phone), CleanText(e.openingHours), page, e.html);
  }

  /**
   * The same entry on the same page number, crawled again in any run, is a
   * duplicate: the second item changes nothing.
   */
  lemma RecrawlIsDuplicate(md5: Hasher, st: State, e: Entry, page: nat,
                           source1: Option<nat>, run1: Option<nat>, source2: Option<nat>, run2: Option<nat>, fault: StorageFault)
    ensures WellFormed(RawContent(e, page))
    ensures var s := Ingest(md5, st, BuildItem(source1, run1, page, e), NoFault);
      Ingest(md5, s, BuildItem(source2, run2, page, e), fault) == s
  {
    RawContentWellFormed(e, page);
    SameContentReflexive(RawContent(e, page));
    IngestTwice(md5, st, BuildItem(source1, run1, page, e), BuildItem(source2, run2, page, e), fault);
  }

  /** A page listing an entry twice: the spider counts both, the pipeline stores and counts one. */
  lemma RepeatedEntryStoredOnce(md5: Hasher, st: State, sourceId: Option<nat>, runId: Option<nat>, page: nat, e: Entry)
    requires WellFormed(RawContent(e, page)) && !Stored(st.raws, Fingerprint(md5, RawContent(e, page)))
    ensures var items := PageItems(sourceId, runId, page, [e, e]);
      && |items| == 2
      && (forall k :: 0 <= k < |items| ==> WellFormed(items[k].rawContent))
      && IngestAll(md5, st, items, [NoFault, NoFault]).itemsCount == st.itemsCount + 1
      && HashedRows(IngestAll(md5, st, items, [NoFault, NoFault]).raws) == HashedRows(st.raws) + 1
  {
    var items := PageItems(sourceId, runId, page, [e, e]);
    var it := items[0];
    assert items[1] == it;
    var s := Ingest(md5, st, it, NoFault);
    RecrawlIsDuplicate(md5, st, e, page, sourceId, runId, sourceId, runId, NoFault);
    assert items[1..] == [it] && [NoFault, NoFault][1..] == [NoFault];
    assert IngestAll(md5, s, [it], [NoFault]) == s by {
      assert IngestAll(md5, Ingest(md5, s, it, NoFault), [], []) == Ingest(md5, s, it, NoFault);
    }
    assert IngestAll(md5, st, items, [NoFault, NoFault]) == s;
    ItemsCountMoves(md5, st, it, NoFault);
    CountTracksHashedRows(md5, st, it, NoFault);
  }
}
