# fox_scraper in Dafny

A model of the two parts of fox_scraper that hold its logic, with proofs:

- **The deduplicating ingest step** `DatabasePipeline.process_item`. For every scraped item it computes the hash the pipeline keys on: MD5 over the key-sorted JSON of `raw_content`. It skips the item when a `raw_data` row with that hash exists. Otherwise it:
  - stages a `pending` raw row and flushes it;
  - maps the content onto a `cleaned_data` row;
  - marks the raw row `processed`, or `failed` when the mapping raises, in which case it also stages a hash-less error-marker raw row;
  - commits the unit.

  Any database error rolls the unit back.
- **The spider** `VetSpider`, which has two parts:
  - its text normaliser `clean_text` and the street/city split of an entry's address fragments;
  - the crawl: `start_requests`, `parse` page by page, the errback, the run record's counter and error list, and `closed`.

Modules, one per file:

| file | module | models |
|---|---|---|
| wrappers.dfy | `Wrappers` | `Option`, `Result` |
| json.dfy | `Json` | the JSON values stored in JSONB columns; `dict.get`; the canonical (sorted-key) form and its characterisation |
| text.dfy | `Text` | Python's `str.isspace`, `strip`, `split()`, `' '.join` and `clean_text` |
| address.dfy | `AddressSplit` | the address fragments, street and city |
| decimal.dfy | `Decimal` | decimal rendering of page numbers |
| records.dfy | `Records` | the item and the `raw_data` / `cleaned_data` rows |
| pipeline.dfy | `Pipeline` | the fingerprint, the mapping, `Ingest` (the effect of one call), the store invariant, and the classes `Database` and `DatabasePipeline` |
| spider.dfy | `Spider` | item construction, and the classes `ScrapingRun` and `VetSpider` |
| crawl.dfy | `Crawl` | one whole crawl driven request by request |
| flow.dfy | `Flow` | the spider's items as the pipeline sees them |

### How the pipeline is modelled

`DatabasePipeline.ProcessItem` is a method on a class. The class holds the field `itemsCount` and a `Database` whose two tables are sequence fields. The method's contract ties the new tables and counter to the function `Ingest` applied to the old ones. The properties the source promises are proved as lemmas about `Ingest`.

What the model takes as parameters:
- The database's behaviour: a `StorageFault` says whether the lookup, the flush or the commit raises.
- MD5: an arbitrary function from canonical values to strings, so every result holds for any digest.
- Row ids: the position of a row in its table.

### How the crawl is modelled

A page is modelled as the entries its selectors find. A response that `parse` cannot read is `Unreadable`, carrying the exception's message. A failed request is `FetchFailed`, carrying the failure's text. `Crawl.Crawl` runs a fresh spider over a site given as the responses to pages 1, 2, and so on. Past the last given page, the site answers with an empty listing.

### Behaviours kept as the code has them

- `items_count` goes up by one on the failed-mapping path too, not only when a cleaned row is written. See `Pipeline.FailedItemMarked` and `Pipeline.ItemsCountMoves`.
- The spider's `items_processed` counts every entry, duplicates included. The pipeline stores such an entry once. See `Flow.RepeatedEntryStoredOnce`.
- `closed` marks the run `completed` whatever ended it. There is no aborted or failed status. See `Spider.VetSpider.Closed` and `Crawl.Crawl`.
- A mapping error or a database error in the pipeline is only logged. It never reaches the run's error list, because the pipeline does not touch the run.
- Nothing stops a write to the run record after `closed`.
- The failed raw row keeps its hash. Its content therefore counts as a duplicate from then on, and it is never re-tried. See `Pipeline.IngestTwice`.

## Model

| member | source | states |
|---|---|---|
| Json.Get | fox_scraper/pipelines/db_pipeline.py:108-121 | `d.get(key)` is None exactly when no member has the key; otherwise it is the value of a member with that key |
| Json.GetMember | fox_scraper/pipelines/db_pipeline.py:108-121 | in a dict, `get` of a member's key gives that member's value |
| Json.CanonicalIdentifiesContent | fox_scraper/pipelines/db_pipeline.py:76-78 | the key-sorted serialisations of two dicts are equal exactly when the dicts hold the same key/value pairs at every depth, whatever the insertion order |
| Json.SameContentSameCanonical | fox_scraper/pipelines/db_pipeline.py:76-78 | same content in any member order gives the same sorted serialisation (one direction, by induction) |
| Json.SameCanonicalSameContent | fox_scraper/pipelines/db_pipeline.py:76-78 | the same sorted serialisation comes only from the same content (the other direction) |
| Pipeline.FingerprintOrderIndependent | fox_scraper/pipelines/db_pipeline.py:76-78 | two contents with equal key/value pairs, in different insertion order, get the same hash, for any digest function |
| Pipeline.FingerprintIdentifiesContent | fox_scraper/pipelines/db_pipeline.py:76-78 | with a collision-free digest, equal hashes occur exactly for equal content |
| Pipeline.Lookup | fox_scraper/pipelines/db_pipeline.py:81-83 | the hash lookup finds nothing exactly when no raw row carries the hash, and otherwise returns a row that carries it |
| Pipeline.MapCleaned | fox_scraper/pipelines/db_pipeline.py:104-124 | content that is not a dict raises `'<type>' object has no attribute 'get'`; a successful mapping points at the new raw row, carries the item's source id and is `valid` |
| Pipeline.MappingFailsExactly | fox_scraper/pipelines/db_pipeline.py:104-124 | the mapping raises exactly when the content is not a dict or its `address` is present and not a dict, and the message names the offending value's type |
| Pipeline.TakesGetOr | fox_scraper/pipelines/db_pipeline.py:108-121 | `d.get(key, default)` is the value under `key` when present and `default` when absent |
| Pipeline.TakesNestedGetOr | fox_scraper/pipelines/db_pipeline.py:111-112 | `d.get('address', {}).get(k, '')` is the nested value, or `''` when either level is absent |
| Pipeline.MappedFields | fox_scraper/pipelines/db_pipeline.py:105-124 | name, category, street, city, phone, hours, page number, subtitle and html are each taken from their keys in the raw content; the default is `''`, or `None` for the page number |
| Pipeline.DatabasePipeline.ProcessItem | fox_scraper/pipelines/db_pipeline.py:71-161 | the item is returned on every path, and the tables and `items_count` become `Ingest` of their old values |
| Pipeline.DatabasePipeline.constructor | fox_scraper/pipelines/db_pipeline.py:15-18 | the counter starts at 0 over the given database |
| Pipeline.DuplicateNoOp | fox_scraper/pipelines/db_pipeline.py:80-87 | when a row with the content's hash exists, nothing changes: no raw row, no cleaned row, same counter |
| Pipeline.FaultRollsBack | fox_scraper/pipelines/db_pipeline.py:149-158 | a database error at the lookup, the flush or the commit leaves the tables and the counter exactly as before |
| Pipeline.NewItemInserted | fox_scraper/pipelines/db_pipeline.py:89-99 | a new content appends a raw row with the item's source id, run id, url, raw content and hash, and keeps the earlier rows |
| Pipeline.MappedItemCleaned | fox_scraper/pipelines/db_pipeline.py:102-142 | on a successful mapping the new raw row is `processed`, exactly one cleaned row is appended, it points at that raw row, and the counter moves by one |
| Pipeline.FailedItemMarked | fox_scraper/pipelines/db_pipeline.py:130-142 | on a mapping error the new raw row is `failed`, one hash-less `{'error': msg}` marker row follows it, no cleaned row is added, and the counter still moves by one |
| Pipeline.ItemsCountMoves | fox_scraper/pipelines/db_pipeline.py:141-142 | `items_count` moves by exactly one when the content is new and no database error occurs, and otherwise stays |
| Pipeline.AppendOnly | fox_scraper/pipelines/db_pipeline.py:71-161 | committed raw and cleaned rows are never altered or removed |
| Pipeline.StoredAfterIngest | fox_scraper/pipelines/db_pipeline.py:80-99 | after a call without a database error, a row carries the content's hash |
| Pipeline.IngestTwice | fox_scraper/pipelines/db_pipeline.py:80-99 | ingesting the same content again, in any member order and under any database behaviour, is a no-op |
| Pipeline.ExactlyOneRowPerHash | fox_scraper/pipelines/db_pipeline.py:80-99 | after a committed call on a valid store, exactly one raw row carries the content's hash |
| Pipeline.AppendKeepsUnique | fox_scraper/pipelines/db_pipeline.py:80-99 | appending a row with a hash not yet stored, followed by hash-less rows, keeps one row per hash |
| Pipeline.UniqueRowWithHash | fox_scraper/pipelines/db_pipeline.py:80-99 | with one row per hash, a stored hash sits on exactly one row |
| Pipeline.AppendKeepsFaithfulSettled | fox_scraper/pipelines/db_pipeline.py:89-139 | appending rows whose hashes are their contents' fingerprints and whose status is settled keeps the whole table so |
| Pipeline.NewRowLinked | fox_scraper/pipelines/db_pipeline.py:105-128 | a processed raw row with its cleaned row keeps cleaned rows pointing at processed rows, in order, one each |
| Pipeline.FailedRowsLinked | fox_scraper/pipelines/db_pipeline.py:130-139 | appending failed rows alone keeps that link |
| Pipeline.IngestPreservesInvariant | fox_scraper/pipelines/db_pipeline.py:71-161 | every call keeps the store invariant: one row per hash; each hash is its row's content fingerprint; no committed `pending` row; hash-less rows are `failed`; every cleaned row points at a `processed` row in insertion order, and every `processed` row has one |
| Pipeline.AtMostOncePerContent | fox_scraper/pipelines/db_pipeline.py:76-99 | in a valid store, two hash-bearing rows with the same content (up to member order) are the same row |
| Pipeline.HashedRowsAppend | fox_scraper/pipelines/db_pipeline.py:90-97 | the number of hash-bearing rows adds up over concatenation |
| Pipeline.CountTracksHashedRows | fox_scraper/pipelines/db_pipeline.py:90-142 | `items_count` moves exactly as the number of hash-bearing raw rows does |
| Pipeline.IngestAllInvariant | fox_scraper/pipelines/db_pipeline.py:71-161 | any sequence of calls, under any database behaviour, keeps a valid store valid |
| Text.TrimStart | fox_scraper/spiders/vet_spider.py:175 | the left strip leaves no leading whitespace and never lengthens |
| Text.TrimEnd | fox_scraper/spiders/vet_spider.py:175 | the right strip leaves no trailing whitespace and never lengthens |
| Text.TrimStartDrops | fox_scraper/spiders/vet_spider.py:175 | the left strip removes only whitespace, and is empty exactly for all-whitespace input |
| Text.TrimEndDrops | fox_scraper/spiders/vet_spider.py:175 | the right strip removes only whitespace, and is empty exactly for all-whitespace input |
| Text.Strip | fox_scraper/spiders/vet_spider.py:175 | `strip()` leaves neither leading nor trailing whitespace (Python's `isspace` set) |
| Text.StripEmpty | fox_scraper/spiders/vet_spider.py:86 | `t.strip()` is empty exactly when `t` is all whitespace |
| Text.Word | fox_scraper/spiders/vet_spider.py:175 | the first word is the longest whitespace-free prefix |
| Text.Split | fox_scraper/spiders/vet_spider.py:175 | `split()` gives non-empty words without whitespace |
| Text.JoinNormalized | fox_scraper/spiders/vet_spider.py:175 | words joined by single spaces form a normalised string |
| Text.SplitJoin | fox_scraper/spiders/vet_spider.py:175 | splitting words joined by single spaces gives the words back |
| Text.JoinSplit | fox_scraper/spiders/vet_spider.py:175 | joining the words of a normalised string gives the string back |
| Text.SplitStrip | fox_scraper/spiders/vet_spider.py:175 | stripping before splitting changes no word |
| Text.CleanText | fox_scraper/spiders/vet_spider.py:171-175 | the result has no leading or trailing whitespace, no whitespace other than single spaces, and no two whitespace characters in a row |
| Text.CleanTextIsJoinSplit | fox_scraper/spiders/vet_spider.py:171-175 | `clean_text(t)` is `t`'s whitespace-separated words joined by single spaces |
| Text.CleanTextKeepsWords | fox_scraper/spiders/vet_spider.py:175 | `clean_text` keeps exactly the words of its input |
| Text.CleanTextFixpoint | fox_scraper/spiders/vet_spider.py:171-175 | `clean_text(s) == s` exactly when `s` is normalised |
| Text.CleanTextIdempotent | fox_scraper/spiders/vet_spider.py:171-175 | `clean_text(clean_text(x)) == clean_text(x)`, for `None` too |
| Text.CleanTextExample | fox_scraper/spiders/vet_spider.py:175 | a padded street line with a run of spaces and a newline becomes `Musterstraße 12` |
| AddressSplit.PieceOf | fox_scraper/spiders/vet_spider.py:86 | a text contributes nothing when it is all whitespace, and its stripped self otherwise |
| AddressSplit.FragmentsStripped | fox_scraper/spiders/vet_spider.py:86 | the fragments are at most as many as the texts, each non-empty and stripped |
| AddressSplit.FragmentsCons | fox_scraper/spiders/vet_spider.py:86 | the fragments are the first text's contribution followed by the rest's fragments, in order |
| AddressSplit.FragmentsAppend | fox_scraper/spiders/vet_spider.py:86 | the fragments of concatenated texts are the concatenated fragments |
| AddressSplit.FragmentsOne | fox_scraper/spiders/vet_spider.py:86 | a blank text gives no fragment, any other its stripped self |
| AddressSplit.FragmentsEmpty | fox_scraper/spiders/vet_spider.py:86 | there are no fragments exactly when every text is blank |
| AddressSplit.FragmentsAround | fox_scraper/spiders/vet_spider.py:86 | the fragments are those of the texts before the `i`-th, then the `i`-th text's contribution, then those after it |
| AddressSplit.FragmentsEndAt | fox_scraper/spiders/vet_spider.py:86 | when every text after a non-blank one is blank, that text, stripped, is the last fragment |
| AddressSplit.StreetIsFirstNonBlank | fox_scraper/spiders/vet_spider.py:88 | the street is the first non-blank text, stripped |
| AddressSplit.StreetOfBlank | fox_scraper/spiders/vet_spider.py:88-89 | with only blank texts, street and city are `''` |
| AddressSplit.CityIsLastNonBlank | fox_scraper/spiders/vet_spider.py:89 | the city is the last non-blank text, stripped, when an earlier text is non-blank; otherwise `''` |
| AddressSplit.SingleFragment | fox_scraper/spiders/vet_spider.py:88-89 | with exactly one non-blank text, it is the street and the city is `''` |
| Decimal.Digits | fox_scraper/spiders/vet_spider.py:118 | a page number prints as digits with no leading zero |
| Decimal.ValueOfDigits | fox_scraper/spiders/vet_spider.py:118 | reading the printed digits back gives the number |
| Decimal.DigitsInjective | fox_scraper/spiders/vet_spider.py:118 | two numbers print alike exactly when they are equal |
| Spider.PageUrlInjective | fox_scraper/spiders/vet_spider.py:117-118 | distinct page numbers get distinct next-page URLs |
| Spider.PageItems | fox_scraper/spiders/vet_spider.py:81-110 | a page yields one item per entry, in entry order |
| Spider.PageItemsSnoc | fox_scraper/spiders/vet_spider.py:81-110 | yielding the item of one more entry extends the page's items by exactly that item |
| Spider.PageItemsTagged | fox_scraper/spiders/vet_spider.py:91-107 | each item carries the spider's source id and run id, the entry's link, and the current page as `page_number` |
| Spider.ScrapingRun.constructor | fox_scraper/spiders/vet_spider.py:50-54 | a new run is `running`, with no end time, count 0 and no errors |
| Spider.VetSpider.constructor | fox_scraper/spiders/vet_spider.py:22-28 | a new spider has count 0, is on page 1, and has no source id or run id yet |
| Spider.VetSpider.StartRequests | fox_scraper/spiders/vet_spider.py:47-67 | the spider takes the source id and a new `running` run, and requests page 1 at the start URL |
| Spider.VetSpider.UpdateRunStats | fox_scraper/spiders/vet_spider.py:135-146 | the run's count is overwritten with the spider's counter and nothing else in the run changes, so a repeat call changes nothing |
| Spider.VetSpider.RecordError | fox_scraper/spiders/vet_spider.py:148-164 | exactly one `{timestamp, error}` entry is appended after the earlier ones (an absent list counts as empty), and nothing else in the run changes; this is the intended append, which the code as written persists only onto an absent or empty list (see Findings) |
| Spider.VetSpider.ErrbackHttpbin | fox_scraper/spiders/vet_spider.py:166-169 | a failed request appends its failure text as one error entry and changes nothing else in the run; the append is the corrected `record_error` (see Findings) |
| Spider.VetSpider.Closed | fox_scraper/spiders/vet_spider.py:177-190 | whatever the reason, the run becomes `completed`, with the end time set, the final count written and the errors unchanged |
| Spider.VetSpider.Parse | fox_scraper/spiders/vet_spider.py:75-133 | on a listing: one item per entry, in order, on the current page; the counter grows by the number of entries and is written to the run. After a non-empty page, the page advances by exactly one and exactly that page is requested; after an empty page, no request. An unreadable response records one error and yields nothing; that error is appended by the corrected `record_error` (see Findings) |
| Spider.PersistedErrorsAsWritten | fox_scraper/spiders/vet_spider.py:152-160 | as written, the stored error list is always a non-empty prefix of the intended append: entries can be lost but nothing else is ever stored |
| Spider.AsWrittenAgreesExactlyWhenEmpty | fox_scraper/spiders/vet_spider.py:152-160 | for every loaded list and entry: the list stored as written equals the intended append exactly when no error was stored before; otherwise the stored list stays as loaded and the new entry is lost |
| Spider.SecondErrorLostAsWritten | fox_scraper/spiders/vet_spider.py:154-160 | as written, recording a second error leaves the stored list with the first one only |
| Crawl.FirstStop | fox_scraper/spiders/vet_spider.py:116 | the first page whose response is not a listing with entries; every earlier page has entries |
| Crawl.Requested | fox_scraper/spiders/vet_spider.py:116-129 | the requests for pages 1..k, in order: the start URL, then each page's URL |
| Crawl.CrawledItemsCount | fox_scraper/spiders/vet_spider.py:81-82 | the crawl's items are exactly as many as the entries on the pages read |
| Crawl.CrawledItemsStep | fox_scraper/spiders/vet_spider.py:81-116 | a page that continues the crawl adds its items after the earlier pages'; a page that stops it adds none |
| Crawl.Visit | fox_scraper/spiders/vet_spider.py:75-169 | a response goes to `parse` and a failed request to the errback; either way the page advances only on a listing with entries, and the run gains that response's error, if any; after a listing the run's count equals the spider's counter, after any other response it is unchanged |
| Crawl.Drive | fox_scraper/spiders/vet_spider.py:75-169 | from the request for page 1, with k the first page that is not a listing with entries: pages 1..k are requested and no other, the items are those of pages 1..k-1, all counted both by the spider and in the run's count, and the run holds page k's error if it caused one |
| Crawl.Crawl | fox_scraper/spiders/vet_spider.py:60-190 | with k the first page that is not a listing with entries: pages 1..k are requested and no other; the items are those of pages 1..k-1; the counter counts them all; the spider keeps the source and run ids it was given; the run keeps its start time and ends `completed` with the final count and end time, holding page k's error if it caused one |
| Spider.RawContentWellFormed | fox_scraper/spiders/vet_spider.py:95-107 | the spider's `raw_content` is a dict with distinct keys at every level |
| Flow.ContentMapsCleanly | fox_scraper/pipelines/db_pipeline.py:104-124 | the mapping of a dict shaped as the spider builds it succeeds and takes each cleaned field from its own key |
| Flow.SpiderItemsMapCleanly | fox_scraper/pipelines/db_pipeline.py:104-124 | a spider item never takes the mapping's error path; its cleaned row holds the cleaned name, category, phone and hours, the split street and city, the page number, subtitle and html |
| Flow.RecrawlIsDuplicate | fox_scraper/pipelines/db_pipeline.py:76-87 | the same entry on the same page number, crawled again in any run, is a duplicate the pipeline ignores |
| Flow.RepeatedEntryStoredOnce | fox_scraper/spiders/vet_spider.py:81-82 | a page listing an entry twice gives two items counted by the spider, but one stored raw row and one step of `items_count` |

## Findings

| source | as written | input that shows it | evidently intended | confidence | as-written member | corrected member |
|---|---|---|---|---|---|---|
| fox_scraper/spiders/vet_spider.py:154-160 | `run.errors.append(...)` changes the loaded JSONB list in place. The `errors` column is plain `JSONB` with no mutation tracking (fox_scraper/core/database.py:39), so the commit writes nothing. Only an error recorded onto an absent or empty list persists | a run whose stored `errors` is `[e1]`, then `record_error('x')` | the stored list becomes `[e1, {timestamp, 'x'}]` | medium, not executed; a single crawl records at most one error (`Crawl.Crawl`), so the loss shows only when errors reach the same run from more than one request | Spider.SecondErrorLostAsWritten | Spider.VetSpider.RecordError |

## Left out

- Pipeline.DatabasePipeline.ProcessItem: requires distinct keys at every level of `raw_content` (`WellFormed`), which every Python dict has. JSON arrays, floats and booleans are not modelled; the spider never produces them.
- Pipeline.Lookup: `.first()` has no `ORDER BY`, so any matching row may come back. `Lookup` returns the last one and only its existence is used.
- Pipeline.Fingerprint: MD5 and the JSON text are not modelled. The digest is a parameter, collisions are not excluded, and the one lemma that needs no collisions says so in its `requires`.
- Failures at `session.add` and the autoflush are not modelled separately; they are covered by the flush and commit faults. A `KeyError` from an item missing `raw_content`, `url`, `source_id` or `run_id` is not modelled.
- Database-assigned ids are row positions. Column types and lengths (`String(255)`) are not checked; an overlong value fails at the commit, which is the commit fault. `scraped_at` and `cleaned_at` are not modelled.
- Logging is not modelled, including the progress message every 100 items and the failed-item dump.
- `open_spider`, `close_spider` and `handle_error` are not modelled: they create tables and log. `close_spider` reads `spider.run.id`, which the spider never defines, so it always fails into its `except` branch.
- Spider.VetSpider.StartRequests: the data source get-or-create is not modelled. The source id and run id are parameters, and `config_snapshot`/`custom_settings` are left out.
- Exceptions inside the spider's own run-record writes are not modelled: the source catches and logs them, and the model has those writes succeed. A run id that names no record is modelled by a null `run`.
- Spider.VetSpider.Parse: an exception raised part-way through a page, after some items were yielded, is not modelled. Only a response that cannot be read at all (`Unreadable`) is. The generator's laziness is not modelled: the count is as stated once the page's items have all been taken.
- Scrapy's scheduler, retries, download delay, allowed domains and the CSS/XPath selectors are not modelled. Each page is the entries the selectors find; each request is answered or fails.
- The source has no page limit: after any page with entries it requests the next one (fox_scraper/spiders/vet_spider.py:116-129), so a site that never answers with an empty page is crawled forever. The model gives every site finitely many pages, answered with an empty listing after the last, which is what makes `Crawl.Drive` terminate; an endless crawl is not modelled.
- Timestamps (`datetime.utcnow`) are parameters. Crawl.Crawl: one timestamp serves for the error of the last page, which is at most one error per crawl.
- How items reach the pipeline is not modelled. `Crawl.Crawl` collects the items, and `Flow` applies the pipeline's `Ingest` to them.
- The maintenance scripts, the Streamlit viewer, the connection tests, `settings.py`, `setup.py` and the unused item class are not part of this model.
