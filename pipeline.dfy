/**
 * The deduplicating ingest step `DatabasePipeline.process_item`.
 *
 * For each item the pipeline fingerprints the raw content (MD5 over the
 * key-sorted JSON), skips the item when a raw row with that fingerprint
 * exists, and otherwise stages a `pending` raw row, flushes it to obtain its
 * id, maps the content onto a cleaned row and marks the raw row `processed`
 * (or, when the mapping raises, marks it `failed` and stages a hash-less
 * error marker), and commits the unit. Any database error rolls the whole
 * unit back. The database's behaviour is a parameter: a `StorageFault` says
 * at which step, if any, it raises. MD5 is a parameter too: every property
 * below holds for any function from canonical values to strings.
 */
module Pipeline {
  import opened Wrappers
  import opened Json
  import opened Records

  /** The hex digest applied to the sorted-key serialisation. */
  type Hasher = Canon -> string

  /** `hashlib.md5(json.dumps(raw_content, sort_keys=True).encode()).hexdigest()`. */
  function Fingerprint(md5: Hasher, content: Json): string
    requires WellFormed(content)
  {
    md5(Canonical(content))
  }

  /** Two contents with the same key/value pairs, in whatever insertion order, get the same fingerprint. */
  lemma FingerprintOrderIndependent(md5: Hasher, a: Json, b: Json)
    requires WellFormed(a) && WellFormed(b) && SameContent(a, b)
    ensures Fingerprint(md5, a) == Fingerprint(md5, b)
  {
    CanonicalIdentifiesContent(a, b);
  }

  ghost predicate Injective(md5: Hasher) {
    forall x, y :: md5(x) == md5(y) ==> x == y
  }

  /** Without collisions, the fingerprint tells contents apart exactly up to member order. */
  lemma FingerprintIdentifiesContent(md5: Hasher, a: Json, b: Json)
    requires WellFormed(a) && WellFormed(b) && Injective(md5)
    ensures Fingerprint(md5, a) == Fingerprint(md5, b) <==> SameContent(a, b)
  {
    CanonicalIdentifiesContent(a, b);
  }

  /** `session.query(RawData).filter_by(hash=h).first()`: the position of a row carrying `h`. */
  function Lookup(raws: seq<RawRow>, h: string): (r: Option<nat>)
    ensures r.None? <==> forall i :: 0 <= i < |raws| ==> raws[i].hash != Some(h)
    ensures r.Some? ==> r.value < |raws| && raws[r.value].hash == Some(h)
  {
    if raws == [] then None
    else if raws[|raws| - 1].hash == Some(h) then Some(|raws| - 1)
    else Lookup(raws[..|raws| - 1], h)
  }

  /** Python's name for the type of a JSON value. */
  function TypeName(v: Json): string {
    match v
    case JNull => "NoneType"
    case JInt(_) => "int"
    case JStr(_) => "str"
    case JObj(_) => "dict"
  }

  /** The message of the `AttributeError` raised by calling `.get` on `v`. */
  function NoGetAttribute(v: Json): string {
    "'" + TypeName(v) + "' object has no attribute 'get'"
  }

  /**
   * The mapping of raw content onto a cleaned row. It raises when the content
   * is not a dict, or when its `address` is present but not a dict.
   */
  function MapCleaned(rawId: nat, sourceId: Option<nat>, content: Json): (r: Result<CleanedRow, string>)
    ensures !content.JObj? ==> r == Failure(NoGetAttribute(content))
    ensures r.Success? ==> r.value.rawDataId == rawId && r.value.sourceId == sourceId && r.value.validationStatus == Valid
  {
    if !content.JObj? then Failure(NoGetAttribute(content))
    else
      var ms := content.members;
      var address := GetOr(ms, "address", JObj([]));
      if !address.JObj? then Failure(NoGetAttribute(address))
      else
        Success(CleanedRow(
          rawId,
          sourceId,
          GetOr(ms, "name", JStr("")),
          GetOr(ms, "category", JStr("")),
          Address(GetOr(address.members, "street", JStr("")), GetOr(address.members, "city", JStr(""))),
          Contact(GetOr(ms, "phone", JStr("")), GetOr(ms, "opening_hours", JStr(""))),
          Extra(GetOr(ms, "page_number", JNull), GetOr(ms, "subtitle", JStr("")), GetOr(ms, "html", JStr(""))),
          Valid))
  }

  /** `v` is what `d.get(key, default)` gives for the dict with members `ms`. */
  predicate Takes(ms: seq<Member>, key: string, default: Json, v: Json) {
    && (forall i :: 0 <= i < |ms| && ms[i].key == key ==> v == ms[i].value)
    && ((forall i :: 0 <= i < |ms| ==> ms[i].key != key) ==> v == default)
  }

  /** `v` is what `d.get(outer, {}).get(inner, default)` gives, when that does not raise. */
  predicate TakesNested(ms: seq<Member>, outer: string, inner: string, default: Json, v: Json) {
    && (forall i :: 0 <= i < |ms| && ms[i].key == outer ==> ms[i].value.JObj? && Takes(ms[i].value.members, inner, default, v))
    && ((forall i :: 0 <= i < |ms| ==> ms[i].key != outer) ==> v == default)
  }

  lemma TakesGetOr(ms: seq<Member>, key: string, default: Json)
    requires DistinctKeys(ms)
    ensures Takes(ms, key, default, GetOr(ms, key, default))
  {
    forall i | 0 <= i < |ms| && ms[i].key == key ensures GetOr(ms, key, default) == ms[i].value {
      GetMember(ms, i);
    }
  }

  /** The mapping raises exactly when the content is not a dict or its `address` is not a dict. */
  lemma MappingFailsExactly(rawId: nat, sourceId: Option<nat>, content: Json)
    requires WellFormed(content)
    ensures MapCleaned(rawId, sourceId, content).Failure?
        <==> !content.JObj? || exists i :: 0 <= i < |content.members| && content.members[i].key == "address" && !content.members[i].value.JObj?
    ensures content.JObj? ==> forall i :: 0 <= i < |content.members| && content.members[i].key == "address" && !content.members[i].value.JObj? ==>
              MapCleaned(rawId, sourceId, content) == Failure(NoGetAttribute(content.members[i].value))
  {
    if content.JObj? {
      var ms := content.members;
      forall i | 0 <= i < |ms| && ms[i].key == "address" ensures GetOr(ms, "address", JObj([])) == ms[i].value {
        GetMember(ms, i);
      }
    }
  }

  /** `d.get(outer, {}).get(inner, default)`, when the outer value is a dict or absent. */
  lemma TakesNestedGetOr(ms: seq<Member>, outer: string, inner: string, default: Json)
    requires WellFormed(JObj(ms)) && GetOr(ms, outer, JObj([])).JObj?
    ensures TakesNested(ms, outer, inner, default, GetOr(GetOr(ms, outer, JObj([])).members, inner, default))
  {
    var v := GetOr(ms, outer, JObj([]));
    forall i | 0 <= i < |ms| && ms[i].key == outer ensures v == ms[i].value {
      GetMember(ms, i);
    }
    TakesGetOr(v.members, inner, default);
  }

  /**
   * A successful mapping takes every field from the raw content under its
   * key, with `''` as default (`None` for `page_number`), and the street and
   * city from the `address` dict.
   */
  lemma MappedFields(rawId: nat, sourceId: Option<nat>, content: Json)
    requires WellFormed(content) && MapCleaned(rawId, sourceId, content).Success?
    ensures content.JObj?
    ensures var c, ms := MapCleaned(rawId, sourceId, content).value, content.members;
      && Takes(ms, "name", JStr(""), c.name)
      && Takes(ms, "category", JStr(""), c.category)
      && TakesNested(ms, "address", "street", JStr(""), c.address.street)
      && TakesNested(ms, "address", "city", JStr(""), c.address.city)
      && Takes(ms, "phone", JStr(""), c.contact.phone)
      && Takes(ms, "opening_hours", JStr(""), c.contact.hours)
      && Takes(ms, "page_number", JNull, c.dataJson.pageNumber)
      && Takes(ms, "subtitle", JStr(""), c.dataJson.subtitle)
      && Takes(ms, "html", JStr(""), c.dataJson.rawHtml)
  {
    var ms := content.members;
    TakesGetOr(ms, "name", JStr(""));
    TakesGetOr(ms, "category", JStr(""));
    TakesGetOr(ms, "phone", JStr(""));
    TakesGetOr(ms, "opening_hours", JStr(""));
    TakesGetOr(ms, "page_number", JNull);
    TakesGetOr(ms, "subtitle", JStr(""));
    TakesGetOr(ms, "html", JStr(""));
    TakesNestedGetOr(ms, "address", "street", JStr(""));
    TakesNestedGetOr(ms, "address", "city", JStr(""));
  }

  /** The error marker row: `{'error': msg}`, no hash, `failed`. */
  function ErrorMarker(item: Item, msg: string): RawRow {
    RawRow(item.sourceId, item.runId, item.url, JObj([Member("error", JStr(msg))]), None, Failed)
  }

  /** The raw row staged for a new item, before its status is settled. */
  function StagedRow(item: Item, h: string): RawRow {
    RawRow(item.sourceId, item.runId, item.url, item.rawContent, Some(h), Pending)
  }

  /** Where the database raises an error, if it does: at the lookup, the flush or the commit. */
  datatype StorageFault = NoFault | LookupFails | FlushFails | CommitFails

  /** The committed tables and the pipeline's counter. */
  datatype State = State(raws: seq<RawRow>, cleaned: seq<CleanedRow>, itemsCount: nat)

  /** The effect of `process_item`, as a function of the state before it. */
  function Ingest(md5: Hasher, st: State, item: Item, fault: StorageFault): State
    requires WellFormed(item.rawContent)
  {
    var h := Fingerprint(md5, item.rawContent);
    if fault == LookupFails || Lookup(st.raws, h).Some? then st
    else if fault == FlushFails || fault == CommitFails then st
    else
      var row := StagedRow(item, h);
      match MapCleaned(|st.raws|, item.sourceId, item.rawContent)
      case Success(c) => State(st.raws + [row.(status := Processed)], st.cleaned + [c], st.itemsCount + 1)
      case Failure(e) => State(st.raws + [row.(status := Failed), ErrorMarker(item, e)], st.cleaned, st.itemsCount + 1)
  }

  /** Some committed row carries hash `h`. */
  ghost predicate Stored(raws: seq<RawRow>, h: string) {
    exists i :: 0 <= i < |raws| && raws[i].hash == Some(h)
  }

  /** A content whose fingerprint is already stored is skipped: nothing changes. */
  lemma DuplicateNoOp(md5: Hasher, st: State, item: Item, fault: StorageFault)
    requires WellFormed(item.rawContent) && Stored(st.raws, Fingerprint(md5, item.rawContent))
    ensures Ingest(md5, st, item, fault) == st
  {
  }

  /** A database error anywhere rolls the unit back: tables and counter are as before. */
  lemma FaultRollsBack(md5: Hasher, st: State, item: Item, fault: StorageFault)
    requires WellFormed(item.rawContent) && fault != NoFault
    ensures Ingest(md5, st, item, fault) == st
  {
  }

  /** A new content, committed, appends its raw row carrying the item's fields and the fingerprint. */
  lemma NewItemInserted(md5: Hasher, st: State, item: Item)
    requires WellFormed(item.rawContent) && !Stored(st.raws, Fingerprint(md5, item.rawContent))
    ensures var s, n := Ingest(md5, st, item, NoFault), |st.raws|;
      && |s.raws| > n && s.raws[..n] == st.raws
      && var row := s.raws[n];
      && row.sourceId == item.sourceId && row.runId == item.runId && row.url == item.url
      && row.rawContent == item.rawContent && row.hash == Some(Fingerprint(md5, item.rawContent))
      && row.status != Pending
  {
    var s := Ingest(md5, st, item, NoFault);
    assert s.raws[..|st.raws|] == st.raws;
  }

  /**
   * A successful mapping marks the new raw row `processed` and adds exactly
   * one cleaned row, which points at it.
   */
  lemma MappedItemCleaned(md5: Hasher, st: State, item: Item)
    requires WellFormed(item.rawContent) && !Stored(st.raws, Fingerprint(md5, item.rawContent))
    requires MapCleaned(|st.raws|, item.sourceId, item.rawContent).Success?
    ensures var s, n := Ingest(md5, st, item, NoFault), |st.raws|;
      && |s.raws| == n + 1 && s.raws[n].status == Processed
      && s.cleaned == st.cleaned + [MapCleaned(n, item.sourceId, item.rawContent).value]
      && s.cleaned[|st.cleaned|].rawDataId == n
      && s.itemsCount == st.itemsCount + 1
  {
  }

  /**
   * A mapping error marks the new raw row `failed`, appends the error marker
   * and no cleaned row; the counter still moves.
   */
  lemma FailedItemMarked(md5: Hasher, st: State, item: Item)
    requires WellFormed(item.rawContent) && !Stored(st.raws, Fingerprint(md5, item.rawContent))
    requires MapCleaned(|st.raws|, item.sourceId, item.rawContent).Failure?
    ensures var s, n := Ingest(md5, st, item, NoFault), |st.raws|;
      && |s.raws| == n + 2 && s.raws[n].status == Failed
      && s.raws[n + 1] == ErrorMarker(item, MapCleaned(n, item.sourceId, item.rawContent).error)
      && s.raws[n + 1].hash.None?
      && s.raws[n + 1].rawContent == JObj([Member("error", JStr(MapCleaned(n, item.sourceId, item.rawContent).error))])
      && s.cleaned == st.cleaned
      && s.itemsCount == st.itemsCount + 1
  {
  }

  /** The counter moves by one exactly on a new content without a database error. */
  lemma ItemsCountMoves(md5: Hasher, st: State, item: Item, fault: StorageFault)
    requires WellFormed(item.rawContent)
    ensures Ingest(md5, st, item, fault).itemsCount
         == st.itemsCount + (if fault == NoFault && !Stored(st.raws, Fingerprint(md5, item.rawContent)) then 1 else 0)
  {
  }

  /** Committed rows are never changed or removed. */
  lemma AppendOnly(md5: Hasher, st: State, item: Item, fault: StorageFault)
    requires WellFormed(item.rawContent)
    ensures var s := Ingest(md5, st, item, fault);
      |st.raws| <= |s.raws| && s.raws[..|st.raws|] == st.raws
      && |st.cleaned| <= |s.cleaned| && s.cleaned[..|st.cleaned|] == st.cleaned
  {
    var s := Ingest(md5, st, item, fault);
    assert s.raws[..|st.raws|] == st.raws;
    assert s.cleaned[..|st.cleaned|] == st.cleaned;
  }

  /** After a committed call, the content's fingerprint is stored, whether it was new or not. */
  lemma StoredAfterIngest(md5: Hasher, st: State, item: Item)
    requires WellFormed(item.rawContent)
    ensures Stored(Ingest(md5, st, item, NoFault).raws, Fingerprint(md5, item.rawContent))
  {
    var h := Fingerprint(md5, item.rawContent);
    var s := Ingest(md5, st, item, NoFault);
    if Lookup(st.raws, h).None? {
      assert s.raws[|st.raws|].hash == Some(h);
    } else {
      var i := Lookup(st.raws, h).value;
      assert s.raws[i].hash == Some(h);
    }
  }

  /**
   * Ingesting a content a second time, in any member order, changes nothing:
   * the second call finds the first call's row.
   */
  lemma IngestTwice(md5: Hasher, st: State, item: Item, again: Item, fault: StorageFault)
    requires WellFormed(item.rawContent) && WellFormed(again.rawContent)
    requires SameContent(item.rawContent, again.rawContent)
    ensures var s := Ingest(md5, st, item, NoFault); Ingest(md5, s, again, fault) == s
  {
    StoredAfterIngest(md5, st, item);
    FingerprintOrderIndependent(md5, item.rawContent, again.rawContent);
  }

  /** At most one raw row per fingerprint. */
  ghost predicate HashesUnique(raws: seq<RawRow>) {
    forall i, j :: 0 <= i < j < |raws| && raws[i].hash.Some? ==> raws[i].hash != raws[j].hash
  }

  /** A row's hash is the fingerprint of its own content. */
  ghost predicate HashesFaithful(md5: Hasher, raws: seq<RawRow>) {
    forall i :: 0 <= i < |raws| && raws[i].hash.Some? ==>
      WellFormed(raws[i].rawContent) && raws[i].hash.value == Fingerprint(md5, raws[i].rawContent)
  }

  /** Nothing committed stays pending, and the hash-less rows are failed error markers. */
  ghost predicate Settled(raws: seq<RawRow>) {
    forall i :: 0 <= i < |raws| ==> raws[i].status != Pending && (raws[i].hash.None? ==> raws[i].status == Failed)
  }

  /** Cleaned rows point at processed raw rows, in insertion order, and every processed row has one. */
  ghost predicate Linked(raws: seq<RawRow>, cleaned: seq<CleanedRow>) {
    && (forall k :: 0 <= k < |cleaned| ==>
          cleaned[k].rawDataId < |raws| && raws[cleaned[k].rawDataId].status == Processed)
    && (forall k, l :: 0 <= k < l < |cleaned| ==> cleaned[k].rawDataId < cleaned[l].rawDataId)
    && (forall i :: 0 <= i < |raws| && raws[i].status == Processed ==>
          exists k :: 0 <= k < |cleaned| && cleaned[k].rawDataId == i)
  }

  /** The invariant of the committed tables. */
  ghost predicate StoreInvariant(md5: Hasher, st: State) {
    HashesUnique(st.raws) && HashesFaithful(md5, st.raws) && Settled(st.raws) && Linked(st.raws, st.cleaned)
  }

  lemma EmptyStoreInvariant(md5: Hasher, count: nat)
    ensures StoreInvariant(md5, State([], [], count))
  {
  }

  /** Appending a row whose hash is new, or who has none, keeps the hashes unique. */
  lemma AppendKeepsUnique(raws: seq<RawRow>, added: seq<RawRow>)
    requires HashesUnique(raws) && |added| >= 1
    requires added[0].hash.Some? && !Stored(raws, added[0].hash.value)
    requires forall k :: 1 <= k < |added| ==> added[k].hash.None?
    ensures HashesUnique(raws + added)
  {
    var s := raws + added;
    forall i, j | 0 <= i < j < |s| && s[i].hash.Some? ensures s[i].hash != s[j].hash {
      if j >= |raws| && j > |raws| {
        assert s[j] == added[j - |raws|];
      } else if j == |raws| {
        assert s[i] == raws[i];
      } else {
        assert s[i] == raws[i] && s[j] == raws[j];
      }
    }
  }

  /** A processed row appended together with a cleaned row pointing at it keeps the links. */
  lemma NewRowLinked(raws: seq<RawRow>, cleaned: seq<CleanedRow>, row: RawRow, c: CleanedRow)
    requires Linked(raws, cleaned) && row.status == Processed && c.rawDataId == |raws|
    ensures Linked(raws + [row], cleaned + [c])
  {
    var s, t := raws + [row], cleaned + [c];
    forall k | 0 <= k < |t| ensures t[k].rawDataId < |s| && s[t[k].rawDataId].status == Processed {
      if k < |cleaned| {
        assert t[k] == cleaned[k] && s[t[k].rawDataId] == raws[t[k].rawDataId];
      }
    }
    forall i | 0 <= i < |s| && s[i].status == Processed ensures exists k :: 0 <= k < |t| && t[k].rawDataId == i {
      if i == |raws| {
        assert t[|cleaned|].rawDataId == i;
      } else {
        assert s[i] == raws[i];
        var k :| 0 <= k < |cleaned| && cleaned[k].rawDataId == i;
        assert t[k].rawDataId == i;
      }
    }
  }

  lemma FailedRowsLinked(raws: seq<RawRow>, cleaned: seq<CleanedRow>, added: seq<RawRow>)
    requires Linked(raws, cleaned) && forall k :: 0 <= k < |added| ==> added[k].status == Failed
    ensures Linked(raws + added, cleaned)
  {
    var s := raws + added;
    forall k | 0 <= k < |cleaned| ensures s[cleaned[k].rawDataId] == raws[cleaned[k].rawDataId] { }
    forall i | |raws| <= i < |s| ensures s[i].status == Failed {
      assert s[i] == added[i - |raws|];
    }
  }

  /** Appending rows that are faithful and settled on their own keeps the whole table so. */
  lemma AppendKeepsFaithfulSettled(md5: Hasher, raws: seq<RawRow>, added: seq<RawRow>)
    requires HashesFaithful(md5, raws) && Settled(raws) && HashesFaithful(md5, added) && Settled(added)
    ensures HashesFaithful(md5, raws + added) && Settled(raws + added)
  {
    var s := raws + added;
    forall i | 0 <= i < |s| ensures s[i] == if i < |raws| then raws[i] else added[i - |raws|] { }
  }

  /** Every call, whatever its outcome, keeps the tables valid. */
  lemma IngestPreservesInvariant(md5: Hasher, st: State, item: Item, fault: StorageFault)
    requires WellFormed(item.rawContent) && StoreInvariant(md5, st)
    ensures StoreInvariant(md5, Ingest(md5, st, item, fault))
  {
    var h := Fingerprint(md5, item.rawContent);
    if fault == NoFault && Lookup(st.raws, h).None? {
      var n, row := |st.raws|, StagedRow(item, h);
      assert !Stored(st.raws, h);
      match MapCleaned(n, item.sourceId, item.rawContent)
      case Success(c) =>
        var added := [row.(status := Processed)];
        AppendKeepsUnique(st.raws, added);
        AppendKeepsFaithfulSettled(md5, st.raws, added);
        NewRowLinked(st.raws, st.cleaned, added[0], c);
      case Failure(e) =>
        var added := [row.(status := Failed), ErrorMarker(item, e)];
        AppendKeepsUnique(st.raws, added);
        AppendKeepsFaithfulSettled(md5, st.raws, added);
        FailedRowsLinked(st.raws, st.cleaned, added);
    }
  }

  /** Under the invariant, two hash-bearing rows of the same content are one row. */
  lemma AtMostOncePerContent(md5: Hasher, st: State, i: nat, j: nat)
    requires StoreInvariant(md5, st) && i < |st.raws| && j < |st.raws|
    requires st.raws[i].hash.Some? && st.raws[j].hash.Some?
    requires SameContent(st.raws[i].rawContent, st.raws[j].rawContent)
    ensures i == j
  {
    FingerprintOrderIndependent(md5, st.raws[i].rawContent, st.raws[j].rawContent);
  }

  /** With unique hashes, a stored hash sits on exactly one row. */
  lemma UniqueRowWithHash(raws: seq<RawRow>, h: string)
    requires HashesUnique(raws) && Stored(raws, h)
    ensures exists i ::
              && 0 <= i < |raws| && raws[i].hash == Some(h)
              && forall j :: 0 <= j < |raws| && raws[j].hash == Some(h) ==> j == i
  {
    var i :| 0 <= i < |raws| && raws[i].hash == Some(h);
    forall j | 0 <= j < |raws| && raws[j].hash == Some(h) ensures j == i {
      assert !(i < j) && !(j < i);
    }
  }

  /** After a committed call on a valid store, exactly one raw row carries the content's fingerprint. */
  lemma ExactlyOneRowPerHash(md5: Hasher, st: State, item: Item)
    requires WellFormed(item.rawContent) && StoreInvariant(md5, st)
    ensures var s, h := Ingest(md5, st, item, NoFault), Fingerprint(md5, item.rawContent);
      exists i :: 0 <= i < |s.raws| && s.raws[i].hash == Some(h)
        && forall j :: 0 <= j < |s.raws| && s.raws[j].hash == Some(h) ==> j == i
  {
    var s, h := Ingest(md5, st, item, NoFault), Fingerprint(md5, item.rawContent);
    assert HashesUnique(s.raws) && Stored(s.raws, h) by {
      StoredAfterIngest(md5, st, item);
      IngestPreservesInvariant(md5, st, item, NoFault);
    }
    UniqueRowWithHash(s.raws, h);
  }

  /** The number of hash-bearing raw rows: one per committed item. */
  function HashedRows(raws: seq<RawRow>): nat {
    if raws == [] then 0
    else HashedRows(raws[..|raws| - 1]) + (if raws[|raws| - 1].hash.Some? then 1 else 0)
  }

  lemma {:induction false} HashedRowsAppend(a: seq<RawRow>, b: seq<RawRow>)
    ensures HashedRows(a + b) == HashedRows(a) + HashedRows(b)
    decreases |b|
  {
    if b == [] {
      assert a + b == a;
    } else {
      var b' := b[..|b| - 1];
      assert (a + b)[..|a + b| - 1] == a + b';
      HashedRowsAppend(a, b');
    }
  }

  /** The counter moves exactly as the number of hash-bearing raw rows does. */
  lemma CountTracksHashedRows(md5: Hasher, st: State, item: Item, fault: StorageFault)
    requires WellFormed(item.rawContent)
    ensures var s := Ingest(md5, st, item, fault);
      s.itemsCount - st.itemsCount == HashedRows(s.raws) - HashedRows(st.raws)
  {
    var s := Ingest(md5, st, item, fault);
    if s != st {
      var added := s.raws[|st.raws|..];
      assert s.raws == st.raws + added;
      HashedRowsAppend(st.raws, added);
      var h := Fingerprint(md5, item.rawContent);
      match MapCleaned(|st.raws|, item.sourceId, item.rawContent)
      case Success(c) =>
        assert added == [StagedRow(item, h).(status := Processed)];
        assert HashedRows(added) == 1 by { assert added[..0] == []; }
      case Failure(e) =>
        assert added == [StagedRow(item, h).(status := Failed), ErrorMarker(item, e)];
        assert HashedRows(added) == 1 by {
          assert added[..1] == [added[0]];
          assert [added[0]][..0] == [];
          assert HashedRows(added[..1]) == 1;
        }
    }
  }

  /** A sequence of calls, each with the database's behaviour on that call. */
  function IngestAll(md5: Hasher, st: State, items: seq<Item>, faults: seq<StorageFault>): State
    requires |faults| == |items| && forall k :: 0 <= k < |items| ==> WellFormed(items[k].rawContent)
    decreases |items|
  {
    if items == [] then st
    else IngestAll(md5, Ingest(md5, st, items[0], faults[0]), items[1..], faults[1..])
  }

  /** Starting from a valid store, any sequence of calls leaves it valid; so each content is persisted at most once. */
  lemma {:induction false} IngestAllInvariant(md5: Hasher, st: State, items: seq<Item>, faults: seq<StorageFault>)
    requires |faults| == |items| && forall k :: 0 <= k < |items| ==> WellFormed(items[k].rawContent)
    requires StoreInvariant(md5, st)
    ensures StoreInvariant(md5, IngestAll(md5, st, items, faults))
    decreases |items|
  {
    if items != [] {
      IngestPreservesInvariant(md5, st, items[0], faults[0]);
      IngestAllInvariant(md5, Ingest(md5, st, items[0], faults[0]), items[1..], faults[1..]);
    }
  }

  /** The database: its two tables, as committed. */
  class Database {
    var raws: seq<RawRow>
    var cleaned: seq<CleanedRow>

    constructor ()
      ensures raws == [] && cleaned == []
    {
      raws := [];
      cleaned := [];
    }
  }

  class DatabasePipeline {
    var itemsCount: nat
    const db: Database
    const md5: Hasher

    constructor (db: Database, md5: Hasher)
      ensures this.db == db && this.md5 == md5 && itemsCount == 0
    {
      this.db := db;
      this.md5 := md5;
      itemsCount := 0;
    }

    function Snapshot(): State
      reads this, db
    {
      State(db.raws, db.cleaned, itemsCount)
    }

    /**
     * `process_item`: the item is always returned; the tables and the counter
     * change as `Ingest` says. The unit of work is staged in locals and only
     * written to the database at the commit.
     */
    method ProcessItem(item: Item, fault: StorageFault) returns (r: Item)
      requires WellFormed(item.rawContent)
      modifies this, db
      ensures r == item
      ensures Snapshot() == Ingest(md5, old(Snapshot()), item, fault)
    {
      r := item;
      var contentHash := Fingerprint(md5, item.rawContent);
      if fault == LookupFails {
        return;
      }
      var existing := Lookup(db.raws, contentHash);
      if existing.Some? {
        return;
      }
      // session.add(raw_data); session.flush()
      var stagedRaws := db.raws + [StagedRow(item, contentHash)];
      if fault == FlushFails {
        return;
      }
      var rawId := |db.raws|;
      var stagedCleaned := db.cleaned;
      var mapped := MapCleaned(rawId, item.sourceId, item.rawContent);
      if mapped.Success? {
        stagedCleaned := stagedCleaned + [mapped.value];
        stagedRaws := stagedRaws[rawId := stagedRaws[rawId].(status := Processed)];
      } else {
        stagedRaws := stagedRaws[rawId := stagedRaws[rawId].(status := Failed)];
        stagedRaws := stagedRaws + [ErrorMarker(item, mapped.error)];
      }
      if fault == CommitFails {
        return;
      }
      db.raws, db.cleaned := stagedRaws, stagedCleaned;
      itemsCount := itemsCount + 1;
    }
  }
}
