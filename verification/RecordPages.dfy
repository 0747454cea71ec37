/**
  Listing local records page by page: which index slot a request reads, which of its records match,
  and what a caller that follows the cursors sees while the store changes under it.
*/
module RecordPages {
  import opened Wrappers
  import opened Text
  import opened RecordSearch
  import opened RecordCut
  import opened RecordKeys

  type Records = map<string, LocalRecord>

  datatype PageOptions = PageOptions(
    limit: int,
    offset: int,
    cursor: string,
    query: string,
    level: string,
    batchID: string,
    tenantID: string,
    clientID: string)

  const NO_FILTER := PageOptions(0, 0, "", "", "", "", "", "")

  datatype Page = Page(items: seq<LocalRecord>, total: int, hasMore: bool, nextCursor: string, totalExact: bool)

  function Limit(opts: PageOptions): (n: int)
    ensures 1 <= n <= 500
  {
    if opts.limit <= 0 then 50 else if opts.limit > 500 then 500 else opts.limit
  }

  function Offset(opts: PageOptions): nat {
    if opts.offset < 0 then 0 else opts.offset
  }

  function EncodeCursor(suffix: string): string {
    if suffix == "" then "" else Encode(Utf8(suffix))
  }

  /** The bytes to continue after; empty for no cursor and for one that is not base64url. */
  function DecodeCursor(cursor: string): seq<byte> {
    if cursor == "" then []
    else match Decode(cursor) case None => [] case Some(raw) => raw
  }

  lemma CursorRoundTrip(suffix: string)
    ensures DecodeCursor(EncodeCursor(suffix)) == Utf8(suffix)
  {
    if suffix != "" { DecodeEncode(Utf8(suffix)); }
  }

  // ---------- the filter ----------

  predicate MatchesQuery(lib: Library, rec: LocalRecord, q: string) {
    || Contains(Lower(lib, rec.fileName), q)
    || Contains(Lower(lib, rec.filePath), q)
    || Contains(Lower(lib, rec.recordID), q)
    || Contains(Lower(lib, rec.contentHashHex), q)
    || Contains(Lower(lib, rec.batchID), q)
    || Contains(Lower(lib, rec.eventType), q)
  }

  predicate Matches(lib: Library, rec: LocalRecord, opts: PageOptions) {
    && (opts.level != "" ==> rec.proofLevel == opts.level)
    && (opts.batchID != "" ==> rec.batchID == opts.batchID)
    && (opts.tenantID != "" ==> rec.tenantID == opts.tenantID)
    && (opts.clientID != "" ==> rec.clientID == opts.clientID)
    && var q := Lower(lib, TrimSpace(lib, opts.query));
    q == "" || MatchesQuery(lib, rec, q)
  }

  /** The texts a query is looked for in. */
  function Searched(rec: LocalRecord): seq<string> {
    [rec.fileName, rec.filePath, rec.recordID, rec.contentHashHex, rec.batchID, rec.eventType]
  }

  /** What a filter asks for and what the record has there. */
  function Filters(rec: LocalRecord, opts: PageOptions): seq<(string, string)> {
    [(opts.level, rec.proofLevel), (opts.batchID, rec.batchID),
     (opts.tenantID, rec.tenantID), (opts.clientID, rec.clientID)]
  }

  ghost predicate Found(lib: Library, texts: seq<string>, q: string) {
    exists i :: 0 <= i < |texts| && Contains(Lower(lib, texts[i]), q)
  }

  /** A record passes if and only if every filter that is set is met, and the query, in lower case and without
      the blanks around it, is empty or occurs in one of the searched texts in lower case. */
  lemma MatchesExactly(lib: Library, rec: LocalRecord, opts: PageOptions)
    ensures Matches(lib, rec, opts) <==>
              && (forall i | 0 <= i < 4 :: Filters(rec, opts)[i].0 in {"", Filters(rec, opts)[i].1})
              && (Lower(lib, TrimSpace(lib, opts.query)) == ""
                  || Found(lib, Searched(rec), Lower(lib, TrimSpace(lib, opts.query))))
  {
    var filters, texts, q := Filters(rec, opts), Searched(rec), Lower(lib, TrimSpace(lib, opts.query));
    assert (forall i | 0 <= i < 4 :: filters[i].0 in {"", filters[i].1}) ==>
        filters[0].0 in {"", filters[0].1} && filters[1].0 in {"", filters[1].1}
        && filters[2].0 in {"", filters[2].1} && filters[3].0 in {"", filters[3].1};
    QueryExactly(lib, rec, q);
  }

  lemma QueryExactly(lib: Library, rec: LocalRecord, q: string)
    ensures MatchesQuery(lib, rec, q) <==> Found(lib, Searched(rec), q)
  {
    var texts := Searched(rec);
    assert texts[0] == rec.fileName && texts[1] == rec.filePath && texts[2] == rec.recordID;
    assert texts[3] == rec.contentHashHex && texts[4] == rec.batchID && texts[5] == rec.eventType;
  }

  /** The slot a request reads, and the counter that gives its total when there is one. */
  function ListSlot(lib: Library, opts: PageOptions): (Slot, Option<string>) {
    var q := TrimSpace(lib, opts.query);
    var token := QueryToken(lib, q);
    if LooksLikeContentHash(lib, q) then (ByHash(TrimContentHashPrefix(lib, q)), None)
    else if token != "" then (ByToken(token), None)
    else if opts.level != "" then (ByLevel(opts.level), Some(LevelCountKey(opts.level)))
    else if opts.batchID != "" then (ByBatch(opts.batchID), None)
    else if opts.tenantID != "" then (ByTenant(opts.tenantID), None)
    else if opts.clientID != "" then (ByClient(opts.clientID), None)
    else (ByTime, if q == "" then Some(COUNT_ALL) else None)
  }

  /** The listing shows a record that is under the slot it reads and passes the filter. */
  predicate Hit(lib: Library, rec: LocalRecord, opts: PageOptions) {
    ListSlot(lib, opts).0 in Slots(lib, rec) && Matches(lib, rec, opts)
  }

  predicate AsksForHash(lib: Library, opts: PageOptions) {
    LooksLikeContentHash(lib, TrimSpace(lib, opts.query))
  }

  function AskedToken(lib: Library, opts: PageOptions): string {
    QueryToken(lib, TrimSpace(lib, opts.query))
  }

  /** Without a content hash or a searchable word in the query, the index hides nothing: the listing
      is a plain filter over all records. */
  lemma PlainListing(lib: Library, rec: LocalRecord, opts: PageOptions)
    requires !AsksForHash(lib, opts) && AskedToken(lib, opts) == ""
    ensures Hit(lib, rec, opts) <==> Matches(lib, rec, opts)
  {
    SlotsAre(lib, rec, ListSlot(lib, opts).0);
  }

  /** With a searchable word, a record is listed exactly when it matches and the token of the query is
      among its first 48. */
  lemma TokenListedExactly(lib: Library, rec: LocalRecord, opts: PageOptions)
    requires !AsksForHash(lib, opts) && AskedToken(lib, opts) != ""
    ensures Hit(lib, rec, opts) <==> Matches(lib, rec, opts) && Indexed(lib, rec, AskedToken(lib, opts))
  {
    SlotsAre(lib, rec, ListSlot(lib, opts).0);
    TokenIndexed(lib, rec, AskedToken(lib, opts));
  }

  /** So a record whose file name contains the token and has at most 48 distinct tokens, as every name of
      at most 24 characters, is listed exactly when it matches, however long its other fields are. */
  lemma NameMatchListed(lib: Library, rec: LocalRecord, opts: PageOptions)
    requires lib.Valid() && !AsksForHash(lib, opts) && AskedToken(lib, opts) != ""
    requires Contains(Lower(lib, rec.fileName), AskedToken(lib, opts))
    requires |rec.fileName| <= 24 || |Distinct(GramsOf(SearchWords(lib, rec.fileName)))| <= MAX_TOKENS
    ensures Hit(lib, rec, opts) <==> Matches(lib, rec, opts)
  {
    if |rec.fileName| <= 24 {
      ShortName(lib, rec.fileName);
    }
    QueryTokenIs(lib, TrimSpace(lib, opts.query));
    NameIndexed(lib, rec, AskedToken(lib, opts));
    TokenListedExactly(lib, rec, opts);
  }

  /** A search for a record's whole ID matches the record and does not list it, when the ID has 48
      different pairs of characters and no earlier field contains its first three. */
  lemma OwnIDNotListed(lib: Library, rec: LocalRecord, opts: PageOptions)
    requires lib.Valid() && PlainID(lib, rec.recordID) && |Distinct(Windows(rec.recordID, 2, 0))| >= MAX_TOKENS
    requires forall f <- [rec.fileName, rec.filePath, rec.batchID] :: !Contains(Lower(lib, f), rec.recordID[..3])
    requires Filter(opts) == NO_FILTER.(query := rec.recordID) && !AsksForHash(lib, opts)
    ensures Matches(lib, rec, opts) && InText(lib, rec, rec.recordID) && !Hit(lib, rec, opts)
  {
    IDWord(lib, rec.recordID);
    assert StandsAt(rec.recordID, rec.recordID, 0);
    assert Fields(rec)[3] == rec.recordID;
    OwnIDCut(lib, rec);
    TokenListedExactly(lib, rec, opts);
  }

  /** For instance a record with an ID of the form the server gives: "tr2" and 52 base32 characters. */
  lemma SampleNotListed(lib: Library, rec: LocalRecord, opts: PageOptions)
    requires lib.Valid() && PlainBase32(lib) && rec.recordID == SampleID()
    requires rec.fileName == rec.filePath == rec.batchID == ""
    requires Filter(opts) == NO_FILTER.(query := SampleID())
    ensures Matches(lib, rec, opts) && InText(lib, rec, rec.recordID) && !Hit(lib, rec, opts)
  {
    SamplePlain(lib);
    SampleWindows();
    IDWord(lib, SampleID());
    assert SampleID()[0] == SampleID()[..3][0] == 't';
    OwnIDNotListed(lib, rec, opts);
  }

  /** A record whose token list was not cut is listed exactly when it matches and one of its five indexed
      fields contains the token. */
  lemma TokenListing(lib: Library, rec: LocalRecord, opts: PageOptions)
    requires lib.Valid() && !AsksForHash(lib, opts) && AskedToken(lib, opts) != "" && NotCut(lib, rec)
    ensures Hit(lib, rec, opts) <==> Matches(lib, rec, opts) && InText(lib, rec, AskedToken(lib, opts))
  {
    SlotsAre(lib, rec, ListSlot(lib, opts).0);
    QueryTokenIs(lib, TrimSpace(lib, opts.query));
    TokensAre(lib, rec, AskedToken(lib, opts));
  }

  /** So the listing is the plain filter for every such record that matches through an indexed field. */
  lemma TextMatchListed(lib: Library, rec: LocalRecord, opts: PageOptions)
    requires lib.Valid() && !AsksForHash(lib, opts) && AskedToken(lib, opts) != "" && NotCut(lib, rec)
    requires InText(lib, rec, Lower(lib, TrimSpace(lib, opts.query)))
    ensures Hit(lib, rec, opts) <==> Matches(lib, rec, opts)
  {
    TokenListing(lib, rec, opts);
    var trimmed, t := TrimSpace(lib, opts.query), AskedToken(lib, opts);
    QueryTokenIs(lib, trimmed);
    TrimKeeps(lib, trimmed, t);
    var f :| f in Fields(rec) && Contains(Lower(lib, f), Lower(lib, trimmed));
    ContainsTrans(Lower(lib, f), Lower(lib, trimmed), t);
  }

  /** A content hash query lists a matching record exactly when its own hash is the one asked for. */
  lemma HashListing(lib: Library, rec: LocalRecord, opts: PageOptions)
    requires AsksForHash(lib, opts)
    ensures Hit(lib, rec, opts) <==>
              && Matches(lib, rec, opts)
              && TrimContentHashPrefix(lib, rec.contentHashHex) ==
                 TrimContentHashPrefix(lib, TrimSpace(lib, opts.query))
  {
    SlotsAre(lib, rec, ListSlot(lib, opts).0);
  }

  // ---------- one page ----------

  /** A record of the store that the listing shows after the position `from`. */
  ghost predicate IsHit(lib: Library, records: Records, opts: PageOptions, from: seq<int>, r: LocalRecord) {
    && r.recordID in records && records[r.recordID] == r
    && Hit(lib, r, opts)
    && (from == [] || Less(from, Utf8(Suffix(lib, r))))
  }

  ghost predicate InOrder(lib: Library, items: seq<LocalRecord>) {
    forall i, j :: 0 <= i < j < |items| ==> Before(Suffix(lib, items[i]), Suffix(lib, items[j]))
  }

  /** All of them, in key order. */
  ghost predicate HitList(lib: Library, records: Records, opts: PageOptions, from: seq<int>, hits: seq<LocalRecord>) {
    InOrder(lib, hits) && forall r :: r in hits <==> IsHit(lib, records, opts, from, r)
  }

  function Skip(opts: PageOptions, n: nat): nat {
    if opts.cursor != "" then 0 else if Offset(opts) < n then Offset(opts) else n
  }

  /** The page is the requested stretch of the list, and says where to continue. */
  ghost predicate CutFrom(lib: Library, opts: PageOptions, hits: seq<LocalRecord>, page: Page) {
    CutAt(CursorFor(lib), hits, Skip(opts, |hits|), Limit(opts), page)
  }

  ghost predicate CutAt(cursorFor: LocalRecord -> string, hits: seq<LocalRecord>, skip: nat, limit: nat, page: Page)
    requires skip <= |hits| && limit > 0
  {
    && page.hasMore == (skip + limit < |hits|)
    && page.items == (if page.hasMore then hits[skip..skip + limit] else hits[skip..])
    && page.nextCursor == (if page.hasMore then cursorFor(hits[skip + limit - 1]) else "")
  }

  /** The cursor that continues after a record. */
  function CursorFor(lib: Library): LocalRecord -> string {
    (rec: LocalRecord) => EncodeCursor(Suffix(lib, rec))
  }

  ghost predicate PageOf(lib: Library, records: Records, opts: PageOptions, page: Page) {
    exists hits :: HitList(lib, records, opts, DecodeCursor(opts.cursor), hits) && CutFrom(lib, opts, hits, page)
  }

  // ---------- following the cursors ----------

  /** One request of a walk: the records at that moment, what was asked, what came back. */
  datatype Visit = Visit(records: Records, opts: PageOptions, page: Page)

  function Filter(opts: PageOptions): PageOptions {
    opts.(limit := 0, offset := 0, cursor := "")
  }

  ghost predicate GoodVisit(lib: Library, filter: PageOptions, v: Visit) {
    PageOf(lib, v.records, v.opts, v.page) && Filter(v.opts) == filter
  }

  /** A walk that starts with cursor `cursor` and follows every next cursor until there is none. The
      records may be different at every visit, and so may the page limits. */
  ghost predicate IsWalk(lib: Library, filter: PageOptions, cursor: string, visits: seq<Visit>)
    decreases |visits|
  {
    && visits != []
    && GoodVisit(lib, filter, visits[0])
    && visits[0].opts.cursor == cursor && (cursor == "" ==> Offset(visits[0].opts) == 0)
    && if visits[0].page.hasMore then IsWalk(lib, filter, visits[0].page.nextCursor, visits[1..]) else |visits| == 1
  }

  /** How often the walk returns the record. */
  function Times(items: seq<LocalRecord>, id: string): nat {
    if items == [] then 0 else (if items[0].recordID == id then 1 else 0) + Times(items[1..], id)
  }

  function TimesReturned(visits: seq<Visit>, id: string): nat {
    if visits == [] then 0 else Times(visits[0].page.items, id) + TimesReturned(visits[1..], id)
  }

  lemma {:induction false} TimesZero(items: seq<LocalRecord>, id: string)
    requires forall i :: 0 <= i < |items| ==> items[i].recordID != id
    ensures Times(items, id) == 0
  {
    if items != [] { TimesZero(items[1..], id); }
  }

  lemma {:induction false} TimesOne(items: seq<LocalRecord>, id: string, n: nat)
    requires n < |items| && items[n].recordID == id
    requires forall i :: 0 <= i < |items| && i != n ==> items[i].recordID != id
    ensures Times(items, id) == 1
  {
    if n == 0 { TimesZero(items[1..], id); } else { TimesOne(items[1..], id, n - 1); }
  }

  /** Present at every visit, always shown by the filter, and never moved to another sort position. */
  ghost predicate Stays(lib: Library, filter: PageOptions, visits: seq<Visit>, id: string, suffix: string) {
    forall v <- visits ::
      && id in v.records && v.records[id].recordID == id
      && Suffix(lib, v.records[id]) == suffix && Hit(lib, v.records[id], filter)
  }

  lemma FilterSame(lib: Library, rec: LocalRecord, opts: PageOptions)
    ensures Hit(lib, rec, opts) == Hit(lib, rec, Filter(opts))
  {}

  /** The record's place in the list of a visit whose cursor has not passed it. */
  lemma PlaceInList(lib: Library, filter: PageOptions, v: Visit, hits: seq<LocalRecord>, id: string, suffix: string)
    returns (n: nat)
    requires Filter(v.opts) == filter && Stays(lib, filter, [v], id, suffix)
    requires HitList(lib, v.records, v.opts, DecodeCursor(v.opts.cursor), hits)
    requires var from := DecodeCursor(v.opts.cursor); from == [] || Less(from, Utf8(suffix))
    ensures n < |hits| && id in v.records && hits[n] == v.records[id] && hits[n].recordID == id
            && Suffix(lib, hits[n]) == suffix
  {
    assert v in [v];
    var r := v.records[id];
    FilterSame(lib, r, v.opts);
    assert IsHit(lib, v.records, v.opts, DecodeCursor(v.opts.cursor), r);
    n :| 0 <= n < |hits| && hits[n] == r;
  }

  lemma HitsOf(lib: Library, v: Visit) returns (hits: seq<LocalRecord>)
    requires PageOf(lib, v.records, v.opts, v.page)
    ensures HitList(lib, v.records, v.opts, DecodeCursor(v.opts.cursor), hits) && CutFrom(lib, v.opts, hits, v.page)
  {
    hits :| HitList(lib, v.records, v.opts, DecodeCursor(v.opts.cursor), hits) && CutFrom(lib, v.opts, hits, v.page);
  }

  /** One visit: the record is on the page, or it is still ahead of the next cursor. */
  lemma VisitOnce(lib: Library, filter: PageOptions, v: Visit, id: string, suffix: string)
    requires GoodVisit(lib, filter, v) && Stays(lib, filter, [v], id, suffix)
    requires v.opts.cursor == "" ==> Offset(v.opts) == 0
    requires var from := DecodeCursor(v.opts.cursor); from == [] || Less(from, Utf8(suffix))
    ensures Times(v.page.items, id) <= 1
    ensures !v.page.hasMore ==> Times(v.page.items, id) == 1
    ensures v.page.hasMore ==> v.page.nextCursor != "" && DecodeCursor(v.page.nextCursor) != []
    ensures v.page.hasMore ==> (Times(v.page.items, id) == 0 <==> Less(DecodeCursor(v.page.nextCursor), Utf8(suffix)))
  {
    var hits := HitsOf(lib, v);
    var n := PlaceInList(lib, filter, v, hits, id, suffix);
    OnlyAt(lib, v, hits, id, n);
    FromTheFirst(CursorFor(lib), hits, Limit(v.opts), v.page);
    CountOnPage(v.page.items, hits, id, n);
    if v.page.hasMore {
      LastOnPage(lib, v, hits, n);
    }
  }

  lemma FromTheFirst(cursorFor: LocalRecord -> string, hits: seq<LocalRecord>, limit: nat, page: Page)
    requires limit > 0 && CutAt(cursorFor, hits, 0, limit, page)
    ensures page.items <= hits && |page.items| == if page.hasMore then limit else |hits|
  {
  }

  lemma CountOnPage(items: seq<LocalRecord>, hits: seq<LocalRecord>, id: string, n: nat)
    requires items <= hits && n < |hits| && hits[n].recordID == id
    requires forall i :: 0 <= i < |hits| && i != n ==> hits[i].recordID != id
    ensures Times(items, id) == if n < |items| then 1 else 0
  {
    if n < |items| { TimesOne(items, id, n); } else { TimesZero(items, id); }
  }

  /** A record occurs once in the ordered list. */
  lemma OnlyAt(lib: Library, v: Visit, hits: seq<LocalRecord>, id: string, n: nat)
    requires HitList(lib, v.records, v.opts, DecodeCursor(v.opts.cursor), hits)
    requires n < |hits| && id in v.records && hits[n] == v.records[id] && hits[n].recordID == id
    ensures forall i :: 0 <= i < |hits| && i != n ==> hits[i].recordID != id
  {
    forall i | 0 <= i < |hits| && hits[i].recordID == id ensures i == n {
      assert hits[i] in hits;
      assert IsHit(lib, v.records, v.opts, DecodeCursor(v.opts.cursor), hits[i]);
      assert hits[i] == hits[n];
      LessIrreflexive(Utf8(Suffix(lib, hits[n])));
      assert !(i < n) && !(n < i);
    }
  }

  lemma OrderDecides(lib: Library, hits: seq<LocalRecord>, last: nat, n: nat)
    requires InOrder(lib, hits) && last < |hits| && n < |hits|
    ensures last < n <==> Before(Suffix(lib, hits[last]), Suffix(lib, hits[n]))
  {
    var a, b := Utf8(Suffix(lib, hits[last])), Utf8(Suffix(lib, hits[n]));
    LessIrreflexive(a);
    if n < last && Less(a, b) {
      assert Before(Suffix(lib, hits[n]), Suffix(lib, hits[last]));
      LessTransitive(a, b, a);
    }
  }

  lemma NextCursorIs(lib: Library, v: Visit, hits: seq<LocalRecord>)
    requires CutFrom(lib, v.opts, hits, v.page) && v.page.hasMore
    ensures var last := hits[Skip(v.opts, |hits|) + Limit(v.opts) - 1];
            && v.page.nextCursor != "" && DecodeCursor(v.page.nextCursor) == Utf8(Suffix(lib, last))
            && DecodeCursor(v.page.nextCursor) != []
  {
    var suffix := Suffix(lib, hits[Skip(v.opts, |hits|) + Limit(v.opts) - 1]);
    assert |suffix| > 0;
    CursorRoundTrip(suffix);
  }

  /** The next cursor separates what was returned from what was not. */
  lemma LastOnPage(lib: Library, v: Visit, hits: seq<LocalRecord>, n: nat)
    requires InOrder(lib, hits) && CutFrom(lib, v.opts, hits, v.page) && v.page.hasMore && n < |hits|
    requires Skip(v.opts, |hits|) == 0
    ensures v.page.nextCursor != "" && DecodeCursor(v.page.nextCursor) != []
    ensures Limit(v.opts) <= n <==> Less(DecodeCursor(v.page.nextCursor), Utf8(Suffix(lib, hits[n])))
  {
    NextCursorIs(lib, v, hits);
    LimitDecides(lib, hits, Limit(v.opts), n, DecodeCursor(v.page.nextCursor));
  }

  lemma LimitDecides(lib: Library, hits: seq<LocalRecord>, limit: nat, n: nat, cursor: seq<int>)
    requires InOrder(lib, hits) && 0 < limit <= |hits| && n < |hits| && cursor == Utf8(Suffix(lib, hits[limit - 1]))
    ensures limit <= n <==> Less(cursor, Utf8(Suffix(lib, hits[n])))
  {
    OrderDecides(lib, hits, limit - 1, n);
  }

  lemma AllAhead(lib: Library, v: Visit, hits: seq<LocalRecord>)
    requires HitList(lib, v.records, v.opts, DecodeCursor(v.opts.cursor), hits) && DecodeCursor(v.opts.cursor) != []
    ensures forall i :: 0 <= i < |hits| ==>
              && hits[i].recordID in v.records && hits[i] == v.records[hits[i].recordID]
              && Less(DecodeCursor(v.opts.cursor), Utf8(Suffix(lib, hits[i])))
  {
    forall i | 0 <= i < |hits|
      ensures hits[i].recordID in v.records && hits[i] == v.records[hits[i].recordID]
           && Less(DecodeCursor(v.opts.cursor), Utf8(Suffix(lib, hits[i])))
    {
      assert hits[i] in hits;
      assert IsHit(lib, v.records, v.opts, DecodeCursor(v.opts.cursor), hits[i]);
    }
  }

  lemma NotBeyond(from: seq<int>, last: seq<int>, x: seq<int>)
    requires Less(from, last) && !Less(from, x)
    ensures !Less(last, x)
  {
    if Less(last, x) { LessTransitive(from, last, x); }
  }

  /** A visit whose cursor has passed the record's position does not return it, and moves on. */
  lemma PassedBy(lib: Library, filter: PageOptions, v: Visit, id: string, suffix: string)
    requires GoodVisit(lib, filter, v) && Stays(lib, filter, [v], id, suffix) && v.opts.cursor != ""
    requires DecodeCursor(v.opts.cursor) != [] && !Less(DecodeCursor(v.opts.cursor), Utf8(suffix))
    ensures Times(v.page.items, id) == 0
    ensures v.page.hasMore ==> v.page.nextCursor != "" && DecodeCursor(v.page.nextCursor) != []
    ensures v.page.hasMore ==> !Less(DecodeCursor(v.page.nextCursor), Utf8(suffix))
  {
    var hits := HitsOf(lib, v);
    PassedInList(lib, filter, v, hits, id, suffix);
    TimesZero(v.page.items, id);
    if v.page.hasMore {
      NextCursorIs(lib, v, hits);
      NotBeyond(DecodeCursor(v.opts.cursor), DecodeCursor(v.page.nextCursor), Utf8(suffix));
    }
  }

  lemma PassedInList(lib: Library, filter: PageOptions, v: Visit, hits: seq<LocalRecord>, id: string, suffix: string)
    requires HitList(lib, v.records, v.opts, DecodeCursor(v.opts.cursor), hits) && Stays(lib, filter, [v], id, suffix)
    requires DecodeCursor(v.opts.cursor) != [] && !Less(DecodeCursor(v.opts.cursor), Utf8(suffix))
    ensures forall i :: 0 <= i < |hits| ==> hits[i].recordID != id
    ensures forall i :: 0 <= i < |hits| ==> Less(DecodeCursor(v.opts.cursor), Utf8(Suffix(lib, hits[i])))
  {
    AllAhead(lib, v, hits);
    assert v in [v];
  }

  /** Once the cursor has passed a record's position, the record is not returned again. */
  lemma {:induction false} NeverAgain(lib: Library, filter: PageOptions, cursor: string, visits: seq<Visit>,
                                      id: string, suffix: string)
    requires IsWalk(lib, filter, cursor, visits) && Stays(lib, filter, visits, id, suffix)
    requires cursor != "" && DecodeCursor(cursor) != [] && !Less(DecodeCursor(cursor), Utf8(suffix))
    ensures TimesReturned(visits, id) == 0
    decreases |visits|
  {
    var v := visits[0];
    assert v in visits;
    PassedBy(lib, filter, v, id, suffix);
    if v.page.hasMore {
      NeverAgain(lib, filter, v.page.nextCursor, visits[1..], id, suffix);
    } else {
      assert visits[1..] == [];
    }
  }

  lemma {:induction false} ReturnedOnce(lib: Library, filter: PageOptions, cursor: string, visits: seq<Visit>,
                                        id: string, suffix: string)
    requires IsWalk(lib, filter, cursor, visits) && Stays(lib, filter, visits, id, suffix)
    requires DecodeCursor(cursor) == [] || Less(DecodeCursor(cursor), Utf8(suffix))
    ensures TimesReturned(visits, id) == 1
    decreases |visits|
  {
    var v := visits[0];
    assert v in visits;
    VisitOnce(lib, filter, v, id, suffix);
    if !v.page.hasMore {
      assert visits[1..] == [];
    } else if Times(v.page.items, id) == 0 {
      ReturnedOnce(lib, filter, v.page.nextCursor, visits[1..], id, suffix);
    } else {
      NeverAgain(lib, filter, v.page.nextCursor, visits[1..], id, suffix);
    }
  }

  /** Following the cursors from the start returns a record exactly once if it is in the store at every
      visit, passes the filter each time and keeps its sort position, whatever happens to the others. */
  lemma ExactlyOnce(lib: Library, filter: PageOptions, visits: seq<Visit>, id: string, suffix: string)
    requires IsWalk(lib, filter, "", visits) && Stays(lib, filter, visits, id, suffix)
    ensures TimesReturned(visits, id) == 1
  {
    ReturnedOnce(lib, filter, "", visits, id, suffix);
  }

  /** Everything on a page with more to come is at or before its next cursor. */
  lemma UpToCursor(lib: Library, v: Visit, i: nat)
    requires PageOf(lib, v.records, v.opts, v.page) && v.page.hasMore && i < |v.page.items|
    ensures DecodeCursor(v.page.nextCursor) != []
    ensures var p := Utf8(Suffix(lib, v.page.items[i]));
            p == DecodeCursor(v.page.nextCursor) || Less(p, DecodeCursor(v.page.nextCursor))
  {
    var hits := HitsOf(lib, v);
    UpToLast(lib, v, hits, i);
  }

  lemma UpToLast(lib: Library, v: Visit, hits: seq<LocalRecord>, i: nat)
    requires InOrder(lib, hits) && CutFrom(lib, v.opts, hits, v.page) && v.page.hasMore && i < |v.page.items|
    ensures DecodeCursor(v.page.nextCursor) != []
    ensures var p := Utf8(Suffix(lib, v.page.items[i]));
            p == DecodeCursor(v.page.nextCursor) || Less(p, DecodeCursor(v.page.nextCursor))
  {
    NextCursorIs(lib, v, hits);
    var k, last := ItemInList(lib, v, hits, i);
    AtOrBefore(lib, hits, k, last);
  }

  lemma ItemInList(lib: Library, v: Visit, hits: seq<LocalRecord>, i: nat) returns (k: nat, last: nat)
    requires CutFrom(lib, v.opts, hits, v.page) && v.page.hasMore && i < |v.page.items|
    ensures k <= last < |hits| && last == Skip(v.opts, |hits|) + Limit(v.opts) - 1 && hits[k] == v.page.items[i]
  {
    k := ItemOnCut(CursorFor(lib), hits, Skip(v.opts, |hits|), Limit(v.opts), v.page, i);
    last := Skip(v.opts, |hits|) + Limit(v.opts) - 1;
  }

  lemma ItemOnCut(cursorFor: LocalRecord -> string, hits: seq<LocalRecord>, skip: nat, limit: nat, page: Page, i: nat)
    returns (k: nat)
    requires skip <= |hits| && limit > 0 && CutAt(cursorFor, hits, skip, limit, page)
    requires page.hasMore && i < |page.items|
    ensures k <= skip + limit - 1 < |hits| && hits[k] == page.items[i]
  {
    k := skip + i;
  }

  lemma AtOrBefore(lib: Library, hits: seq<LocalRecord>, k: nat, last: nat)
    requires InOrder(lib, hits) && k <= last < |hits|
    ensures k == last || Less(Utf8(Suffix(lib, hits[k])), Utf8(Suffix(lib, hits[last])))
  {
    if k < last { assert Before(Suffix(lib, hits[k]), Suffix(lib, hits[last])); }
  }

  /** Everything on a page is after the cursor it was asked for. */
  lemma AfterCursor(lib: Library, w: Visit, j: nat)
    requires PageOf(lib, w.records, w.opts, w.page) && DecodeCursor(w.opts.cursor) != [] && j < |w.page.items|
    ensures Less(DecodeCursor(w.opts.cursor), Utf8(Suffix(lib, w.page.items[j])))
  {
    var hits := HitsOf(lib, w);
    AllAhead(lib, w, hits);
    assert w.page.items[j] in hits;
  }

  /** Whatever changed in between, everything on a page comes after everything on the page before it. */
  lemma PagesInOrder(lib: Library, v: Visit, w: Visit, i: nat, j: nat)
    requires PageOf(lib, v.records, v.opts, v.page) && PageOf(lib, w.records, w.opts, w.page)
    requires v.page.hasMore && w.opts.cursor == v.page.nextCursor
    requires i < |v.page.items| && j < |w.page.items|
    ensures Before(Suffix(lib, v.page.items[i]), Suffix(lib, w.page.items[j]))
  {
    UpToCursor(lib, v, i);
    AfterCursor(lib, w, j);
    var p, c, q := Utf8(Suffix(lib, v.page.items[i])), DecodeCursor(v.page.nextCursor),
                   Utf8(Suffix(lib, w.page.items[j]));
    if p != c { LessTransitive(p, c, q); }
  }

  // ---------- a match the index does not show ----------

  /** Characters a concrete example relies on. */
  ghost predicate PlainCharacters(lib: Library) {
    && (forall c :: c == 'a' || c == 'b' ==> lib.lower(c) == c && lib.alnum(c) && !lib.space(c))
    && lib.lower('!') == '!' && !lib.alnum('!')
  }

  lemma QueryAB(lib: Library)
    requires PlainCharacters(lib)
    ensures TrimSpace(lib, "ab") == "ab" && Lower(lib, "ab") == "ab" && QueryToken(lib, "ab") == "ab"
    ensures !LooksLikeContentHash(lib, "ab")
  {
    assert Words(lib, "", "ab") == ["ab"];
    assert "b"[1..] == "" && "ab"[1..] == "b";
    assert "" + ['a'] == "a" && "a" + ['b'] == "ab";
    assert Words(lib, "b", "a") == ["ab"];
    assert Words(lib, "ab", "") == ["ab"];
  }

  /** For instance, this record matches only through its content hash, has the token in no indexed
      field, and is not listed. */
  lemma HashOnlyMissed(lib: Library, rec: LocalRecord, opts: PageOptions)
    requires lib.Valid() && PlainCharacters(lib)
    requires Fields(rec) == ["", "", "", "!", ""] && rec.contentHashHex == "ab"
    requires Filter(opts) == PageOptions(0, 0, "", "ab", "", "", "", "")
    ensures Matches(lib, rec, opts) && !Hit(lib, rec, opts)
  {
    QueryAB(lib);
    assert StandsAt("ab", "ab", 0);
    forall f | f in Fields(rec) ensures !Contains(Lower(lib, f), "ab") {
      assert |f| <= 1;
    }
    AllGramsAre(lib, rec, "ab");
    CollectKeeps(AllGrams(lib, rec), []);
    assert "ab" !in Distinct(AllGrams(lib, rec));
    SlotsAre(lib, rec, ByToken("ab"));
  }
}
