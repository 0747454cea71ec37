/**
  The record database object of the desktop client and the import of its legacy files.
*/
module RecordDB {
  import opened Wrappers
  import opened Text
  import opened RecordSearch
  import opened RecordKeys
  import opened RecordStore
  import opened RecordPages
  import opened RecordScan

  const CHUNK := 500

  class LocalRecordDB {
    const lib: Library
    var kv: KV
    ghost var records: Records

    /** The index is exact. Between the chunks of an import this is all that holds. */
    ghost predicate IndexValid()
      reads this
    {
      IndexAgrees(KeysOf(lib), kv, records)
    }

    /** The index and all counters are exact. */
    ghost predicate Valid()
      reads this
    {
      Agrees(KeysOf(lib), kv, records)
    }

    constructor (lib: Library)
      ensures Valid() && records == map[] && kv == map[] && this.lib == lib
    {
      this.lib := lib;
      kv := map[];
      records := map[];
    }

    method Get(id: string) returns (rec: Option<LocalRecord>)
      requires IndexValid()
      ensures rec == if id in records then Some(records[id]) else None
    {
      LookupIs(kv, records, id);
      rec := Lookup(kv, id);
    }

    /** A record without an ID is ignored. */
    method Upsert(rec: LocalRecord)
      requires Valid()
      modifies this
      ensures Valid()
      ensures records == if rec.recordID == "" then old(records) else old(records)[rec.recordID := rec]
      ensures rec.recordID == "" ==> kv == old(kv)
    {
      if rec.recordID == "" {
        return;
      }
      KeysOfSeparates(lib);
      kv := PutInto(KeysOf(lib), kv, records, rec);
      records := records[rec.recordID := rec];
    }

    method Delete(id: string)
      requires Valid()
      modifies this
      ensures Valid()
      ensures records == old(records) - {id}
      ensures id !in old(records) ==> kv == old(kv)
    {
      var was := Get(id);
      if was.None? {
        assert records == records - {id};
        return;
      }
      KeysOfSeparates(lib);
      kv := RemoveFrom(KeysOf(lib), kv, records, was.value, id);
      records := records - {id};
    }

    // ---------- listing ----------

    /** Every record once, newest first. */
    method ListAll() returns (recs: seq<LocalRecord>)
      requires IndexValid()
      ensures HitList(lib, records, NO_FILTER, [], recs)
    {
      var keys := Seek(kv, Prefix(ByTime), []);
      AcceptsAll(lib);
      recs := VisitAll(kv, keys, Accepts(lib, NO_FILTER));
      NoFilterSlot(lib);
      ScanGivesHits(lib, kv, records, NO_FILTER, [], keys);
    }

    method ListPage(opts: PageOptions) returns (page: Page)
      requires Valid()
      ensures PageOf(lib, records, opts, page)
      ensures page.totalExact == ListSlot(lib, opts).1.Some?
      ensures page.totalExact ==> page.total == Counter(kv, ListSlot(lib, opts).1.value)
      ensures !page.totalExact ==> page.total == AtLeast(opts, page)
      ensures OnlyLevel(lib, opts) ==> page.totalExact && page.total == |Matching(lib, records, opts)|
    {
      var (slot, counter) := ListSlot(lib, opts);
      var cursor := DecodeCursor(opts.cursor);
      var keys := Seek(kv, Prefix(slot), cursor);
      ghost var hits;
      page, hits := BuildPage(lib, kv, Accepts(lib, opts), opts, keys);
      if counter.Some? {
        page := page.(total := Counter(kv, counter.value), totalExact := true);
      }
      ScanGivesHits(lib, kv, records, opts, cursor, keys);
      CutIsPage(lib, records, opts, hits, page);
      if OnlyLevel(lib, opts) {
        LevelTotal(lib, kv, records, opts);
      }
    }

    // ---------- importing ----------

    method RebuildCounters()
      requires IndexValid()
      modifies this
      ensures Valid() && records == old(records)
      ensures META_MIGRATED in kv <==> META_MIGRATED in old(kv)
    {
      var recs := ListAll();
      var ops := RebuildOps(lib, kv, records, recs);
      kv := Commit(kv, ops);
    }

    /** Imports chunk by chunk and then rebuilds the counters. The process dies once `crashAfter` chunks
        are committed, if it gets that far. */
    method UpsertMany(recs: seq<LocalRecord>, crashAfter: nat) returns (done: bool, ghost imported: nat)
      requires IndexValid() && ChunksDistinct(recs)
      modifies this
      ensures imported <= |recs| && records == PutAll(old(records), recs[..imported])
      ensures IndexValid()
      ensures done ==> Valid() && imported == |recs|
      ensures crashAfter > |recs| ==> done
      ensures META_MIGRATED in kv <==> META_MIGRATED in old(kv)
    {
      var start, committed := 0, 0;
      imported := 0;
      assert recs[..0] == [];
      while start < |recs|
        invariant IndexValid() && start % CHUNK == 0 && committed <= start
        invariant committed <= imported == (if start < |recs| then start else |recs|)
        invariant records == PutAll(old(records), recs[..imported])
        invariant META_MIGRATED in kv <==> META_MIGRATED in old(kv)
        decreases |recs| - start
      {
        if committed == crashAfter {
          return false, imported;
        }
        imported := ImportNext(recs, start, old(records));
        NextChunk(start);
        start, committed := start + CHUNK, committed + 1;
      }
      if committed == crashAfter {
        return false, imported;
      }
      RebuildCounters();
      done := true;
    }

    /** The chunk that begins at `start`. */
    method ImportNext(recs: seq<LocalRecord>, start: nat, ghost base: Records) returns (ghost imported: nat)
      requires IndexValid() && ChunksDistinct(recs) && start < |recs| && start % CHUNK == 0
      requires records == PutAll(base, recs[..start])
      modifies this
      ensures IndexValid() && start < imported == if start + CHUNK < |recs| then start + CHUNK else |recs|
      ensures records == PutAll(base, recs[..imported])
      ensures META_MIGRATED in kv <==> META_MIGRATED in old(kv)
    {
      var chunk := ChunkAt(recs, start);
      ImportChunk(chunk);
      PutAllConcat(base, recs[..start], chunk);
      ChunkFollows(recs, start);
      imported := start + |chunk|;
    }

    /** One batch: every record is looked up before the batch is committed. */
    method ImportChunk(chunk: seq<LocalRecord>)
      requires IndexValid() && DistinctIDs(chunk)
      modifies this
      ensures IndexValid() && records == PutAll(old(records), chunk)
      ensures META_MIGRATED in kv <==> META_MIGRATED in old(kv)
    {
      var ops := StageChunk(KeysOf(lib), kv, chunk);
      KeysOfSeparates(lib);
      ChunkAgrees(KeysOf(lib), kv, kv, records, chunk);
      MetaApart();
      assert SameAt(kv, Commit(kv, ops), META_MIGRATED);
      kv := Commit(kv, ops);
      records := PutAll(records, chunk);
    }

    /** Imports the legacy files once. The process may die after any committed chunk, or before the
        migration is marked; it is then run again on the next start. */
    method MigrateLegacy(config: seq<LocalRecord>, log: seq<LogLine>, crashAfter: nat, dieUnmarked: bool)
      returns (done: bool)
      requires IndexValid() && (Valid() || Legacy(config, log) != map[])
      requires META_MIGRATED !in kv ==> PartOf(records, Legacy(config, log))
      modifies this
      ensures IndexValid() && (Valid() || Legacy(config, log) != map[])
      ensures done <==> META_MIGRATED in kv
      ensures META_MIGRATED in old(kv) ==> kv == old(kv) && records == old(records)
      ensures META_MIGRATED !in old(kv) ==> PartOf(records, Legacy(config, log))
      ensures META_MIGRATED !in old(kv) && done ==> Valid() && records == Legacy(config, log)
      ensures !dieUnmarked && crashAfter > |Legacy(config, log)| ==> done
    {
      if META_MIGRATED in kv {
        return true;
      }
      var byID := LoadLegacy(config, log);
      done := ImportAll(byID, crashAfter);
      if !done || dieUnmarked {
        return false;
      }
      MarkMigrated();
    }

    method MarkMigrated()
      requires Valid()
      modifies this
      ensures Valid() && records == old(records) && META_MIGRATED in kv
      ensures forall k :: k != META_MIGRATED ==> SameAt(old(kv), kv, k)
    {
      KeysOfSeparates(lib);
      MarkKeeps(KeysOf(lib), kv, records);
      kv := kv[META_MIGRATED := Mark];
    }

    method ImportAll(byID: Records, crashAfter: nat) returns (done: bool)
      requires IndexValid() && OwnIDs(byID) && PartOf(records, byID) && (byID == map[] ==> Valid())
      modifies this
      ensures IndexValid() && PartOf(records, byID) && (byID == map[] ==> Valid())
      ensures done ==> Valid() && records == byID
      ensures crashAfter > |byID| ==> done
      ensures META_MIGRATED in kv <==> META_MIGRATED in old(kv)
    {
      var recs := Values(byID);
      if |recs| == 0 {
        return true;
      }
      ListsChunks(recs, byID);
      ghost var imported;
      done, imported := UpsertMany(recs, crashAfter);
      PrefixImported(old(records), byID, recs, imported);
    }
  }

  /** A line of the legacy log: an upsert, a delete, or something that is skipped. */
  datatype LogLine = LogUpsert(rec: LocalRecord) | LogDelete(id: string) | LogOther

  function FoldLog(byID: Records, log: seq<LogLine>): Records
    decreases |log|
  {
    if log == [] then byID else FoldLog(Applied(byID, log[0]), log[1..])
  }

  function Applied(byID: Records, line: LogLine): Records {
    match line
    case LogUpsert(rec) => if rec.recordID == "" then byID else byID[rec.recordID := rec]
    case LogDelete(id) => byID - {id}
    case LogOther => byID
  }

  /** What the legacy files say: the configured records, then the log applied in order. */
  function Legacy(config: seq<LocalRecord>, log: seq<LogLine>): Records {
    FoldLog(PutAll(map[], config), log)
  }

  /** A line that says something about an ID; an upsert without an ID is skipped. */
  predicate Mentions(line: LogLine, id: string) {
    match line
    case LogUpsert(rec) => rec.recordID == id && id != ""
    case LogDelete(x) => x == id
    case LogOther => false
  }

  /** The last line that mentions the ID. */
  ghost predicate LastLine(log: seq<LogLine>, id: string, k: nat) {
    k < |log| && Mentions(log[k], id) && forall j | k < j < |log| :: !Mentions(log[j], id)
  }

  ghost predicate LastConfig(config: seq<LocalRecord>, id: string, k: nat) {
    k < |config| && config[k].recordID == id && forall j | k < j < |config| :: config[j].recordID != id
  }

  /** What the legacy files say about one ID: the last line that mentions it decides, and without one the
      last configured record; an upsert gives the record, a delete and no mention give none, and there is
      no record without an ID. */
  ghost predicate SaysOf(config: seq<LocalRecord>, log: seq<LogLine>, byID: Records, id: string) {
    && (id == "" ==> id !in byID)
    && (forall k: nat | LastLine(log, id, k) ::
          if log[k].LogUpsert? then id in byID && byID[id] == log[k].rec else id !in byID)
    && (Unmentioned(log, id) && id != "" ==> ConfigSaysOf(config, byID, id))
  }

  ghost predicate Unmentioned(log: seq<LogLine>, id: string) {
    forall j | 0 <= j < |log| :: !Mentions(log[j], id)
  }

  ghost predicate ConfigSaysOf(config: seq<LocalRecord>, byID: Records, id: string) {
    && (forall k: nat | LastConfig(config, id, k) :: id in byID && byID[id] == config[k])
    && (Unconfigured(config, id) ==> id !in byID)
  }

  ghost predicate Unconfigured(config: seq<LocalRecord>, id: string) {
    forall j | 0 <= j < |config| :: config[j].recordID != id
  }

  ghost predicate Says(config: seq<LocalRecord>, log: seq<LogLine>, byID: Records) {
    forall id :: SaysOf(config, log, byID, id)
  }

  /** Each ID has a last mention or none, so the clauses above leave nothing open. */
  lemma SaysAll(config: seq<LocalRecord>, log: seq<LogLine>, a: Records, b: Records)
    requires Says(config, log, a) && Says(config, log, b)
    ensures a == b
  {
    forall id ensures (id in a <==> id in b) && (id in a ==> a[id] == b[id]) {
      assert SaysOf(config, log, a, id) && SaysOf(config, log, b, id);
      LastOfLog(log, id);
      LastOfConfig(config, id);
    }
  }

  lemma {:induction false} LastOfLog(log: seq<LogLine>, id: string)
    ensures Unmentioned(log, id) || exists k: nat :: LastLine(log, id, k)
  {
    if log != [] {
      var n := |log| - 1;
      if Mentions(log[n], id) {
        assert LastLine(log, id, n);
      } else {
        LastOfLog(log[..n], id);
        if k: nat :| LastLine(log[..n], id, k) {
          assert LastLine(log, id, k);
        }
      }
    }
  }

  lemma {:induction false} LastOfConfig(config: seq<LocalRecord>, id: string)
    ensures Unconfigured(config, id) || exists k: nat :: LastConfig(config, id, k)
  {
    if config != [] {
      var n := |config| - 1;
      if config[n].recordID == id {
        assert LastConfig(config, id, n);
      } else {
        LastOfConfig(config[..n], id);
        if k: nat :| LastConfig(config[..n], id, k) {
          assert LastConfig(config, id, k);
        }
      }
    }
  }

  /** One more configured record. */
  lemma ConfigSays(config: seq<LocalRecord>, rec: LocalRecord, byID: Records, byID': Records, id: string)
    requires ConfigSaysOf(config, byID, id) && id != ""
    requires byID' == if rec.recordID == "" then byID else byID[rec.recordID := rec]
    ensures ConfigSaysOf(config + [rec], byID', id)
  {
    var more := config + [rec];
    assert more[|config|] == rec && forall j | 0 <= j < |config| :: more[j] == config[j];
    forall k: nat | LastConfig(more, id, k) ensures id in byID' && byID'[id] == more[k] {
      if k < |config| {
        assert LastConfig(config, id, k);
      }
    }
  }

  /** One more line. */
  lemma LineSays(config: seq<LocalRecord>, log: seq<LogLine>, line: LogLine, byID: Records, id: string)
    requires SaysOf(config, log, byID, id)
    ensures SaysOf(config, log + [line], Applied(byID, line), id)
  {
    var more, byID' := log + [line], Applied(byID, line);
    assert more[|log|] == line && forall j | 0 <= j < |log| :: more[j] == log[j];
    if Mentions(line, id) {
      assert Mentions(more[|log|], id);
    } else {
      Unaffected(byID, line, id);
      forall k: nat | LastLine(more, id, k) ensures LastLine(log, id, k) && more[k] == log[k] {
      }
      assert Unmentioned(more, id) ==> Unmentioned(log, id);
    }
  }

  lemma Unaffected(byID: Records, line: LogLine, id: string)
    requires !Mentions(line, id) && (id == "" ==> id !in byID)
    ensures var byID' := Applied(byID, line);
            (id in byID' <==> id in byID) && (id in byID ==> byID'[id] == byID[id])
  {
  }

  ghost predicate PartOf(a: Records, b: Records) {
    forall id <- a :: id in b && a[id] == b[id]
  }

  lemma {:induction false} ConfigFold(done: seq<LocalRecord>, rest: seq<LocalRecord>, byID: Records)
    requires Says(done, [], byID)
    ensures Says(done + rest, [], PutAll(byID, rest))
    decreases |rest|
  {
    if rest == [] {
      assert done + rest == done;
    } else {
      var byID' := if rest[0].recordID == "" then byID else byID[rest[0].recordID := rest[0]];
      forall id ensures SaysOf(done + [rest[0]], [], byID', id) {
        assert SaysOf(done, [], byID, id) && Unmentioned([], id);
        if id != "" {
          ConfigSays(done, rest[0], byID, byID', id);
        }
      }
      ConfigFold(done + [rest[0]], rest[1..], byID');
      assert done + rest == done + [rest[0]] + rest[1..];
    }
  }

  lemma {:induction false} LogFold(config: seq<LocalRecord>, done: seq<LogLine>, rest: seq<LogLine>, byID: Records)
    requires Says(config, done, byID)
    ensures Says(config, done + rest, FoldLog(byID, rest))
    decreases |rest|
  {
    if rest == [] {
      assert done + rest == done;
    } else {
      var byID' := Applied(byID, rest[0]);
      forall id ensures SaysOf(config, done + [rest[0]], byID', id) {
        assert SaysOf(config, done, byID, id);
        LineSays(config, done, rest[0], byID, id);
      }
      LogFold(config, done + [rest[0]], rest[1..], byID');
      assert done + rest == done + [rest[0]] + rest[1..];
    }
  }

  lemma LegacySays(config: seq<LocalRecord>, log: seq<LogLine>)
    ensures Says(config, log, Legacy(config, log))
  {
    forall id ensures SaysOf([], [], map[], id) {
    }
    ConfigFold([], config, map[]);
    assert [] + config == config;
    LogFold(config, [], log, PutAll(map[], config));
    assert [] + log == log;
  }

  /** The loops over the configured records and the log lines. */
  method LoadLegacy(config: seq<LocalRecord>, log: seq<LogLine>) returns (byID: Records)
    ensures byID == Legacy(config, log) && OwnIDs(byID)
    ensures Says(config, log, byID)
  {
    byID := map[];
    assert config[0..] == config && log[0..] == log;
    for i := 0 to |config|
      invariant OwnIDs(byID) && PutAll(map[], config) == PutAll(byID, config[i..])
    {
      assert config[i..][1..] == config[i + 1..];
      if config[i].recordID != "" {
        byID := byID[config[i].recordID := config[i]];
      }
    }
    for i := 0 to |log|
      invariant OwnIDs(byID) && Legacy(config, log) == FoldLog(byID, log[i..])
    {
      assert log[i..][1..] == log[i + 1..];
      match log[i]
      case LogUpsert(rec) =>
        if rec.recordID != "" {
          byID := byID[rec.recordID := rec];
        }
      case LogDelete(id) => byID := byID - {id};
      case LogOther =>
    }
    LegacySays(config, log);
  }

  /** The records of the map, in no particular order. */
  ghost predicate Lists(recs: seq<LocalRecord>, byID: Records) {
    && |recs| == |byID|
    && (forall i, j :: 0 <= i < j < |recs| ==> recs[i].recordID != recs[j].recordID)
    && (forall r <- recs :: r.recordID != "" && r.recordID in byID && byID[r.recordID] == r)
    && (forall id <- byID :: byID[id] in recs)
  }

  method Values(byID: Records) returns (recs: seq<LocalRecord>)
    requires OwnIDs(byID)
    ensures Lists(recs, byID)
  {
    recs := [];
    var left := byID;
    while left != map[]
      invariant HalfListed(recs, left, byID)
      decreases |left|
    {
      var id :| id in left;
      ListOne(recs, left, byID, id);
      recs, left := recs + [left[id]], left - {id};
    }
  }

  /** The records not left are listed, each once. */
  ghost predicate HalfListed(recs: seq<LocalRecord>, left: Records, byID: Records) {
    && PartOf(left, byID) && |recs| + |left| == |byID|
    && (forall i, j :: 0 <= i < j < |recs| ==> recs[i].recordID != recs[j].recordID)
    && (forall r <- recs :: r.recordID != "" && r.recordID in byID && byID[r.recordID] == r && r.recordID !in left)
    && (forall id <- byID :: id in left || byID[id] in recs)
  }

  lemma ListOne(recs: seq<LocalRecord>, left: Records, byID: Records, id: string)
    requires OwnIDs(byID) && HalfListed(recs, left, byID) && id in left
    ensures HalfListed(recs + [left[id]], left - {id}, byID) && |left - {id}| < |left|
  {
    assert (left - {id}).Keys == left.Keys - {id};
    var recs', left' := recs + [left[id]], left - {id};
    NoneTwice(recs, left, byID, id);
    forall other | other in byID ensures other in left' || byID[other] in recs' {
      ListedStill(recs, left, byID, id, other);
    }
  }

  lemma NoneTwice(recs: seq<LocalRecord>, left: Records, byID: Records, id: string)
    requires OwnIDs(byID) && HalfListed(recs, left, byID) && id in left
    ensures var recs' := recs + [left[id]];
            forall i, j :: 0 <= i < j < |recs'| ==> recs'[i].recordID != recs'[j].recordID
  {
    forall i | 0 <= i < |recs| ensures recs[i].recordID != left[id].recordID {
      assert recs[i] in recs;
    }
  }

  lemma ListedStill(recs: seq<LocalRecord>, left: Records, byID: Records, id: string, other: string)
    requires HalfListed(recs, left, byID) && id in left && other in byID
    ensures other in left - {id} || byID[other] in recs + [left[id]]
  {
    assert other == id ==> (recs + [left[id]])[|recs|] == byID[other];
    assert other in left || byID[other] in recs;
  }

  lemma ListsChunks(recs: seq<LocalRecord>, byID: Records)
    requires Lists(recs, byID)
    ensures ChunksDistinct(recs)
  {}

  lemma {:induction false} PutAllOwn(records: Records, byID: Records, recs: seq<LocalRecord>)
    requires forall r <- recs :: r.recordID != "" && r.recordID in byID && byID[r.recordID] == r
    requires PartOf(records, byID)
    ensures PartOf(PutAll(records, recs), byID)
    ensures forall r <- recs :: r.recordID in PutAll(records, recs)
    ensures forall id <- records :: id in PutAll(records, recs)
    decreases |recs|
  {
    if recs != [] {
      PutAllOwn(records[recs[0].recordID := recs[0]], byID, recs[1..]);
      assert recs == [recs[0]] + recs[1..];
    }
  }

  /** A partly imported store holds part of the legacy records, and a fully imported one all of them. */
  lemma PrefixImported(records: Records, byID: Records, recs: seq<LocalRecord>, imported: nat)
    requires Lists(recs, byID) && OwnIDs(byID) && PartOf(records, byID) && imported <= |recs|
    ensures PartOf(PutAll(records, recs[..imported]), byID)
    ensures imported == |recs| ==> PutAll(records, recs[..imported]) == byID
  {
    PutAllOwn(records, byID, recs[..imported]);
    if imported == |recs| {
      assert recs[..imported] == recs;
      AllImported(records, byID, recs);
    }
  }

  lemma AllImported(records: Records, byID: Records, recs: seq<LocalRecord>)
    requires Lists(recs, byID) && OwnIDs(byID) && PartOf(records, byID)
    ensures PutAll(records, recs) == byID
  {
    PutAllOwn(records, byID, recs);
    forall id | id in byID ensures id in PutAll(records, recs) {
      assert byID[id] in recs && byID[id].recordID == id;
    }
  }

  lemma MarkKeeps(keysOf: KeyFunction, kv: KV, records: Records)
    requires Separating(keysOf) && Agrees(keysOf, kv, records)
    ensures Agrees(keysOf, kv[META_MIGRATED := Mark], records)
  {
    MetaApart();
    IndexFrame(keysOf, kv, kv[META_MIGRATED := Mark], records);
    MarkKeepsCounters(kv, records);
  }

  lemma MarkKeepsCounters(kv: KV, records: Records)
    requires CountersAgree(kv, records)
    ensures CountersAgree(kv[META_MIGRATED := Mark], records)
  {
    MetaApart();
    forall k | IsCounter(k) ensures Counter(kv[META_MIGRATED := Mark], k) == Counter(kv, k) {}
    forall l | l != "" ensures Counter(kv[META_MIGRATED := Mark], LevelCountKey(l)) == |AtLevel(records, l)| {
      LevelKeyArea(l);
    }
  }

  /** However often the import is interrupted, starting again until it completes leaves exactly the
      legacy records, with exact indexes and counters. */
  method OpenAgain(lib: Library, config: seq<LocalRecord>, log: seq<LogLine>, crashes: seq<(nat, bool)>)
    returns (db: LocalRecordDB)
    ensures db.Valid() && db.records == Legacy(config, log) && META_MIGRATED in db.kv
    ensures Says(config, log, db.records)
  {
    db := new LocalRecordDB(lib);
    var done := false;
    for i := 0 to |crashes|
      invariant fresh(db) && db.IndexValid() && (db.Valid() || Legacy(config, log) != map[])
      invariant META_MIGRATED !in db.kv ==> PartOf(db.records, Legacy(config, log))
      invariant META_MIGRATED in db.kv ==> db.Valid() && db.records == Legacy(config, log)
    {
      done := db.MigrateLegacy(config, log, crashes[i].0, crashes[i].1);
    }
    done := db.MigrateLegacy(config, log, |Legacy(config, log)| + 1, false);
    LegacySays(config, log);
  }

  method StageDels(keys: seq<string>) returns (ops: seq<Op>)
    ensures ops == Dels(keys)
  {
    ops := [];
    for i := 0 to |keys|
      invariant ops == Dels(keys)[..i]
    {
      ops := ops + [Del(keys[i])];
    }
  }

  method StagePuts(keys: seq<string>, id: string) returns (ops: seq<Op>)
    ensures ops == Puts(keys, id)
  {
    ops := [];
    for i := 0 to |keys|
      invariant ops == Puts(keys, id)[..i]
    {
      ops := ops + [Put(keys[i], Pointer(id))];
    }
  }

  method StageReplace(keysOf: KeyFunction, kv: KV, rec: LocalRecord, counters: seq<Op>) returns (ops: seq<Op>)
    ensures ops == ReplaceOps(keysOf, kv, rec, counters)
  {
    var was := Lookup(kv, rec.recordID);
    ops := [];
    if was.Some? {
      ops := StageDels(keysOf(was.value));
    }
    var puts := StagePuts(keysOf(rec), rec.recordID);
    ops := ops + counters + [Put(RecordKey(rec.recordID), Rec(rec))] + puts;
  }

  /** One upsert batch. */
  method PutInto(keysOf: KeyFunction, kv: KV, ghost records: Records, rec: LocalRecord) returns (kv': KV)
    requires Separating(keysOf) && Agrees(keysOf, kv, records) && rec.recordID != ""
    ensures Agrees(keysOf, kv', records[rec.recordID := rec])
  {
    UpsertAgrees(keysOf, kv, records, rec);
    var ops := StageReplace(keysOf, kv, rec, UpsertCounters(kv, rec));
    kv' := Commit(kv, ops);
  }

  /** One delete batch. */
  method RemoveFrom(keysOf: KeyFunction, kv: KV, ghost records: Records, was: LocalRecord, id: string)
    returns (kv': KV)
    requires Separating(keysOf) && Agrees(keysOf, kv, records) && id in records && records[id] == was
    ensures Agrees(keysOf, kv', records - {id})
  {
    DeleteAgrees(keysOf, kv, records, id);
    var ops := StageDelete(keysOf, kv, was, id);
    kv' := Commit(kv, ops);
  }

  method StageDelete(keysOf: KeyFunction, kv: KV, was: LocalRecord, id: string) returns (ops: seq<Op>)
    ensures ops == DeleteOps(keysOf, kv, was, id)
  {
    var dels := StageDels(keysOf(was));
    ops := [Del(RecordKey(id))] + dels + [CounterOp(kv, COUNT_ALL, -1)] + LevelOp(kv, was.proofLevel, -1);
  }

  method StageChunk(keysOf: KeyFunction, kv: KV, chunk: seq<LocalRecord>) returns (ops: seq<Op>)
    ensures ops == ChunkOps(keysOf, kv, chunk)
  {
    ops := [];
    assert chunk[0..] == chunk;
    for i := 0 to |chunk|
      invariant ChunkOps(keysOf, kv, chunk) == ops + ChunkOps(keysOf, kv, chunk[i..])
    {
      ChunkStep(keysOf, kv, chunk, i, ops);
      var more := StageImport(keysOf, kv, chunk[i]);
      ops := ops + more;
    }
  }

  method StageImport(keysOf: KeyFunction, kv: KV, rec: LocalRecord) returns (ops: seq<Op>)
    ensures ops == ImportOps(keysOf, kv, rec)
  {
    if rec.recordID == "" {
      return [];
    }
    ops := StageReplace(keysOf, kv, rec, []);
  }

  lemma PassedIfFound(kv: KV, key: string, accept: Accept)
    requires forall r :: accept(r)
    ensures var rec := Lookup(kv, Target(kv, key));
            Passed(kv, key, accept) == if rec.Some? then [rec.value] else []
  {
  }

  method VisitAll(kv: KV, keys: seq<string>, ghost accept: Accept) returns (recs: seq<LocalRecord>)
    requires forall r :: accept(r)
    ensures recs == Visited(kv, keys, accept)
  {
    recs := [];
    assert keys[0..] == keys;
    for i := 0 to |keys|
      invariant Visited(kv, keys, accept) == recs + Visited(kv, keys[i..], accept)
    {
      VisitedStep(kv, keys, accept, i, recs);
      PassedIfFound(kv, keys[i], accept);
      var rec := Lookup(kv, Target(kv, keys[i]));
      if rec.Some? {
        recs := recs + [rec.value];
      }
    }
  }

  lemma OneLonger(seen: seq<LocalRecord>, skipped: nat, more: seq<LocalRecord>)
    requires skipped <= |seen| && |more| <= 1
    ensures (seen + more)[skipped..] == seen[skipped..] + more
    ensures skipped == |seen| && |more| == 1 ==> (seen + more)[skipped + 1..] == []
  {
  }

  /** The callback of the scan: filters, skips the offset, and stops one past the limit. */
  method Visit(kv: KV, accept: Accept, opts: PageOptions, keys: seq<string>)
    returns (items: seq<LocalRecord>, ghost hits: seq<LocalRecord>)
    ensures hits == Visited(kv, keys, accept)
    ensures var skip, limit := Skip(opts, |hits|), Limit(opts);
            items == hits[skip..if skip + limit < |hits| then skip + limit + 1 else |hits|]
  {
    var limit, offset := Limit(opts), Offset(opts);
    var skipped := 0;
    items := [];
    hits := Visited(kv, keys, accept);
    ghost var seen: seq<LocalRecord> := [];
    assert keys[0..] == keys;
    for i := 0 to |keys|
      invariant hits == seen + Visited(kv, keys[i..], accept)
      invariant skipped == Skip(opts, |seen|)
      invariant items == seen[skipped..] && |items| <= limit
    {
      VisitedStep(kv, keys, accept, i, seen);
      OneLonger(seen, skipped, Passed(kv, keys[i], accept));
      seen := seen + Passed(kv, keys[i], accept);
      var rec := Lookup(kv, Target(kv, keys[i]));
      if rec.None? || !accept(rec.value) {
        continue;
      }
      if opts.cursor == "" && skipped < offset {
        skipped := skipped + 1;
      } else {
        items := items + [rec.value];
        if |items| > limit {
          return;
        }
      }
    }
    assert seen == hits;
  }

  /** The total of a page that has no counter: what is known to be there. */
  function AtLeast(opts: PageOptions, page: Page): int {
    Offset(opts) + |page.items| + if page.hasMore then 1 else 0
  }

  /** The page cut from one more hit than fits on it. */
  method CutPage(cursorFor: LocalRecord -> string, ghost hits: seq<LocalRecord>, ghost skip: nat, limit: nat,
                 found: seq<LocalRecord>, offset: int) returns (page: Page)
    requires skip <= |hits| && limit > 0
    requires found == hits[skip..if skip + limit < |hits| then skip + limit + 1 else |hits|]
    ensures CutAt(cursorFor, hits, skip, limit, page) && !page.totalExact
    ensures page.total == offset + |page.items| + if page.hasMore then 1 else 0
  {
    if |found| > limit {
      var items := found[..limit];
      assert items == hits[skip..skip + limit];
      page := Page(items, offset + |items| + 1, true, cursorFor(items[limit - 1]), false);
    } else {
      page := Page(found, offset + |found|, false, "", false);
    }
  }

  method BuildPage(lib: Library, kv: KV, accept: Accept, opts: PageOptions, keys: seq<string>)
    returns (page: Page, ghost hits: seq<LocalRecord>)
    ensures hits == Visited(kv, keys, accept)
    ensures CutFrom(lib, opts, hits, page) && !page.totalExact && page.total == AtLeast(opts, page)
  {
    var found;
    found, hits := Visit(kv, accept, opts, keys);
    page := CutPage(CursorFor(lib), hits, Skip(opts, |hits|), Limit(opts), found, Offset(opts));
  }

  lemma CutIsPage(lib: Library, records: Records, opts: PageOptions, hits: seq<LocalRecord>, page: Page)
    requires HitList(lib, records, opts, DecodeCursor(opts.cursor), hits) && CutFrom(lib, opts, hits, page)
    ensures PageOf(lib, records, opts, page)
  {}

  lemma NoFilterSlot(lib: Library)
    ensures ListSlot(lib, NO_FILTER) == (ByTime, Some(COUNT_ALL))
  {}

  lemma AcceptsAll(lib: Library)
    ensures forall r :: Accepts(lib, NO_FILTER)(r)
  {
    forall r ensures Accepts(lib, NO_FILTER)(r) {
      NoFilterMatches(lib, r);
    }
  }

  lemma NoFilterMatches(lib: Library, rec: LocalRecord)
    ensures Matches(lib, rec, NO_FILTER) && Hit(lib, rec, NO_FILTER)
  {
    NoFilterSlot(lib);
    SlotsAre(lib, rec, ByTime);
  }

  // ---------- helpers of the import ----------

  function ChunkAt(recs: seq<LocalRecord>, start: nat): seq<LocalRecord>
    requires start < |recs|
  {
    recs[start..if start + CHUNK < |recs| then start + CHUNK else |recs|]
  }

  lemma ChunkFollows(recs: seq<LocalRecord>, start: nat)
    requires start < |recs|
    ensures var chunk := ChunkAt(recs, start);
            && 0 < |chunk| && start + |chunk| <= |recs| && recs[..start] + chunk == recs[..start + |chunk|]
            && start + |chunk| == if start + CHUNK < |recs| then start + CHUNK else |recs|
  {}

  lemma NextChunk(start: nat)
    requires start % CHUNK == 0
    ensures (start + CHUNK) % CHUNK == 0
  {
  }

  /** No chunk names the same record twice. */
  ghost predicate ChunksDistinct(recs: seq<LocalRecord>) {
    forall start: nat :: start < |recs| && start % CHUNK == 0 ==> DistinctIDs(ChunkAt(recs, start))
  }

  lemma {:induction false} PutAllConcat(records: Records, a: seq<LocalRecord>, b: seq<LocalRecord>)
    ensures PutAll(records, a + b) == PutAll(PutAll(records, a), b)
    decreases |a|
  {
    if a == [] {
      assert a + b == b;
    } else {
      assert (a + b)[1..] == a[1..] + b;
      PutAllConcat(if a[0].recordID == "" then records else records[a[0].recordID := a[0]], a[1..], b);
    }
  }

  lemma MetaApart()
    ensures !IsCounter(META_MIGRATED) && !IsIndex(META_MIGRATED) && !IsRecord(META_MIGRATED)
  {
    assert META_MIGRATED[0] == 'm';
  }

  method RebuildOps(lib: Library, kv: KV, ghost records: Records, recs: seq<LocalRecord>) returns (ops: seq<Op>)
    requires IndexAgrees(KeysOf(lib), kv, records) && HitList(lib, records, NO_FILTER, [], recs)
    ensures Agrees(KeysOf(lib), Commit(kv, ops), records)
    ensures META_MIGRATED in Commit(kv, ops) <==> META_MIGRATED in kv
  {
    AllRecordsListed(lib, records, recs);
    var counts := CountRecords(recs);
    ghost var stale;
    ops, stale := StageCounters(kv, counts);
    KeysOfSeparates(lib);
    RebuiltAgrees(KeysOf(lib), kv, records, recs, counts, stale);
  }

  /** Deletes every counter and writes the new ones. */
  method StageCounters(kv: KV, counts: map<string, nat>) returns (ops: seq<Op>, ghost stale: set<string>)
    requires forall k <- counts :: IsCounter(k)
    ensures AllCounters(kv, stale) && Commit(kv, ops) == (kv - stale) + CountMap(counts)
    ensures META_MIGRATED in Commit(kv, ops) <==> META_MIGRATED in kv
  {
    var keys := Iterate(kv, "cnt/");
    stale := set k <- keys;
    var dels := StageDels(keys);
    var puts := StageCounts(counts);
    ops := dels + puts;
    CommitFirstHalf(kv, keys, puts);
    MetaApart();
  }

  method CountRecords(recs: seq<LocalRecord>) returns (counts: map<string, nat>)
    requires forall i, j :: 0 <= i < j < |recs| ==> recs[i].recordID != recs[j].recordID
    ensures CountsOf(recs, counts)
  {
    counts := map[COUNT_ALL := 0];
    for i := 0 to |recs|
      invariant CountsOf(recs[..i], counts)
    {
      var rec := recs[i];
      assert recs[..i + 1] == recs[..i] + [rec];
      CountedOneMore(recs[..i], rec, counts);
      counts := counts[COUNT_ALL := CountIn(counts, COUNT_ALL) + 1];
      if rec.proofLevel != "" {
        var key := LevelCountKey(rec.proofLevel);
        counts := counts[key := CountIn(counts, key) + 1];
      }
    }
    assert recs[..|recs|] == recs;
  }

  lemma CountedOneMore(recs: seq<LocalRecord>, rec: LocalRecord, counts: map<string, nat>)
    requires CountsOf(recs, counts) && forall r <- recs :: r.recordID != rec.recordID
    ensures var counts' := counts[COUNT_ALL := CountIn(counts, COUNT_ALL) + 1];
            var key := LevelCountKey(rec.proofLevel);
            CountsOf(recs + [rec], if rec.proofLevel == "" then counts' else counts'[key := CountIn(counts', key) + 1])
  {
    LevelKeyArea(rec.proofLevel);
    forall l: string ensures l != "" ==> LevelCountKey(l) != COUNT_ALL && IsCounter(LevelCountKey(l))
                     ensures LevelCountKey(l) == LevelCountKey(rec.proofLevel) ==> l == rec.proofLevel {
      LevelKeyArea(l);
      if LevelCountKey(l) == LevelCountKey(rec.proofLevel) { LevelKeyInjective(l, rec.proofLevel); }
    }
    forall l: string ensures |LevelIDs(recs + [rec], l)| == |LevelIDs(recs, l)| + if rec.proofLevel == l then 1 else 0 {
      CountsStep(recs, rec, l);
    }
  }

  method StageCounts(counts: map<string, nat>) returns (ops: seq<Op>)
    ensures Commit(map[], ops) == CountMap(counts)
    ensures forall i :: 0 <= i < |ops| ==> ops[i].Put?
  {
    ops := [];
    var left := counts.Keys;
    while left != {}
      invariant left <= counts.Keys
      invariant Commit(map[], ops) == map k | k in counts && k !in left :: Count(counts[k])
      invariant forall i :: 0 <= i < |ops| ==> ops[i].Put?
      decreases left
    {
      var k :| k in left;
      left := left - {k};
      var op := Put(k, Count(counts[k]));
      CommitConcat(map[], ops, [op]);
      assert [op][1..] == [];
      ops := ops + [op];
    }
  }

  /** An unfiltered listing names every record once. */
  lemma AllRecordsListed(lib: Library, records: Records, recs: seq<LocalRecord>)
    requires OwnIDs(records) && HitList(lib, records, NO_FILTER, [], recs)
    ensures forall i, j :: 0 <= i < j < |recs| ==> recs[i].recordID != recs[j].recordID
    ensures |recs| == |records| && forall l :: LevelIDs(recs, l) == AtLevel(records, l)
  {
    forall id | id in records ensures records[id] in recs {
      NoFilterMatches(lib, records[id]);
      assert IsHit(lib, records, NO_FILTER, [], records[id]);
    }
    forall r | r in recs ensures r.recordID in records && records[r.recordID] == r {
      assert IsHit(lib, records, NO_FILTER, [], r);
    }
    forall i, j | 0 <= i < j < |recs| ensures recs[i].recordID != recs[j].recordID {
      assert recs[i] in recs && recs[j] in recs;
      if recs[i] == recs[j] { LessIrreflexive(Utf8(Suffix(lib, recs[i]))); }
    }
    IDsCounted(records, recs);
  }

  lemma IDsCounted(records: Records, recs: seq<LocalRecord>)
    requires OwnIDs(records)
    requires forall i, j :: 0 <= i < j < |recs| ==> recs[i].recordID != recs[j].recordID
    requires forall id <- records :: records[id] in recs
    requires forall r <- recs :: r.recordID in records && records[r.recordID] == r
    ensures |recs| == |records| && forall l :: LevelIDs(recs, l) == AtLevel(records, l)
  {
    var ids := seq(|recs|, i requires 0 <= i < |recs| => recs[i].recordID);
    assert NoRepeat(ids);
    DistinctSize(ids);
    assert Distinct(ids) == records.Keys by {
      forall id | id in records ensures id in ids {
        var i :| 0 <= i < |recs| && recs[i] == records[id];
        assert ids[i] == id;
      }
    }
  }

  // ---------- exact totals ----------

  ghost function Matching(lib: Library, records: Records, opts: PageOptions): set<string> {
    set id | id in records && Matches(lib, records[id], opts)
  }

  /** The total a page calls exact is the number of matching records exactly when no filter but the
      level leaves out a record of that level; so always when there is no other filter. */
  lemma ExactTotal(lib: Library, kv: KV, records: Records, opts: PageOptions)
    requires CountersAgree(kv, records) && ListSlot(lib, opts).1.Some?
    ensures Counter(kv, ListSlot(lib, opts).1.value) == |Matching(lib, records, opts)| <==>
              forall id <- records :: (opts.level == "" || records[id].proofLevel == opts.level) ==>
              Matches(lib, records[id], opts)
  {
    var counted := if opts.level == "" then records.Keys else AtLevel(records, opts.level);
    var matching := Matching(lib, records, opts);
    assert Counter(kv, ListSlot(lib, opts).1.value) == |counted|;
    assert matching <= counted;
    SubsetSize(matching, counted);
    if matching == counted {
      forall id | id in records && (opts.level == "" || records[id].proofLevel == opts.level)
        ensures Matches(lib, records[id], opts) {
        assert id in counted;
      }
    } else {
      var id :| id in counted && id !in matching;
      assert id in records && !Matches(lib, records[id], opts);
    }
  }

  /** No filter, or only a level. */
  predicate OnlyLevel(lib: Library, opts: PageOptions) {
    opts.batchID == "" && opts.tenantID == "" && opts.clientID == "" && TrimSpace(lib, opts.query) == ""
  }

  lemma BlankQuery(lib: Library)
    ensures !LooksLikeContentHash(lib, "") && QueryToken(lib, "") == "" && Lower(lib, "") == ""
  {
  }

  /** Without any filter, or with a level as the only filter, the total is exact and right. */
  lemma LevelTotal(lib: Library, kv: KV, records: Records, opts: PageOptions)
    requires CountersAgree(kv, records) && OnlyLevel(lib, opts)
    ensures ListSlot(lib, opts).1.Some? && Counter(kv, ListSlot(lib, opts).1.value) == |Matching(lib, records, opts)|
  {
    BlankQuery(lib);
    ExactTotal(lib, kv, records, opts);
  }

  /** For any other request with a total marked exact there is a store on which it is wrong. */
  lemma SecondFilterMiscounts(lib: Library, opts: PageOptions) returns (kv: KV, records: Records)
    requires PlainCharacters(lib) && ListSlot(lib, opts).1.Some? && !OnlyLevel(lib, opts)
    ensures Agrees(KeysOf(lib), kv, records)
    ensures Counter(kv, ListSlot(lib, opts).1.value) == 1 && Matching(lib, records, opts) == {}
  {
    BlankQuery(lib);
    var q := Lower(lib, TrimSpace(lib, opts.query));
    var id := if q == "a" then "b" else "a";
    var rec := LocalRecord(id, "", 0, "", 0, "", "", "", "", "", "", opts.level, "", "");
    KeysOfSeparates(lib);
    kv := OneRecord(KeysOf(lib), rec);
    records := map[id := rec];
    assert ListSlot(lib, opts).1 == Some(LevelCountKey(opts.level)) && opts.level != "";
    Unmatched(lib, rec, opts, q);
  }

  lemma OneRecord(keysOf: KeyFunction, rec: LocalRecord) returns (kv: KV)
    requires Separating(keysOf) && rec.recordID != ""
    ensures Agrees(keysOf, kv, map[rec.recordID := rec])
    ensures rec.proofLevel != "" ==> Counter(kv, LevelCountKey(rec.proofLevel)) == 1
  {
    EmptyAgrees(keysOf);
    UpsertAgrees(keysOf, map[], map[], rec);
    kv := Commit(map[], UpsertOps(keysOf, map[], rec));
    OneCounted(kv, rec);
  }

  lemma EmptyAgrees(keysOf: KeyFunction)
    ensures Agrees(keysOf, map[], map[])
  {
  }

  lemma OneCounted(kv: KV, rec: LocalRecord)
    requires CountersAgree(kv, map[rec.recordID := rec])
    ensures rec.proofLevel != "" ==> Counter(kv, LevelCountKey(rec.proofLevel)) == 1
  {
    assert AtLevel(map[rec.recordID := rec], rec.proofLevel) == {rec.recordID};
  }

  lemma Unmatched(lib: Library, rec: LocalRecord, opts: PageOptions, q: string)
    requires !OnlyLevel(lib, opts) && q == Lower(lib, TrimSpace(lib, opts.query)) && |rec.recordID| == 1
    requires Lower(lib, rec.recordID) != q && rec.batchID == rec.tenantID == rec.clientID == ""
    requires rec.fileName == rec.filePath == rec.contentHashHex == rec.eventType == ""
    ensures !Matches(lib, rec, opts)
  {
    if q != "" {
      forall f | f == "" || f == rec.recordID ensures !Contains(Lower(lib, f), q) {
        Apart(Lower(lib, f), q);
      }
    }
  }

  lemma Apart(s: string, q: string)
    requires |s| <= 1 && q != "" && s != q
    ensures !Contains(s, q)
  {
    assert |s| == 1 ==> s[0..1] == s;
  }

  /** So of the requests whose total is marked exact, it is right in every store for exactly those
      that filter by nothing but a level. */
  lemma TotalRightExactly(lib: Library, opts: PageOptions)
    requires PlainCharacters(lib) && ListSlot(lib, opts).1.Some?
    ensures (forall kv, records | Agrees(KeysOf(lib), kv, records) ::
               Counter(kv, ListSlot(lib, opts).1.value) == |Matching(lib, records, opts)|) <==> OnlyLevel(lib, opts)
  {
    if OnlyLevel(lib, opts) {
      forall kv, records | Agrees(KeysOf(lib), kv, records)
        ensures Counter(kv, ListSlot(lib, opts).1.value) == |Matching(lib, records, opts)|
      {
        LevelTotal(lib, kv, records, opts);
      }
    } else {
      var kv, records := SecondFilterMiscounts(lib, opts);
      assert Agrees(KeysOf(lib), kv, records);
    }
  }

  lemma SubsetSize(a: set<string>, b: set<string>)
    requires a <= b
    ensures |a| == |b| <==> a == b
  {
    assert b == a + (b - a);
    if a != b { var x :| x in b - a; assert |b - a| > 0; }
  }
}
